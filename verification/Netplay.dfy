/** The netplay input log of src/main/netplay.c.

    The server numbers the inputs of every player 0, 1, 2, ... without bound, and
    sends them stamped with that number modulo 2^32. A client keeps the inputs it
    has not used yet in one linked list per player, filtered by a half-window test
    on the stamp, and hands them to the emulator one at a time. */
module Netplay {
  import opened Common

  const WORD: nat := 0x1_0000_0000
  const HALF: nat := 0x8000_0000


  /** What the emulator is given for one controller read. */
  datatype Input = Input(buttons: U32, plugin: Byte)

  /** An input together with its 32-bit stamp, as it travels in a packet. */
  datatype Record = Record(count: U32, input: Input)

  /** One player's counter and buffered records, newest arrival first. */
  datatype PlayerState = PlayerState(count: U32, buffer: seq<Record>)

  // ----- the client's rules, on values ---------------------------------------

  /** Subtraction of two uint32_t. */
  function Distance(a: U32, b: U32): U32 { (a - b) % WORD }

  /** The test `count - netplay_count > UINT32_MAX / 2`. */
  predicate Stale(count: U32, current: U32) { Distance(count, current) > 0x7FFF_FFFF }

  predicate Recorded(buffer: seq<Record>, count: U32) {
    exists i :: 0 <= i < |buffer| && buffer[i].count == count
  }

  function Receive(s: PlayerState, r: Record): PlayerState {
    if Stale(r.count, s.count) || Recorded(s.buffer, r.count) then s
    else s.(buffer := [r] + s.buffer)
  }

  function ReceiveAll(s: PlayerState, rs: seq<Record>): PlayerState
    decreases |rs|
  {
    if rs == [] then s else ReceiveAll(Receive(s, rs[0]), rs[1..])
  }

  /** Index of the first record stamped `count`. */
  function Find(buffer: seq<Record>, count: U32): (i: nat)
    requires Recorded(buffer, count)
    ensures i < |buffer| && buffer[i].count == count
    ensures forall j :: 0 <= j < i ==> buffer[j].count != count
  {
    if buffer[0].count == count then 0 else
      assert Recorded(buffer[1..], count) by {
        var k :| 0 <= k < |buffer| && buffer[k].count == count;
        assert buffer[1..][k - 1].count == count;
      }
      1 + Find(buffer[1..], count)
  }

  /** The input due now, and the state after it has been used. */
  function Take(s: PlayerState): (Input, PlayerState)
    requires Recorded(s.buffer, s.count)
  {
    var i := Find(s.buffer, s.count);
    (s.buffer[i].input, PlayerState((s.count + 1) % WORD, s.buffer[..i] + s.buffer[i + 1..]))
  }

  // ----- packets --------------------------------------------------------------

  const KEY_INFO: Byte := 1
  const KEY_INFO_GRATUITOUS: Byte := 3
  const PACKET_SIZE: nat := 512

  /** The whole receive buffer, as SDL_net leaves it. */
  type Packet = p: seq<Byte> | |p| == 512 witness seq(512, i => 0)

  function Read32(b: seq<Byte>): U32
    requires |b| == 4
  {
    0x100_0000 * (b[0] as int) + 0x1_0000 * (b[1] as int) + 256 * (b[2] as int) + b[3] as int
  }

  function Write32(n: U32): (b: seq<Byte>)
    ensures |b| == 4
  {
    [n / 0x100_0000, n / 0x1_0000 % 256, n / 256 % 256, n % 256]
  }

  lemma ReadWrite32(n: U32)
    ensures Read32(Write32(n)) == n
  {
    assert n / 0x100_0000 == n / 256 / 256 / 256;
    assert n / 0x1_0000 == n / 256 / 256;
  }

  function ReadRecord(b: seq<Byte>): Record
    requires |b| == 9
  {
    Record(Read32(b[..4]), Input(Read32(b[4..8]), b[8]))
  }

  function WriteRecord(r: Record): (b: seq<Byte>)
    ensures |b| == 9
  {
    Write32(r.count) + Write32(r.input.buttons) + [r.input.plugin]
  }

  /** The `n` records that start at offset `at`. */
  function ReadRecords(b: seq<Byte>, at: nat, n: nat): seq<Record>
    requires at + 9 * n <= |b|
    decreases n
  {
    if n == 0 then [] else [ReadRecord(b[at..at + 9])] + ReadRecords(b, at + 9, n - 1)
  }

  function WriteRecords(rs: seq<Record>): (b: seq<Byte>)
    ensures |b| == 9 * |rs|
  {
    if rs == [] then [] else WriteRecord(rs[0]) + WriteRecords(rs[1..])
  }

  lemma RecordRoundTrip(r: Record)
    ensures ReadRecord(WriteRecord(r)) == r
  {
    var w := WriteRecord(r);
    assert w[..4] == Write32(r.count);
    assert w[4..8] == Write32(r.input.buttons);
    ReadWrite32(r.count);
    ReadWrite32(r.input.buttons);
  }

  /** One record `w` in front of encoded records reads as that record and the others. */
  lemma ReadInFront(front: seq<Byte>, w: seq<Byte>, rest: seq<Byte>, back: seq<Byte>, n: nat)
    requires |w| == 9 && |rest| == 9 * n
    ensures ReadRecords(front + (w + rest) + back, |front|, n + 1)
         == [ReadRecord(w)] + ReadRecords((front + w) + rest + back, |front| + 9, n)
  {
    var b := front + (w + rest) + back;
    assert b == (front + w) + rest + back;
    assert b[|front|..|front| + 9] == w;
  }

  /** Decoding a written record list gives the list back, wherever it stands in the
      buffer and whatever follows it. */
  lemma {:induction false} RecordsRoundTrip(front: seq<Byte>, rs: seq<Record>, back: seq<Byte>)
    ensures ReadRecords(front + WriteRecords(rs) + back, |front|, |rs|) == rs
    decreases rs
  {
    if rs != [] {
      var w := WriteRecord(rs[0]);
      ReadInFront(front, w, WriteRecords(rs[1..]), back, |rs| - 1);
      RecordsRoundTrip(front + w, rs[1..], back);
      RecordRoundTrip(rs[0]);
    }
  }

  predicate IsKeyInfo(p: Packet) { p[0] == KEY_INFO || p[0] == KEY_INFO_GRATUITOUS }

  /** What the receive loop demands of the server: a real player number and a record
      count that fits the buffer. Other packet types are only reported. */
  predicate WellFormed(p: Packet) {
    IsKeyInfo(p) ==> p[1] < 4 && 5 + 9 * p[4] <= PACKET_SIZE
  }

  /** A key-info packet as the server sends it, in a buffer that still holds `rest`. */
  function KeyPacket(kind: Byte, player: Byte, status: Byte, lag: Byte, rs: seq<Record>, rest: seq<Byte>): (p: Packet)
    requires |rs| <= 56
    requires |rest| == PACKET_SIZE - 5 - 9 * |rs|
  {
    [kind, player, status, lag, |rs|] + WriteRecords(rs) + rest
  }

  datatype ClientState = ClientState(status: Byte, lag: seq<Byte>, players: seq<PlayerState>)

  predicate Shaped(c: ClientState) { |c.lag| == 4 && |c.players| == 4 }

  /** One turn of the receive loop. */
  function Process(c: ClientState, p: Packet): (r: ClientState)
    requires Shaped(c) && WellFormed(p)
    ensures Shaped(r)
  {
    if !IsKeyInfo(p) then c
    else
      ClientState(
        p[2],
        if p[0] == KEY_INFO then c.lag[p[1] := p[3]] else c.lag,
        c.players[p[1] := ReceiveAll(c.players[p[1]], ReadRecords(p, 5, p[4]))])
  }

  predicate AllFormed(ps: seq<Packet>) { forall p :: p in ps ==> WellFormed(p) }

  function ProcessAll(c: ClientState, ps: seq<Packet>): (r: ClientState)
    requires Shaped(c) && AllFormed(ps)
    ensures Shaped(r)
    decreases |ps|
  {
    if ps == [] then c else ProcessAll(Process(c, ps[0]), ps[1..])
  }

  /** A packet written by the server reaches exactly the addressed player's buffer, record for
      record; its status is taken over, its lag only if the packet answers a request. Packets
      of other kinds change nothing. */
  lemma PacketReachesPlayer(c: ClientState, kind: Byte, player: Byte, status: Byte, lag: Byte, rs: seq<Record>,
                            rest: seq<Byte>)
    requires Shaped(c) && player < 4
    requires |rs| <= 56 && |rest| == PACKET_SIZE - 5 - 9 * |rs|
    ensures var p := KeyPacket(kind, player, status, lag, rs, rest);
            WellFormed(p) &&
            Process(c, p) ==
            if kind == 1 || kind == 3 then
              ClientState(status, if kind == 1 then c.lag[player := lag] else c.lag,
                          c.players[player := ReceiveAll(c.players[player], rs)])
            else c
  {
    var p := KeyPacket(kind, player, status, lag, rs, rest);
    PacketHead(kind, player, status, lag, rs, rest);
    PacketRecords(kind, player, status, lag, rs, rest);
    if IsKeyInfo(p) { ProcessIs(c, p, player, rs); }
  }

  lemma PacketHead(kind: Byte, player: Byte, status: Byte, lag: Byte, rs: seq<Record>, rest: seq<Byte>)
    requires |rs| <= 56 && |rest| == PACKET_SIZE - 5 - 9 * |rs|
    ensures var p := KeyPacket(kind, player, status, lag, rs, rest);
            p[0] == kind && p[1] == player && p[2] == status && p[3] == lag && p[4] == |rs|
  {
  }

  lemma PacketRecords(kind: Byte, player: Byte, status: Byte, lag: Byte, rs: seq<Record>, rest: seq<Byte>)
    requires |rs| <= 56 && |rest| == PACKET_SIZE - 5 - 9 * |rs|
    ensures ReadRecords(KeyPacket(kind, player, status, lag, rs, rest), 5, |rs|) == rs
  {
    RecordsRoundTrip([kind, player, status, lag, |rs|], rs, rest);
  }

  lemma ProcessIs(c: ClientState, p: Packet, player: Byte, rs: seq<Record>)
    requires Shaped(c) && |rs| <= 56 && p[4] == |rs| && p[1] == player < 4 && IsKeyInfo(p)
    requires ReadRecords(p, 5, |rs|) == rs
    ensures WellFormed(p)
    ensures Process(c, p) == ClientState(p[2], if p[0] == KEY_INFO then c.lag[player := p[3]] else c.lag,
                                         c.players[player := ReceiveAll(c.players[player], rs)])
  {
  }

  // ----- waiting for the due input ----------------------------------------------

  /** The input the player needs next is in the buffer. */
  predicate Due(c: ClientState, player: nat)
    requires Shaped(c) && player < 4
  {
    Recorded(c.players[player].buffer, c.players[player].count)
  }

  predicate AllBatchesFormed(bs: seq<seq<Packet>>) { forall i :: 0 <= i < |bs| ==> AllFormed(bs[i]) }

  /** The packets of all the batches, in order. */
  function Joined(bs: seq<seq<Packet>>): (ps: seq<Packet>)
    ensures AllBatchesFormed(bs) ==> AllFormed(ps)
  {
    if bs == [] then [] else Joined(bs[..|bs| - 1]) + bs[|bs| - 1]
  }

  /** The client after the first `n` batches. */
  function After(c: ClientState, bs: seq<seq<Packet>>, n: nat): (r: ClientState)
    requires Shaped(c) && AllBatchesFormed(bs) && n <= |bs|
    ensures Shaped(r)
  {
    ProcessAll(c, Joined(bs[..n]))
  }

  /** No fewer than `n` batches will do. */
  ghost predicate NotBefore(c: ClientState, player: nat, bs: seq<seq<Packet>>, n: nat)
    requires Shaped(c) && player < 4 && AllBatchesFormed(bs) && n <= |bs|
  {
    forall k :: 0 <= k < n ==> !Due(After(c, bs, k), player)
  }

  lemma NotBeforeNext(c: ClientState, player: nat, bs: seq<seq<Packet>>, n: nat)
    requires Shaped(c) && player < 4 && AllBatchesFormed(bs) && n < |bs|
    requires NotBefore(c, player, bs, n) && !Due(After(c, bs, n), player)
    ensures NotBefore(c, player, bs, n + 1)
  {
  }

  /** How netplay_ensure_valid ends: it looks at `n` batches, no more than it needs and none if
      the channel is closed, and succeeds if the due input was there at once or came in time. */
  ghost predicate Waited(c: ClientState, open: bool, player: nat, bs: seq<seq<Packet>>, timedOut: bool,
                         n: nat, success: bool)
    requires Shaped(c) && player < 4 && AllBatchesFormed(bs)
  {
    && n <= (if open then |bs| else 0)
    && NotBefore(c, player, bs, n)
    && (open ==> Due(After(c, bs, n), player) || n == |bs|)
    && (success <==> Due(c, player) || (open && !timedOut && Due(After(c, bs, n), player)))
  }

  /** That leaves one outcome: nothing is waited for when the due input is there, nothing can be
      when the channel is closed, and what a poll needs is found in the first batch that has it. */
  lemma WaitDecided(c: ClientState, open: bool, player: nat, bs: seq<seq<Packet>>, timedOut: bool,
                    n: nat, success: bool)
    requires Shaped(c) && player < 4 && AllBatchesFormed(bs)
    requires Waited(c, open, player, bs, timedOut, n, success)
    ensures Due(c, player) ==> success && n == 0
    ensures !Due(c, player) && !open ==> !success && n == 0
    ensures !Due(c, player) && open ==>
              (success <==> !timedOut && exists k :: 0 <= k <= |bs| && Due(After(c, bs, k), player))
    ensures forall n', success' :: Waited(c, open, player, bs, timedOut, n', success') ==>
              n' == n && success' == success
  {
    assert bs[..0] == [] && After(c, bs, 0) == c;
  }

  // ----- stamps and positions -------------------------------------------------

  function Stamp(k: nat): U32 { k % WORD }

  /** The log position a client standing at `pos` takes a stamp to mean. */
  function Placed(pos: nat, count: U32): nat { pos + Distance(count, Stamp(pos)) }

  /** The record numbered `k` is read as a future record only if it is the one at
      that place. Every record within 2^31 of the client's position qualifies. */
  predicate Unambiguous(pos: nat, k: nat) {
    Stale(Stamp(k), Stamp(pos)) || pos <= k < pos + HALF
  }

  lemma DistanceIs(pos: nat, k: nat, q: int, d: nat)
    requires k - pos == q * WORD + d && d < WORD
    ensures Distance(Stamp(k), Stamp(pos)) == d
  {
    var a, b := k / WORD, pos / WORD;
    assert Stamp(k) - Stamp(pos) == (q - a + b) * WORD + d;
    ModIs((q - a + b), d);
  }

  lemma ModIs(m: int, d: nat)
    requires d < WORD
    ensures (m * WORD + d) % WORD == d
  {
    var t := (m * WORD + d) / WORD;
    assert t * WORD + (m * WORD + d) % WORD == m * WORD + d;
  }

  /** Near the client's position the test is exact: old records are dropped, present
      and future ones are kept and put in their own place, also across a wrap of the
      32-bit counter. The window is the half-open one of 2^31 on either side. */
  lemma WindowExact(pos: nat, k: nat)
    requires pos - HALF <= k < pos + HALF
    ensures Stale(Stamp(k), Stamp(pos)) <==> k < pos
    ensures k >= pos ==> Placed(pos, Stamp(k)) == k
    ensures Unambiguous(pos, k)
  {
    if k >= pos { DistanceIs(pos, k, 0, k - pos); } else { DistanceIs(pos, k, -1, k - pos + WORD); }
  }

  /** For every record at any distance: it is kept or dropped as it should be exactly
      when it lies less than 2^31 ahead, or lies behind by an amount whose remainder
      modulo 2^32 is in 1..2^31. */
  lemma HandledIff(pos: nat, k: nat)
    ensures (k >= pos && !Stale(Stamp(k), Stamp(pos)) && Placed(pos, Stamp(k)) == k) <==> pos <= k < pos + HALF
    ensures k < pos ==> (Stale(Stamp(k), Stamp(pos)) <==> (pos - k - 1) % WORD < HALF)
  {
    var q, d := (k - pos) / WORD, (k - pos) % WORD;
    DistanceIs(pos, k, q, d);
    if k < pos {
      var e := pos - k - 1;
      assert e == (-q - 1) * WORD + (WORD - 1 - d);
      ModIs(-q - 1, WORD - 1 - d);
    }
    if pos <= k < pos + HALF { WindowExact(pos, k); }
  }

  // ----- what a buffer must hold ----------------------------------------------

  /** Stamps are distinct and lie in the forward half-window. */
  ghost predicate Ordered(s: PlayerState) {
    && (forall i :: 0 <= i < |s.buffer| ==> !Stale(s.buffer[i].count, s.count))
    && (forall i, j :: 0 <= i < j < |s.buffer| ==> s.buffer[i].count != s.buffer[j].count)
  }

  /** Each buffered record carries the log entry of the place its stamp denotes. */
  ghost predicate Faithful(log: nat -> Input, pos: nat, s: PlayerState) {
    && s.count == Stamp(pos)
    && (forall i :: 0 <= i < |s.buffer| ==> s.buffer[i].input == log(Placed(pos, s.buffer[i].count)))
  }

  /** The buffer holds position `k`. */
  ghost predicate Holds(pos: nat, s: PlayerState, k: nat) {
    exists i :: 0 <= i < |s.buffer| && Placed(pos, s.buffer[i].count) == k
  }

  /** The buffer holds precisely the positions of `arrived` that are still to come. */
  ghost predicate Exact(pos: nat, s: PlayerState, arrived: set<nat>) {
    forall k: nat :: Holds(pos, s, k) <==> k in arrived && k >= pos
  }

  lemma ReceiveKeepsOrdered(s: PlayerState, r: Record)
    requires Ordered(s)
    ensures Ordered(Receive(s, r))
  {
    var t := Receive(s, r);
    if t != s {
      forall i, j | 0 <= i < j < |t.buffer| ensures t.buffer[i].count != t.buffer[j].count {
        if i > 0 { assert s.buffer[i - 1].count != s.buffer[j - 1].count; }
      }
    }
  }

  /** Receiving the log's record `k` keeps the buffer faithful exactly when the stamp
      is unambiguous, its place is taken already, or the two log entries that the
      client confuses happen to be equal. */
  lemma ReceiveFaithfulIff(log: nat -> Input, pos: nat, s: PlayerState, k: nat)
    requires Faithful(log, pos, s)
    ensures Faithful(log, pos, Receive(s, Record(Stamp(k), log(k)))) <==>
            Unambiguous(pos, k) || Recorded(s.buffer, Stamp(k)) || log(k) == log(Placed(pos, Stamp(k)))
  {
    var r := Record(Stamp(k), log(k));
    var t := Receive(s, r);
    if pos <= k < pos + HALF { WindowExact(pos, k); }
    if t != s {
      assert t.buffer[0] == r;
      forall i | 1 <= i < |t.buffer| ensures t.buffer[i].input == log(Placed(pos, t.buffer[i].count)) {
        assert t.buffer[i] == s.buffer[i - 1];
      }
    }
  }

  /** A record that comes 2^31 + 1 inputs late is taken for one that is still to come. */
  lemma LateRecordMisread(log: nat -> Input)
    requires log(0) != log(WORD)
    ensures !Faithful(log, HALF + 1, Receive(PlayerState(Stamp(HALF + 1), []), Record(Stamp(0), log(0))))
  {
    ReceiveFaithfulIff(log, HALF + 1, PlayerState(Stamp(HALF + 1), []), 0);
    DistanceIs(HALF + 1, 0, -1, HALF - 1);
  }

  lemma ReceiveKeepsExact(pos: nat, s: PlayerState, k: nat, input: Input, arrived: set<nat>)
    requires s.count == Stamp(pos) && Ordered(s) && Exact(pos, s, arrived) && Unambiguous(pos, k)
    ensures Exact(pos, Receive(s, Record(Stamp(k), input)),
                  if Stale(Stamp(k), Stamp(pos)) then arrived else arrived + {k})
  {
    var t := Receive(s, Record(Stamp(k), input));
    if !Stale(Stamp(k), Stamp(pos)) {
      WindowExact(pos, k);
      forall m: nat ensures Holds(pos, t, m) <==> m in arrived + {k} && m >= pos {
        if t == s {
          var i :| 0 <= i < |s.buffer| && s.buffer[i].count == Stamp(k);
          assert Holds(pos, s, k);
        } else {
          assert Placed(pos, t.buffer[0].count) == k;
          if Holds(pos, t, m) {
            var i :| 0 <= i < |t.buffer| && Placed(pos, t.buffer[i].count) == m;
            if i > 0 { assert t.buffer[i] == s.buffer[i - 1]; assert Holds(pos, s, m); }
          }
          if m in arrived && m >= pos {
            var i :| 0 <= i < |s.buffer| && Placed(pos, s.buffer[i].count) == m;
            assert t.buffer[i + 1] == s.buffer[i];
          }
        }
      }
    }
  }

  /** A stamp that is still ahead keeps its place when the client moves on by one. */
  lemma PlaceSurvivesStep(pos: nat, count: U32)
    requires count != Stamp(pos) && !Stale(count, Stamp(pos))
    ensures Placed(pos + 1, count) == Placed(pos, count)
    ensures !Stale(count, Stamp(pos + 1))
  {
    var d := Distance(count, Stamp(pos));
    var q := (count - Stamp(pos)) / WORD;
    assert count - Stamp(pos) == q * WORD + d;
    assert d > 0;
    if Stamp(pos) == WORD - 1 {
      assert Stamp(pos + 1) == 0 by { DistanceIs(0, pos + 1, (pos + 1) / WORD, 0); }
      assert count - 0 == (q + 1) * WORD + (d - 1);
      ModIs(q + 1, d - 1);
    } else {
      StampNext(pos);
      assert count - Stamp(pos + 1) == q * WORD + (d - 1);
      ModIs(q, d - 1);
    }
  }

  lemma StampNext(pos: nat)
    ensures Stamp(pos + 1) == (Stamp(pos) + 1) % WORD
  {
    var q, r := pos / WORD, pos % WORD;
    assert pos + 1 == q * WORD + (r + 1);
    if r + 1 < WORD { ModIs(q, r + 1); } else { assert pos + 1 == (q + 1) * WORD + 0; ModIs(q + 1, 0); }
  }

  lemma TakeIndex(s: PlayerState, i: nat, k: nat)
    requires i < |s.buffer| && k < |s.buffer| - 1
    ensures (s.buffer[..i] + s.buffer[i + 1..])[k] == s.buffer[if k < i then k else k + 1]
  {
  }

  /** After a take, every record left is one that was there, still ahead and in place. */
  lemma TakeKeepsRecords(pos: nat, s: PlayerState, k: nat)
    requires Ordered(s) && s.count == Stamp(pos) && Recorded(s.buffer, s.count)
    requires k < |s.buffer| - 1
    ensures var f, r := Find(s.buffer, s.count), Take(s).1.buffer[k];
            && r == s.buffer[if k < f then k else k + 1]
            && !Stale(r.count, Stamp(pos + 1)) && Placed(pos + 1, r.count) == Placed(pos, r.count)
  {
    var f := Find(s.buffer, s.count);
    TakeIndex(s, f, k);
    PlaceSurvivesStep(pos, Take(s).1.buffer[k].count);
  }

  lemma TakeKeepsOrdered(pos: nat, s: PlayerState)
    requires Ordered(s) && s.count == Stamp(pos) && Recorded(s.buffer, s.count)
    ensures Ordered(Take(s).1) && Take(s).1.count == Stamp(pos + 1)
  {
    var t := Take(s).1;
    StampNext(pos);
    forall k | 0 <= k < |t.buffer| ensures !Stale(t.buffer[k].count, t.count) {
      TakeKeepsRecords(pos, s, k);
    }
    forall i, j | 0 <= i < j < |t.buffer| ensures t.buffer[i].count != t.buffer[j].count {
      TakeKeepsRecords(pos, s, i);
      TakeKeepsRecords(pos, s, j);
    }
  }

  lemma TakeKeepsExact(pos: nat, s: PlayerState, arrived: set<nat>)
    requires Ordered(s) && s.count == Stamp(pos) && Recorded(s.buffer, s.count) && Exact(pos, s, arrived)
    ensures Exact(pos + 1, Take(s).1, arrived)
  {
    forall m: nat ensures Holds(pos + 1, Take(s).1, m) <==> m in arrived && m >= pos + 1 {
      assert Holds(pos, s, m) <==> m in arrived && m >= pos;
      TakeHoldsIff(pos, s, m);
    }
  }

  /** A take drops the client's own position from the buffer and no other. */
  lemma TakeHoldsIff(pos: nat, s: PlayerState, m: nat)
    requires Ordered(s) && s.count == Stamp(pos) && Recorded(s.buffer, s.count)
    ensures Holds(pos + 1, Take(s).1, m) <==> Holds(pos, s, m) && m != pos
  {
    if Holds(pos + 1, Take(s).1, m) { TakeHeldBefore(pos, s, m); }
    if Holds(pos, s, m) && m != pos { TakeStillHeld(pos, s, m); }
  }

  lemma TakeHeldBefore(pos: nat, s: PlayerState, m: nat)
    requires Ordered(s) && s.count == Stamp(pos) && Recorded(s.buffer, s.count) && Holds(pos + 1, Take(s).1, m)
    ensures Holds(pos, s, m) && m != pos
  {
    var t := Take(s).1;
    var k :| 0 <= k < |t.buffer| && Placed(pos + 1, t.buffer[k].count) == m;
    TakeKeepsRecords(pos, s, k);
    var j := if k < Find(s.buffer, s.count) then k else k + 1;
    assert Placed(pos, s.buffer[j].count) == m;
  }

  lemma TakeStillHeld(pos: nat, s: PlayerState, m: nat)
    requires Ordered(s) && s.count == Stamp(pos) && Recorded(s.buffer, s.count) && Holds(pos, s, m) && m != pos
    ensures Holds(pos + 1, Take(s).1, m)
  {
    var f := Find(s.buffer, s.count);
    var k :| 0 <= k < |s.buffer| && Placed(pos, s.buffer[k].count) == m;
    assert Placed(pos, s.buffer[f].count) == pos;
    var j := if k < f then k else k - 1;
    TakeKeepsRecords(pos, s, j);
    assert Placed(pos + 1, Take(s).1.buffer[j].count) == m;
  }

  /** Using the input that is due yields the log entry at the client's position, and
      the rest of the buffer keeps its places. */
  lemma TakeIsNext(log: nat -> Input, pos: nat, s: PlayerState, arrived: set<nat>)
    requires Ordered(s) && Faithful(log, pos, s) && Exact(pos, s, arrived) && Recorded(s.buffer, s.count)
    ensures Take(s).0 == log(pos)
    ensures Ordered(Take(s).1) && Faithful(log, pos + 1, Take(s).1) && Exact(pos + 1, Take(s).1, arrived)
  {
    var f, t := Find(s.buffer, s.count), Take(s).1;
    assert Placed(pos, s.buffer[f].count) == pos;
    TakeKeepsOrdered(pos, s);
    TakeKeepsExact(pos, s, arrived);
    forall k | 0 <= k < |t.buffer| ensures t.buffer[k].input == log(Placed(pos + 1, t.buffer[k].count)) {
      TakeKeepsRecords(pos, s, k);
    }
  }

  // ----- whole runs -----------------------------------------------------------

  /** The server's unbounded log: input of player p at number k. */
  type ServerLog = nat -> (nat -> Input)

  /** What happens to a client: a packet of log records arrives, or the emulator asks
      for a player's next input. */
  datatype Step =
    | Arrive(kind: Byte, player: Byte, status: Byte, lag: Byte, ks: seq<nat>, rest: seq<Byte>)
    | Poll(player: Byte)

  /** A client with the history that its state does not show: the inputs it has handed
      over, and the log positions that arrived while they were ahead of it. */
  datatype World = World(client: ClientState, used: seq<seq<Input>>, arrived: seq<set<nat>>)

  ghost predicate WorldShaped(w: World) { Shaped(w.client) && |w.used| == 4 && |w.arrived| == 4 }

  function Start(): World {
    World(ClientState(0, [0, 0, 0, 0], seq(4, i => PlayerState(0, []))), [[], [], [], []], [{}, {}, {}, {}])
  }

  /** Any records of the log, in any order, with repetitions; only a record more than
      half the counter range away may be missing from the choice. */
  ghost predicate Enabled(w: World, e: Step)
    requires WorldShaped(w)
  {
    e.player < 4 &&
    (e.Arrive? ==>
       && (e.kind == KEY_INFO || e.kind == KEY_INFO_GRATUITOUS)
       && |e.ks| <= 56 && |e.rest| == PACKET_SIZE - 5 - 9 * |e.ks|
       && forall k :: k in e.ks ==> Unambiguous(|w.used[e.player]|, k))
  }

  function Records(log: ServerLog, p: nat, ks: seq<nat>): (rs: seq<Record>)
    ensures |rs| == |ks|
  {
    seq(|ks|, i requires 0 <= i < |ks| => Record(Stamp(ks[i]), log(p)(ks[i])))
  }

  function Ahead(pos: nat, ks: seq<nat>): set<nat> {
    set k | k in ks && !Stale(Stamp(k), Stamp(pos))
  }

  ghost function Next(log: ServerLog, w: World, e: Step): (w': World)
    requires WorldShaped(w) && Enabled(w, e)
    ensures WorldShaped(w')
  {
    var p := e.player;
    match e
    case Arrive(kind, _, status, lag, ks, rest) =>
      var rs := Records(log, p, ks);
      PacketReachesPlayer(w.client, kind, p, status, lag, rs, rest);
      World(Process(w.client, KeyPacket(kind, p, status, lag, rs, rest)), w.used,
            w.arrived[p := w.arrived[p] + Ahead(|w.used[p]|, ks)])
    case Poll(_) =>
      var s := w.client.players[p];
      if Recorded(s.buffer, s.count) then
        World(w.client.(players := w.client.players[p := Take(s).1]), w.used[p := w.used[p] + [Take(s).0]], w.arrived)
      else w
  }

  /** A run, as the sequence of worlds it passes through. */
  ghost predicate Run(log: ServerLog, ws: seq<World>, es: seq<Step>) {
    && |ws| == |es| + 1
    && ws[0] == Start()
    && forall i :: 0 <= i < |es| ==> WorldShaped(ws[i]) && Enabled(ws[i], es[i]) && ws[i + 1] == Next(log, ws[i], es[i])
  }

  ghost predicate PlayerGood(log: nat -> Input, used: seq<Input>, s: PlayerState, arrived: set<nat>) {
    && used == seq(|used|, k requires k >= 0 => log(k))
    && Ordered(s) && Faithful(log, |used|, s) && Exact(|used|, s, arrived)
  }

  ghost predicate Good(log: ServerLog, w: World) {
    WorldShaped(w) && forall p :: 0 <= p < 4 ==> PlayerGood(log(p), w.used[p], w.client.players[p], w.arrived[p])
  }

  lemma {:induction false} ReceiveAllGood(log: nat -> Input, used: seq<Input>, s: PlayerState, arrived: set<nat>,
                                          ks: seq<nat>, rs: seq<Record>)
    requires PlayerGood(log, used, s, arrived)
    requires forall k :: k in ks ==> Unambiguous(|used|, k)
    requires |rs| == |ks| && forall i :: 0 <= i < |ks| ==> rs[i] == Record(Stamp(ks[i]), log(ks[i]))
    ensures PlayerGood(log, used, ReceiveAll(s, rs), arrived + Ahead(|used|, ks))
    decreases ks
  {
    if ks == [] {
      assert arrived + Ahead(|used|, ks) == arrived;
    } else {
      var k := ks[0];
      assert k in ks;
      ReceiveKeepsOrdered(s, rs[0]);
      ReceiveFaithfulIff(log, |used|, s, k);
      ReceiveKeepsExact(|used|, s, k, log(k), arrived);
      var arrived' := if Stale(Stamp(k), Stamp(|used|)) then arrived else arrived + {k};
      ReceiveAllGood(log, used, Receive(s, rs[0]), arrived', ks[1..], rs[1..]);
      assert ks == [k] + ks[1..];
      assert arrived' + Ahead(|used|, ks[1..]) == arrived + Ahead(|used|, ks);
    }
  }

  lemma NextGood(log: ServerLog, w: World, e: Step)
    requires Good(log, w) && Enabled(w, e)
    ensures Good(log, Next(log, w, e))
  {
    var p := e.player;
    var plog := log(p);
    var s := w.client.players[p];
    match e {
      case Arrive(kind, _, status, lag, ks, rest) =>
        var rs := Records(log, p, ks);
        PacketReachesPlayer(w.client, kind, p, status, lag, rs, rest);
        ReceiveAllGood(plog, w.used[p], s, w.arrived[p], ks, rs);
      case Poll(_) =>
        if Recorded(s.buffer, s.count) {
          TakeIsNext(plog, |w.used[p]|, s, w.arrived[p]);
          var u := w.used[p] + [Take(s).0];
          assert u == seq(|u|, k requires k >= 0 => plog(k));
        }
    }
  }

  /** The k-th input a client hands over for a player is log entry k, in every state of
      every run; its buffer holds exactly the entries that arrived and are not used yet. */
  lemma {:induction false} Lockstep(log: ServerLog, ws: seq<World>, es: seq<Step>, i: nat)
    requires Run(log, ws, es) && i < |ws|
    ensures Good(log, ws[i])
    decreases i
  {
    if i == 0 {
      forall p | 0 <= p < 4 ensures PlayerGood(log(p), Start().used[p], Start().client.players[p], Start().arrived[p]) {
        assert Start().used[p] == [];
      }
    } else {
      Lockstep(log, ws, es, i - 1);
      NextGood(log, ws[i - 1], es[i - 1]);
    }
  }

  /** A poll succeeds exactly when the entry it needs has arrived. */
  lemma PollSucceedsIffArrived(log: ServerLog, ws: seq<World>, es: seq<Step>, i: nat, p: nat)
    requires Run(log, ws, es) && i < |ws| && p < 4
    ensures WorldShaped(ws[i])
    ensures Recorded(ws[i].client.players[p].buffer, ws[i].client.players[p].count) <==>
            |ws[i].used[p]| in ws[i].arrived[p]
  {
    Lockstep(log, ws, es, i);
    var s, pos := ws[i].client.players[p], |ws[i].used[p]|;
    assert PlayerGood(log(p), ws[i].used[p], s, ws[i].arrived[p]);
    assert Holds(pos, s, pos) <==> pos in ws[i].arrived[p];
    if Recorded(s.buffer, s.count) {
      var j :| 0 <= j < |s.buffer| && s.buffer[j].count == s.count;
      assert Placed(pos, s.buffer[j].count) == pos;
    }
    if Holds(pos, s, pos) {
      var j :| 0 <= j < |s.buffer| && Placed(pos, s.buffer[j].count) == pos;
      ZeroDistance(s.buffer[j].count, s.count);
    }
  }

  lemma ZeroDistance(a: U32, b: U32)
    requires Distance(a, b) == 0
    ensures a == b
  {
    var q := (a - b) / WORD;
    assert a - b == q * WORD;
  }

  /** Two clients of one server never disagree: what one has used is a prefix of what
      the other has used, whatever each of them received. */
  lemma ClientsAgree(log: ServerLog, ws: seq<World>, es: seq<Step>, i: nat, ws': seq<World>, es': seq<Step>, i': nat,
                     p: nat)
    requires Run(log, ws, es) && i < |ws| && Run(log, ws', es') && i' < |ws'| && p < 4
    ensures WorldShaped(ws[i]) && WorldShaped(ws'[i'])
    ensures ws[i].used[p] <= ws'[i'].used[p] || ws'[i'].used[p] <= ws[i].used[p]
  {
    Lockstep(log, ws, es, i);
    Lockstep(log, ws', es', i');
    var a, b := ws[i].used[p], ws'[i'].used[p];
    assert PlayerGood(log(p), a, ws[i].client.players[p], ws[i].arrived[p]);
    assert PlayerGood(log(p), b, ws'[i'].client.players[p], ws'[i'].arrived[p]);
    assert forall k :: 0 <= k < |a| ==> a[k] == log(p)(k);
    assert forall k :: 0 <= k < |b| ==> b[k] == log(p)(k);
  }
}
