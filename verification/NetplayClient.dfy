/** The code of src/main/netplay.c that changes the per-player lists, proved against
    the rules of module Netplay. */
module NetplayClient {
  import opened Common
  import opened Netplay

  /** struct netplay_event */
  class Event {
    const buttons: U32
    const plugin: Byte
    const count: U32
    var next: Event?
    ghost const owner: PlayerInput

    constructor (r: Record, next: Event?, ghost owner: PlayerInput)
      ensures AsRecord() == r && this.next == next && this.owner == owner
    {
      this.owner := owner;
      this.buttons, this.plugin, this.count := r.input.buttons, r.input.plugin, r.count;
      this.next := next;
    }

    function AsRecord(): Record { Record(count, Input(buttons, plugin)) }
  }

  ghost function Contents(es: seq<Event>): (b: seq<Record>)
    ensures |b| == |es| && forall i :: 0 <= i < |es| ==> b[i] == es[i].AsRecord()
  {
    seq(|es|, i requires 0 <= i < |es| => es[i].AsRecord())
  }

  lemma ContentsWithout(es: seq<Event>, k: nat)
    requires k < |es|
    ensures Contents(Without(es, k)) == Without(Contents(es), k)
  {
  }

  lemma TakeIs(s: PlayerState, k: nat)
    requires Recorded(s.buffer, s.count) && k == Find(s.buffer, s.count)
    ensures Take(s) == (s.buffer[k].input, PlayerState((s.count + 1) % WORD, Without(s.buffer, k)))
  {
  }

  lemma NextByte(i: nat)
    ensures (i % 256 + 1) % 256 == (i + 1) % 256
  {
    var q, r := i / 256, i % 256;
    assert i + 1 == 256 * q + (r + 1);
  }

  /** The netplay part of struct controller_input_compat. */
  class PlayerInput {
    var event_first: Event?
    var netplay_count: U32
    ghost var spine: seq<Event>

    ghost predicate Valid()
      reads this, spine
    {
      && (forall i, j :: 0 <= i < j < |spine| ==> spine[i] != spine[j])
      && (forall n :: n in spine ==> n.owner == this)
      && event_first == At(0)
      && (forall i {:trigger spine[i].next} :: 0 <= i < |spine| ==> spine[i].next == At(i + 1))
    }

    ghost function At(i: nat): Event?
      reads this
    {
      if i < |spine| then spine[i] else null
    }

    ghost function View(): PlayerState
      reads this
    {
      PlayerState(netplay_count, Contents(spine))
    }

    constructor ()
      ensures Valid() && View() == PlayerState(0, []) && spine == []
    {
      event_first, netplay_count, spine := null, 0, [];
    }

    /** A player that nothing touched is as it was. */
    twostate lemma Kept()
      requires old(allocated(this)) && (forall n :: n in spine ==> old(allocated(n)))
      requires old(Valid()) && unchanged(this) && forall n :: n in spine ==> unchanged(n)
      ensures Valid()
    {
      forall i | 0 <= i < |spine| ensures spine[i].next == At(i + 1) {
        assert spine[i] in spine && old(spine[i].next) == At(i + 1);
      }
    }

    /** buffer_size: the counter is a uint8_t. */
    method BufferSize() returns (counter: Byte)
      requires Valid()
      ensures counter == |View().buffer| % 256
    {
      counter := 0;
      var current := event_first;
      ghost var i := 0;
      while current != null
        invariant i <= |spine| && current == At(i)
        invariant counter == i % 256
        decreases |spine| - i
      {
        current := current.next;
        NextByte(i);
        counter := (counter + 1) % 256;
        i := i + 1;
      }
    }

    /** check_valid */
    method CheckValid(count: U32) returns (found: bool)
      requires Valid()
      ensures found == Recorded(View().buffer, count)
    {
      var current := event_first;
      ghost var i := 0;
      while current != null
        invariant i <= |spine| && current == At(i)
        invariant forall j :: 0 <= j < i ==> spine[j].count != count
        decreases |spine| - i
      {
        if current.count == count {
          assert View().buffer[i].count == count;
          return true;
        }
        current := current.next;
        i := i + 1;
      }
      return false;
    }

    /** The body of the record loop of netplay_process. */
    method Record(r: Record)
      requires Valid()
      modifies this
      ensures Valid() && View() == Receive(old(View()), r)
      ensures forall n :: n in spine ==> n in old(spine) || fresh(n)
    {
      var known := CheckValid(r.count);
      if Stale(r.count, netplay_count) || known { return; }
      var new_event := new Event(r, event_first, this);
      event_first := new_event;
      spine := [new_event] + spine;
      assert View().buffer == [r] + old(View().buffer);
    }

    /** netplay_delete_event: walk to the node before `current`, if there is one, and
        unlink; then move the list head if it was `current`. */
    method DeleteEvent(current: Event, ghost k: nat)
      requires Valid() && k < |spine| && spine[k] == current
      modifies this, spine
      ensures Valid() && spine == Without(old(spine), k)
      ensures netplay_count == old(netplay_count)
    {
      var find := FindBefore(current, k);
      if find != null {
        find.next := current.next;
      }
      assert forall j {:trigger spine[j].next} :: 0 <= j < |spine| ==>
               spine[j].next == if j + 1 == k then At(k + 1) else At(j + 1);
      if current == event_first {
        event_first := event_first.next;
      }
      Shorten(k);
    }

    /** The walk of netplay_delete_event: the node before `current`, or null if it is the first. */
    method FindBefore(current: Event, ghost k: nat) returns (find: Event?)
      requires Valid() && k < |spine| && spine[k] == current
      ensures if k == 0 then find == null else find == spine[k - 1]
    {
      find := event_first;
      ghost var i := 0;
      while find != null && find.next != current
        invariant i <= |spine| && find == At(i)
        invariant i < k || k == 0
        decreases |spine| - i
      {
        find := find.next;
        i := i + 1;
      }
      assert find != null ==> At(i + 1) == spine[k];
    }

    /** A list whose node `k` has been bypassed is the list without it. */
    ghost method Shorten(k: nat)
      requires k < |spine| && (forall i, j :: 0 <= i < j < |spine| ==> spine[i] != spine[j])
      requires forall n :: n in spine ==> n.owner == this
      requires event_first == if k == 0 then At(1) else At(0)
      requires forall j {:trigger spine[j].next} :: 0 <= j < |spine| ==>
                 spine[j].next == if j + 1 == k then At(k + 1) else At(j + 1)
      modifies this`spine
      ensures Valid() && spine == Without(old(spine), k)
    {
      ghost var was := spine;
      spine := Without(spine, k);
      assert forall j :: 0 <= j < |spine| ==> spine[j] == was[if j < k then j else j + 1];
    }

    /** The search of netplay_get_input: it has no test for the end of the list, and
        needs none once the event is known to be there. */
    method FindDue() returns (current: Event, ghost k: nat)
      requires Valid() && Recorded(View().buffer, netplay_count)
      ensures k == Find(View().buffer, netplay_count) && k < |spine| && spine[k] == current
    {
      k := Find(View().buffer, netplay_count);
      var node := event_first;
      ghost var i := 0;
      while node.count != netplay_count
        invariant i <= k && node == At(i)
        decreases k - i
      {
        node := node.next;
        i := i + 1;
      }
      assert View().buffer[i] == node.AsRecord();
      current := node;
    }

    /** The success branch of netplay_get_input. */
    method TakeInput() returns (input: Input)
      requires Valid() && Recorded(View().buffer, netplay_count)
      modifies this, spine
      ensures Valid() && input == Take(old(View())).0 && View() == Take(old(View())).1
      ensures forall n :: n in spine ==> n in old(spine)
    {
      var current; ghost var k;
      current, k := FindDue();
      input := Input(current.buttons, current.plugin);
      TakeIs(View(), k);
      Consume(current, k);
    }

    /** Delete the event and count up. */
    method Consume(current: Event, ghost k: nat)
      requires Valid() && k < |spine| && spine[k] == current
      modifies this, spine
      ensures Valid() && View() == PlayerState((old(netplay_count) + 1) % WORD, Without(old(View()).buffer, k))
      ensures forall n :: n in spine ==> n in old(spine)
    {
      ContentsWithout(spine, k);
      ghost var left := Without(View().buffer, k);
      DeleteEvent(current, k);
      assert Contents(spine) == left;
      netplay_count := (netplay_count + 1) % WORD;
    }
  }

  /** The file's statics: one list per player, the status byte and the lag table. */
  class Client {
    const players: seq<PlayerInput>
    var status: Byte
    var lag: seq<Byte>
    var channel_open: bool

    ghost var repr: set<object>

    ghost predicate Valid()
      reads this, players, repr
    {
      && |players| == 4 && |lag| == 4
      && (forall p, n :: p in players && n in p.spine ==> n in repr)
      && (forall p :: p in players ==> p.Valid())
      && (forall i, j :: 0 <= i < j < 4 ==> players[i] != players[j])
    }

    ghost function View(): (c: ClientState)
      requires |players| == 4 && |lag| == 4
      reads this, players
      ensures Shaped(c) && c.status == status && c.lag == lag
      ensures forall i :: 0 <= i < 4 ==> c.players[i] == players[i].View()
    {
      ClientState(status, lag, seq(4, i requires 0 <= i < 4 reads this, players => players[i].View()))
    }

    constructor ()
      ensures Valid() && View() == Start().client && channel_open
    {
      var ps := NewPlayers();
      players := ps;
      status, lag, channel_open, repr := 0, [0, 0, 0, 0], true, {};
      new;
      var start := Start().client;
      assert forall i :: 0 <= i < 4 ==> players[i].View() == start.players[i];
    }

    /** One turn of the loop of netplay_process. */
    method ProcessPacket(data: Packet)
      requires Valid() && WellFormed(data)
      modifies this`status, this`lag, this`repr, players
      ensures Valid() && View() == Process(old(View()), data)
      ensures fresh(repr - old(repr))
    {
      if !IsKeyInfo(data) { return; }
      var player: nat := data[1];
      if data[0] == KEY_INFO { lag := lag[player := data[3]]; }
      if data[2] != status { status := data[2]; }
      var p := players[player];
      ReadAll(p, data);
      SameButOne(View().players, old(View()).players, player);
    }

    /** The record loop of netplay_process: `curr` walks the packet nine bytes a record. */
    method ReadAll(p: PlayerInput, data: Packet)
      requires Valid() && WellFormed(data) && IsKeyInfo(data) && p in players
      modifies p, this`repr
      ensures Valid() && p.View() == ReceiveAll(old(p.View()), ReadRecords(data, 5, data[4]))
      ensures fresh(repr - old(repr))
    {
      ghost var want := ReceiveAll(p.View(), ReadRecords(data, 5, data[4]));
      var curr: nat := 5;
      var i: nat := 0;
      while i < data[4]
        invariant i <= data[4] && curr == 5 + 9 * i
        invariant Valid() && fresh(repr - old(repr))
        invariant ReceiveAll(p.View(), ReadRecords(data, curr, data[4] - i)) == want
      {
        ReadOne(p, ReadRecord(data[curr..curr + 9]));
        curr := curr + 9;
        i := i + 1;
      }
    }

    method ReadOne(p: PlayerInput, record: Record)
      requires Valid() && p in players
      modifies p, this`repr
      ensures Valid() && p.View() == Receive(old(p.View()), record)
      ensures fresh(repr - old(repr))
    {
      p.Record(record);
      repr := repr + set n | n in p.spine;
      forall q | q in players && q != p ensures q.Valid() { q.Kept(); }
    }

    /** netplay_process: drain everything the socket has. */
    method ProcessPackets(ps: seq<Packet>)
      requires Valid() && AllFormed(ps)
      modifies this`status, this`lag, this`repr, players
      ensures Valid() && View() == ProcessAll(old(View()), ps)
      ensures fresh(repr - old(repr))
    {
      var i := 0;
      while i < |ps|
        invariant i <= |ps| && Valid()
        invariant ProcessAll(View(), ps[i..]) == ProcessAll(old(View()), ps)
        invariant fresh(repr - old(repr))
      {
        assert ps[i..][1..] == ps[i + 1..];
        ProcessPacket(ps[i]);
        i := i + 1;
      }
    }

    /** netplay_ensure_valid. The request thread is a parameter: `batches` are the packets
        that each further call of netplay_process finds, and `timedOut` says that the thread
        gave up before it saw the event. It also gives up when no more packets come. */
    method EnsureValid(control_id: nat, batches: seq<seq<Packet>>, timedOut: bool)
      returns (success: bool, ghost n: nat)
      requires Valid() && control_id < 4 && AllBatchesFormed(batches)
      modifies this, players
      ensures Valid() && n <= |batches| && View() == After(old(View()), batches, n)
      ensures Waited(old(View()), old(channel_open), control_id, batches, timedOut, n, success)
      ensures Due(old(View()), control_id) ==> success && n == 0
      ensures success ==> Due(View(), control_id)
      ensures channel_open == (old(channel_open) && success)
      ensures fresh(repr - old(repr))
    {
      n := 0;
      var p := players[control_id];
      assert batches[..0] == [];
      success := p.CheckValid(p.netplay_count);
      if success || !channel_open { return; }
      success, n := Await(control_id, batches);
      success := success && !timedOut;
      if !success { channel_open := false; }
    }

    /** Its loop. */
    method Await(control_id: nat, batches: seq<seq<Packet>>) returns (found: bool, ghost n: nat)
      requires Valid() && control_id < 4 && AllBatchesFormed(batches) && !Due(View(), control_id)
      modifies this`status, this`lag, this`repr, players
      ensures Valid() && n <= |batches| && View() == After(old(View()), batches, n)
      ensures NotBefore(old(View()), control_id, batches, n)
      ensures found == Due(View(), control_id) && (found || n == |batches|)
      ensures fresh(repr - old(repr))
    {
      ghost var start := View();
      var i := 0;
      found := false;
      assert batches[..0] == [];
      while !found && i < |batches|
        invariant i <= |batches| && Valid()
        invariant View() == After(start, batches, i)
        invariant NotBefore(start, control_id, batches, i)
        invariant found == Due(View(), control_id)
        invariant fresh(repr - old(repr))
      {
        NotBeforeNext(start, control_id, batches, i);
        AfterOneMore(start, batches, i);
        found := ProcessAndCheck(control_id, batches[i]);
        i := i + 1;
      }
      n := i;
    }

    method ProcessAndCheck(control_id: nat, batch: seq<Packet>) returns (found: bool)
      requires Valid() && control_id < 4 && AllFormed(batch)
      modifies this`status, this`lag, this`repr, players
      ensures Valid() && View() == ProcessAll(old(View()), batch) && found == Due(View(), control_id)
      ensures fresh(repr - old(repr))
    {
      ProcessPackets(batch);
      var p := players[control_id];
      found := p.CheckValid(p.netplay_count);
    }

    /** netplay_get_input: either the due input of the player, taken after the pending packets
        and those waited for, or nothing and a stop of the emulator. */
    method GetInput(control_id: nat, pending: seq<Packet>, batches: seq<seq<Packet>>, timedOut: bool)
      returns (keys: U32, plugin: Byte, stopped: bool, ghost n: nat)
      requires Valid() && control_id < 4 && AllFormed(pending) && AllBatchesFormed(batches)
      modifies this, players, repr
      ensures Valid() && n <= |batches|
      ensures Waited(ProcessAll(old(View()), pending), old(channel_open), control_id, batches, timedOut, n, !stopped)
      ensures Due(ProcessAll(old(View()), pending), control_id) ==> !stopped && n == 0
      ensures channel_open == (old(channel_open) && !stopped)
      ensures var mid := After(ProcessAll(old(View()), pending), batches, n);
              var s := mid.players[control_id];
              if stopped then View() == mid && keys == 0
              else Due(mid, control_id) && Input(keys, plugin) == Take(s).0 &&
                   View() == mid.(players := mid.players[control_id := Take(s).1])
    {
      ProcessPackets(pending);
      var success;
      success, n := EnsureValid(control_id, batches, timedOut);
      stopped, keys, plugin := !success, 0, 0;
      if success {
        assert forall n :: n in players[control_id].spine ==> n in repr;
        var input := TakeFor(control_id);
        keys, plugin := input.buttons, input.plugin;
      }
    }

    method TakeFor(control_id: nat) returns (input: Input)
      requires Valid() && control_id < 4
      requires Recorded(View().players[control_id].buffer, View().players[control_id].count)
      modifies players[control_id], players[control_id].spine
      ensures Valid() && input == Take(old(View()).players[control_id]).0
      ensures var ps := old(View()).players;
              View() == old(View()).(players := ps[control_id := Take(ps[control_id]).1])
    {
      var p := players[control_id];
      input := p.TakeInput();
      forall q | q in players && q != p ensures q.Valid() && q.View() == old(q.View()) { q.Kept(); }
      assert forall n :: n in p.spine ==> n in repr;
      SameButOne(View().players, old(View()).players, control_id);
    }
  }

  lemma AfterOneMore(c: ClientState, bs: seq<seq<Packet>>, i: nat)
    requires Shaped(c) && AllBatchesFormed(bs) && i < |bs|
    ensures After(c, bs, i + 1) == ProcessAll(After(c, bs, i), bs[i])
  {
    assert bs[..i + 1][..i] == bs[..i];
    ProcessAllAppend(c, Joined(bs[..i]), bs[i]);
  }

  lemma SameButOne<T>(a: seq<T>, b: seq<T>, k: nat)
    requires k < |a| == |b| && forall i :: 0 <= i < |a| && i != k ==> a[i] == b[i]
    ensures a == b[k := a[k]]
  {
  }

  method NewPlayers() returns (players: seq<PlayerInput>)
    ensures |players| == 4 && forall i, j :: 0 <= i < j < 4 ==> players[i] != players[j]
    ensures forall p :: p in players ==> p.Valid() && p.View() == PlayerState(0, []) && p.spine == []
  {
    players := [];
    for k := 0 to 4
      invariant |players| == k && forall i, j :: 0 <= i < j < k ==> players[i] != players[j]
      invariant forall p :: p in players ==> p.Valid() && p.View() == PlayerState(0, []) && p.spine == []
    {
      var p := new PlayerInput();
      players := players + [p];
    }
  }

  lemma {:induction false} ProcessAllAppend(c: ClientState, ps: seq<Packet>, qs: seq<Packet>)
    requires Shaped(c) && AllFormed(ps) && AllFormed(qs)
    ensures AllFormed(ps + qs)
    ensures ProcessAll(c, ps + qs) == ProcessAll(ProcessAll(c, ps), qs)
    decreases |ps|
  {
    if ps == [] {
      assert ps + qs == qs;
    } else {
      ProcessAllAppend(Process(c, ps[0]), ps[1..], qs);
      assert (ps + qs)[1..] == ps[1..] + qs;
    }
  }
}
