/**
 * Saving and loading as the program does it (src/main/savestates.c): a cursor
 * moves through a zeroed buffer while the device is written out, and through
 * the file's bytes while the device's fields are overwritten.
 */
module SaveStateFile {
  import opened Common
  import opened SaveLayout
  import opened SaveTables
  import opened SaveState

  /** One step more behind the cursor is one step less ahead of it. */
  lemma PeelStep(done: seq<Byte>, m: Slots, ops: seq<Op>, k: nat)
    requires k < |ops|
    ensures SizeAll(ops[k..]) == Size(ops[k]) + SizeAll(ops[k + 1..])
    ensures done + EncodeAll(m, ops[k..]) == (done + Encode(m, ops[k])) + EncodeAll(m, ops[k + 1..])
  {
    assert ops[k..][1..] == ops[k + 1..];
    Assoc(done, Encode(m, ops[k]), EncodeAll(m, ops[k + 1..]));
  }

  lemma NothingAfter(b: seq<Byte>)
    ensures b + [] == b
  {
  }

  /** The buffer the writer fills; everything ahead of the cursor is still zero. */
  class Writer {
    const data: array<Byte>
    var curr: nat

    ghost predicate Valid()
      reads this, data
    {
      curr <= data.Length && forall k :: curr <= k < data.Length ==> data[k] == 0
    }

    ghost function Written(): (r: seq<Byte>)
      requires curr <= data.Length
      reads this, data
    {
      data[..curr]
    }

    constructor (size: nat)
      ensures Valid() && fresh(data) && data.Length == size && curr == 0
    {
      data := new Byte[size](_ => 0);
      curr := 0;
    }

    method Put(bytes: seq<Byte>)
      requires Valid() && curr + |bytes| <= data.Length
      modifies this`curr, data
      ensures Valid() && curr == old(curr) + |bytes|
      ensures Written() == old(Written()) + bytes
    {
      var start := curr;
      var k := 0;
      while k < |bytes|
        invariant 0 <= k <= |bytes| && curr == start + k
        invariant data[..start] == old(data[..start])
        invariant data[start..start + k] == bytes[..k]
        invariant forall j :: curr <= j < data.Length ==> data[j] == 0
      {
        data[curr] := bytes[k];
        curr := curr + 1;
        k := k + 1;
      }
      assert data[..curr] == data[..start] + data[start..start + k];
    }

    method Contents() returns (file: seq<Byte>)
      requires Valid()
      ensures file == Padded(Written(), data.Length)
    {
      file := data[..];
    }

    /** A run of PUTDATA, PUTARRAY and cursor moves. */
    method PutSteps(m: Slots, ops: seq<Op>)
      requires Valid() && curr + SizeAll(ops) <= data.Length
      modifies this`curr, data
      ensures Valid() && curr == old(curr) + SizeAll(ops)
      ensures Written() == old(Written()) + EncodeAll(m, ops)
    {
      ghost var want := Written() + EncodeAll(m, ops);
      var k := 0;
      assert ops[0..] == ops;
      while k < |ops|
        invariant 0 <= k <= |ops| && Valid()
        invariant curr + SizeAll(ops[k..]) == old(curr) + SizeAll(ops)
        invariant Written() + EncodeAll(m, ops[k..]) == want
      {
        PutStep(m, ops, k, want);
        k := k + 1;
      }
      assert ops[k..] == [];
      NothingAfter(Written());
    }

    method PutStep(m: Slots, ops: seq<Op>, k: nat, ghost want: seq<Byte>)
      requires Valid() && k < |ops| && curr + SizeAll(ops[k..]) <= data.Length
      requires Written() + EncodeAll(m, ops[k..]) == want
      modifies this`curr, data
      ensures Valid() && curr + SizeAll(ops[k + 1..]) == old(curr) + SizeAll(ops[k..])
      ensures Written() + EncodeAll(m, ops[k + 1..]) == want
    {
      PeelStep(Written(), m, ops, k);
      Put(Encode(m, ops[k]));
    }
  }

  /** The bytes of a file and how far they have been read. */
  class Reader {
    const data: seq<Byte>
    var curr: nat

    constructor (data: seq<Byte>)
      ensures this.data == data && curr == 0
    {
      this.data := data;
      curr := 0;
    }

    ghost function Rest(): (r: seq<Byte>)
      requires curr <= |data|
      reads this
    {
      data[curr..]
    }

    method Take(n: nat) returns (b: seq<Byte>)
      requires curr + n <= |data|
      modifies this
      ensures curr == old(curr) + n
      ensures b == old(Rest())[..n] && Rest() == old(Rest())[n..]
    {
      b := data[curr..curr + n];
      curr := curr + n;
    }

    /** A run of GETDATA, COPYARRAY and cursor moves. */
    method GetSteps(m: Slots, ops: seq<Op>) returns (r: Slots)
      requires curr <= |data| && SizeAll(ops) <= |data| - curr
      modifies this
      ensures curr == old(curr) + SizeAll(ops)
      ensures Cursor(r, Rest()) == Run(Cursor(m, old(Rest())), ops)
    {
      ghost var want := DecodeAll(m, ops, Rest());
      r := m;
      var k := 0;
      assert ops[0..] == ops;
      while k < |ops|
        invariant 0 <= k <= |ops| && curr <= |data|
        invariant curr + SizeAll(ops[k..]) == old(curr) + SizeAll(ops)
        invariant DecodeAll(r, ops[k..], Rest()) == want
      {
        r := GetStep(r, ops, k, want);
        k := k + 1;
      }
    }

    method GetStep(m: Slots, ops: seq<Op>, k: nat, ghost want: Slots) returns (r: Slots)
      requires k < |ops| && curr <= |data| && SizeAll(ops[k..]) <= |data| - curr
      requires DecodeAll(m, ops[k..], Rest()) == want
      modifies this
      ensures curr <= |data| && curr + SizeAll(ops[k + 1..]) == old(curr) + SizeAll(ops[k..])
      ensures DecodeAll(r, ops[k + 1..], Rest()) == want
    {
      assert ops[k..][1..] == ops[k + 1..];
      var b := Take(Size(ops[k]));
      r := Decode(m, ops[k], b);
    }
  }

  /** The same bytes grouped as the cursor meets them and as `Save` nests them. */
  lemma Regroup(header: seq<Byte>, main: seq<Byte>, queue: seq<Byte>, start: seq<Byte>, paks: seq<Byte>,
                chans: seq<Byte>, rest: seq<Byte>, pad: seq<Byte>)
    ensures header + main + queue + start + paks + chans + rest + pad
         == header + (main + (queue + ((start + (paks + (chans + rest))) + pad)))
  {
    AssocFour(start, paks, chans, rest, pad);
    Assoc(header, main, queue + (start + (paks + (chans + (rest + pad)))));
    Assoc(header + main, queue, start + (paks + (chans + (rest + pad))));
    Assoc(header + main + queue, start, paks + (chans + (rest + pad)));
    Assoc(header + main + queue + start, paks, chans + (rest + pad));
    Assoc(header + main + queue + start + paks, chans, rest + pad);
    Assoc(header + main + queue + start + paks + chans, rest, pad);
  }

  /** Header, main block and event queue, as the cursor meets them. */
  function FrontBytes(u: Setup, m: Slots): (r: seq<Byte>)
    requires ValidSetup(u)
    ensures |r| == 44 + MainSize + 1028
  {
    MainAgrees(u.tlb);
    QueueAgrees(u.dynarec);
    Header(u) + EncodeAll(m, MainPuts(u.tlb)) + EncodeAll(m, QueuePuts(u.dynarec))
  }

  /** Everything up to the zeros at the end. */
  function Laid(u: Setup, st: State): (r: seq<Byte>)
    requires ValidSetup(u) && |st.channels| == 5
    ensures |r| <= 44 + MainSize + 1028 + ExtraSize
  {
    FrontBytes(u, st.slots) + StartBytes(u, st.slots) + PaksBytes(u, st.slots, 0)
    + ChannelsBytes(st.channels) + RestBytes(u, st.slots)
  }

  lemma RegroupPadded(header: seq<Byte>, main: seq<Byte>, queue: seq<Byte>, start: seq<Byte>, paks: seq<Byte>,
                      chans: seq<Byte>, rest: seq<Byte>, size: nat, total: nat)
    requires |start| + |paks| + |chans| + |rest| <= size && total == |header| + |main| + |queue| + size
    ensures Padded(header + main + queue + start + paks + chans + rest, total)
         == header + (main + (queue + Padded(start + (paks + (chans + rest)), size)))
  {
    Regroup(header, main, queue, start, paks, chans, rest, Zeros(size - |start| - |paks| - |chans| - |rest|));
  }

  lemma Grouped(u: Setup, st: State)
    requires ValidSetup(u) && |st.channels| == 5
    ensures Padded(Laid(u, st), 44 + MainSize + 1028 + ExtraSize) == Save(u, st)
  {
    MainAgrees(u.tlb);
    QueueAgrees(u.dynarec);
    RegroupPadded(Header(u), EncodeAll(st.slots, MainPuts(u.tlb)), EncodeAll(st.slots, QueuePuts(u.dynarec)),
                  StartBytes(u, st.slots), PaksBytes(u, st.slots, 0), ChannelsBytes(st.channels),
                  RestBytes(u, st.slots), ExtraSize, 44 + MainSize + 1028 + ExtraSize);
  }

  /** The emulated machine: what a save state holds, and the setup it runs in. */
  class Device {
    const setup: Setup
    var slots: Slots
    var channels: seq<Tx>

    constructor (setup: Setup, slots: Slots, channels: seq<Tx>)
      ensures this.setup == setup && this.slots == slots && this.channels == channels
    {
      this.setup := setup;
      this.slots := slots;
      this.channels := channels;
    }

    /** The loop over rumble paks. */
    method PutRumbles(w: Writer)
      requires w.Valid() && w.curr + |setup.ports| <= w.data.Length
      modifies w`curr, w.data
      ensures w.Valid() && w.curr == old(w.curr) + |setup.ports|
      ensures w.Written() == old(w.Written()) + RumblesBytes(setup, slots, 0)
    {
      ghost var want := w.Written() + RumblesBytes(setup, slots, 0);
      var i := 0;
      while i < |setup.ports|
        invariant 0 <= i <= |setup.ports| && w.Valid() && w.curr == old(w.curr) + i
        invariant w.Written() + RumblesBytes(setup, slots, i) == want
      {
        PutRumble(w, i, want);
        i := i + 1;
      }
      NothingAfter(w.Written());
    }

    method PutRumble(w: Writer, i: nat, ghost want: seq<Byte>)
      requires i < |setup.ports| && w.Valid() && w.curr < w.data.Length
      requires w.Written() + RumblesBytes(setup, slots, i) == want
      modifies w`curr, w.data
      ensures w.Valid() && w.curr == old(w.curr) + 1 && w.Written() + RumblesBytes(setup, slots, i + 1) == want
    {
      RumbleAgrees(i);
      Assoc(w.Written(), EncodeAll(slots, RumblePuts(i)), RumblesBytes(setup, slots, i + 1));
      w.PutSteps(slots, RumblePuts(i));
    }

    /** One transfer pak: a cartridge block follows whenever a cartridge is in. */
    method PutPak(w: Writer, i: nat)
      requires ValidSetup(setup) && i < |setup.ports|
      requires w.Valid() && w.curr + 136 <= w.data.Length
      modifies w`curr, w.data
      ensures w.Valid() && w.curr <= old(w.curr) + 136
      ensures w.Written() == old(w.Written()) + PakBytes(setup, slots, i)
    {
      ghost var was := w.Written();
      PakAgrees(i);
      CartAgrees(i);
      w.PutSteps(slots, PakPuts(i));
      match setup.ports[i].cart {
        case None =>
          w.Put(Zeros(FingerprintSize));
          Assoc(was, EncodeAll(slots, PakPuts(i)), Zeros(FingerprintSize));
        case Some(c) =>
          w.Put(c.fingerprint);
          w.PutSteps(slots, CartPuts(i));
          Assoc(was, EncodeAll(slots, PakPuts(i)), c.fingerprint);
          Assoc(was, EncodeAll(slots, PakPuts(i)) + c.fingerprint, EncodeAll(slots, CartPuts(i)));
          Assoc(EncodeAll(slots, PakPuts(i)), c.fingerprint, EncodeAll(slots, CartPuts(i)));
      }
    }

    method PutPaks(w: Writer)
      requires ValidSetup(setup) && w.Valid() && w.curr + 136 * |setup.ports| <= w.data.Length
      modifies w`curr, w.data
      ensures w.Valid()
      ensures w.Written() == old(w.Written()) + PaksBytes(setup, slots, 0)
    {
      ghost var done, want := w.Written(), w.Written() + PaksBytes(setup, slots, 0);
      var i := 0;
      while i < |setup.ports|
        invariant 0 <= i <= |setup.ports| && w.Valid() && w.curr <= old(w.curr) + 136 * i
        invariant done == w.Written() && done + PaksBytes(setup, slots, i) == want
      {
        Assoc(done, PakBytes(setup, slots, i), PaksBytes(setup, slots, i + 1));
        PutPak(w, i);
        done := done + PakBytes(setup, slots, i);
        i := i + 1;
      }
    }

    method PutChannels(w: Writer)
      requires w.Valid() && w.curr + |channels| <= w.data.Length
      modifies w`curr, w.data
      ensures w.Valid() && w.curr == old(w.curr) + |channels|
      ensures w.Written() == old(w.Written()) + ChannelsBytes(channels)
    {
      var i := 0;
      ghost var was := w.Written();
      while i < |channels|
        invariant 0 <= i <= |channels| && w.Valid() && w.curr == old(w.curr) + i
        invariant w.Written() == was + ChannelsBytes(channels)[..i]
      {
        w.Put([ChannelByte(channels[i])]);
        Assoc(was, ChannelsBytes(channels)[..i], [ChannelByte(channels[i])]);
        assert ChannelsBytes(channels)[..i] + [ChannelByte(channels[i])] == ChannelsBytes(channels)[..i + 1];
        i := i + 1;
      }
      assert ChannelsBytes(channels)[..i] == ChannelsBytes(channels);
    }

    method PutRest(w: Writer)
      requires ValidSetup(setup) && w.Valid() && w.curr + |RestBytes(setup, slots)| <= w.data.Length
      modifies w`curr, w.data
      ensures w.Valid()
      ensures w.Written() == old(w.Written()) + RestBytes(setup, slots)
    {
      ghost var was := w.Written();
      StatusAgrees();
      ModulesAgree(setup.modules);
      DdAgrees(setup.disk.Some?);
      LateAgrees(setup.dynarec);
      w.PutSteps(slots, StatusPuts());
      w.PutSteps(slots, ModulesPuts(setup.modules));
      ghost var mid := w.Written();
      w.Put(Little(if setup.disk.Some? then setup.disk.value else 0, 4));
      w.PutSteps(slots, DdPuts(setup.disk.Some?));
      Assoc(mid, Little(if setup.disk.Some? then setup.disk.value else 0, 4),
            EncodeAll(slots, DdPuts(setup.disk.Some?)));
      w.PutSteps(slots, LatePuts(setup.dynarec));
      ghost var a, b, c, d := EncodeAll(slots, StatusPuts()), EncodeAll(slots, ModulesPuts(setup.modules)),
                              DdBytes(setup, slots), EncodeAll(slots, LatePuts(setup.dynarec));
      Assoc(was, a, b + (c + d));
      Assoc(was + a, b, c + d);
      Assoc(was + a + b, c, d);
    }

    method PutTables(w: Writer, main: seq<Op>, queue: seq<Op>)
      requires w.Valid() && w.curr + SizeAll(main) + SizeAll(queue) <= w.data.Length
      modifies w`curr, w.data
      ensures w.Valid() && w.curr == old(w.curr) + SizeAll(main) + SizeAll(queue)
      ensures w.Written() == old(w.Written()) + EncodeAll(slots, main) + EncodeAll(slots, queue)
    {
      w.PutSteps(slots, main);
      w.PutSteps(slots, queue);
    }

    /** Header, main block, event queue. */
    method PutFront(w: Writer)
      requires ValidSetup(setup) && w.Valid() && w.curr == 0 && 44 + MainSize + 1028 <= w.data.Length
      modifies w`curr, w.data
      ensures w.Valid() && w.curr == 44 + MainSize + 1028
      ensures w.Written() == FrontBytes(setup, slots)
    {
      MainAgrees(setup.tlb);
      QueueAgrees(setup.dynarec);
      w.Put(Header(setup));
      assert w.Written() == Header(setup);
      PutTables(w, MainPuts(setup.tlb), QueuePuts(setup.dynarec));
    }

    method PutStart(w: Writer)
      requires w.Valid() && w.curr + 44 + |setup.ports| <= w.data.Length
      modifies w`curr, w.data
      ensures w.Valid() && w.curr == old(w.curr) + 44 + |setup.ports|
      ensures w.Written() == old(w.Written()) + StartBytes(setup, slots)
    {
      ExtraAgrees();
      Assoc(w.Written(), EncodeAll(slots, ExtraPuts()), RumblesBytes(setup, slots, 0));
      w.PutSteps(slots, ExtraPuts());
      PutRumbles(w);
    }

    method PutExtra(w: Writer)
      requires ValidSetup(setup) && |channels| == 5 && w.Valid() && w.curr + ExtraSize <= w.data.Length
      requires w.Written() == FrontBytes(setup, slots)
      modifies w`curr, w.data
      ensures w.Valid()
      ensures w.Written() == Laid(setup, State(slots, channels))
    {
      PutStart(w);
      PutPaks(w);
      PutChannels(w);
      PutRest(w);
    }

    /** The file that saving writes. */
    method SaveState() returns (file: seq<Byte>)
      requires ValidSetup(setup) && |channels| == 5
      ensures file == Save(setup, State(slots, channels))
    {
      var w := new Writer(44 + MainSize + 1028 + ExtraSize);
      PutFront(w);
      PutExtra(w);
      file := w.Contents();
      Grouped(setup, State(slots, channels));
    }

    /** The loop over rumble paks: a byte is read for each, used or not. */
    method GetRumbles(r: Reader)
      requires r.curr <= |r.data| && |setup.ports| <= |r.data| - r.curr
      modifies r, this`slots
      ensures r.curr <= |r.data|
      ensures Cursor(slots, r.Rest()) == LoadRumbles(setup, Cursor(old(slots), old(r.Rest())), 0)
    {
      ghost var want := LoadRumbles(setup, Cursor(slots, r.Rest()), 0);
      var i := 0;
      while i < |setup.ports|
        invariant 0 <= i <= |setup.ports| && r.curr <= |r.data| && |setup.ports| - i <= |r.data| - r.curr
        invariant LoadRumbles(setup, Cursor(slots, r.Rest()), i) == want
      {
        GetRumble(r, i, want);
        i := i + 1;
      }
    }

    method GetRumble(r: Reader, i: nat, ghost want: Cursor)
      requires i < |setup.ports| && r.curr <= |r.data| && |setup.ports| - i <= |r.data| - r.curr
      requires LoadRumbles(setup, Cursor(slots, r.Rest()), i) == want
      modifies r, this`slots
      ensures r.curr == old(r.curr) + 1 && LoadRumbles(setup, Cursor(slots, r.Rest()), i + 1) == want
    {
      RumbleSize(i, RumbleUsable(setup, i));
      slots := r.GetSteps(slots, RumbleGets(i, RumbleUsable(setup, i)));
    }

    method GetPak(r: Reader, i: nat)
      requires i < |setup.ports| && r.curr <= |r.data| && 136 <= |r.data| - r.curr
      modifies r, this`slots
      ensures r.curr <= |r.data| && r.curr <= old(r.curr) + 136
      ensures Cursor(slots, r.Rest()) == LoadPak(setup, Cursor(old(slots), old(r.Rest())), i)
    {
      var usable := PakUsable(setup, i);
      PakGetsSize(i, usable);
      slots := r.GetSteps(slots, PakGets(i, usable));
      var fingerprint := r.Take(FingerprintSize);
      var cart := if usable then setup.ports[i].cart else None;
      var known := fingerprint[0] != 0 && cart.Some? && cart.value.fingerprint == fingerprint;
      CartGetsSize(i, known);
      if fingerprint[0] != 0 {
        slots := r.GetSteps(slots, CartGets(i, known));
      }
      if cart.Some? && !known {
        slots := PowerOnCart(slots, i, cart.value);
      }
    }

    method GetNextPak(r: Reader, i: nat, ghost want: Cursor)
      requires i < |setup.ports| && r.curr <= |r.data| && 136 * (|setup.ports| - i) <= |r.data| - r.curr
      requires LoadPaks(setup, Cursor(slots, r.Rest()), i) == want
      modifies r, this`slots
      ensures r.curr <= |r.data| && 136 * (|setup.ports| - i - 1) <= |r.data| - r.curr
      ensures LoadPaks(setup, Cursor(slots, r.Rest()), i + 1) == want
    {
      GetPak(r, i);
    }

    method GetPaks(r: Reader)
      requires r.curr <= |r.data| && 136 * |setup.ports| <= |r.data| - r.curr
      modifies r, this`slots
      ensures r.curr <= |r.data|
      ensures Cursor(slots, r.Rest()) == LoadPaks(setup, Cursor(old(slots), old(r.Rest())), 0)
    {
      ghost var want := LoadPaks(setup, Cursor(slots, r.Rest()), 0);
      var i := 0;
      while i < |setup.ports|
        invariant 0 <= i <= |setup.ports| && r.curr <= |r.data| && 136 * (|setup.ports| - i) <= |r.data| - r.curr
        invariant LoadPaks(setup, Cursor(slots, r.Rest()), i) == want
      {
        GetNextPak(r, i, want);
        i := i + 1;
      }
    }

    method GetChannels(r: Reader, n: nat)
      requires r.curr <= |r.data| && n <= |r.data| - r.curr
      modifies r, this`channels
      ensures r.curr == old(r.curr) + n
      ensures channels == LoadChannels(old(r.Rest())[..n]) && r.Rest() == old(r.Rest())[n..]
    {
      var b := r.Take(n);
      channels := [];
      var i := 0;
      while i < n
        invariant 0 <= i <= n && channels == LoadChannels(b)[..i] && r.curr == old(r.curr) + n
      {
        channels := channels + [LoadChannel(b[i])];
        i := i + 1;
      }
    }

    /** The drive's block, read or skipped. */
    method GetDd(r: Reader)
      requires r.curr <= |r.data| && 4 + DdSize <= |r.data| - r.curr
      modifies r, this`slots
      ensures r.curr == old(r.curr) + 4 + DdSize
      ensures Cursor(slots, r.Rest()) == LoadDd(setup, Cursor(old(slots), old(r.Rest())))
    {
      var id := r.Take(4);
      var known := setup.disk == Some(Number(id));
      DdGetsSize(known);
      slots := r.GetSteps(slots, DdGets(known));
    }

    method GetRest(r: Reader, version: nat)
      requires setup.modules == 8 && version >= V1_3
      requires r.curr <= |r.data| && 6 + 280 + 4 + DdSize + 196 <= |r.data| - r.curr
      modifies r, this`slots
      ensures slots == LoadRest(setup, version, Cursor(old(slots), old(r.Rest()))).slots
    {
      StatusSizes();
      ModulesSizes(setup.modules);
      LateSizes(version, setup.dynarec);
      slots := r.GetSteps(slots, StatusGets());
      slots := r.GetSteps(slots, ModulesGets(setup.modules));
      if version >= V1_4 { GetDd(r); }
      if version < V1_7 {
        slots := ClearDma(slots);
      }
      slots := r.GetSteps(slots, LateGets(version, setup.dynarec));
    }

    /** Main block, defaults, event queue. */
    method GetFront(r: Reader)
      requires setup.tlb == 32 && r.curr <= |r.data| && MainSize + 1028 <= |r.data| - r.curr
      modifies r, this`slots
      ensures r.curr == old(r.curr) + MainSize + 1028
      ensures Cursor(slots, r.Rest()) == LoadFront(setup, old(slots), old(r.Rest()))
    {
      MainSizes(setup.tlb);
      QueueSizes(setup.dynarec);
      slots := r.GetSteps(slots, MainGets(setup.tlb));
      slots := Defaults(setup, slots);
      slots := r.GetSteps(slots, QueueGets(setup.dynarec));
    }

    method GetPorts(r: Reader)
      requires |setup.ports| == 4 && r.curr <= |r.data| && 48 + 544 <= |r.data| - r.curr
      modifies r, this`slots
      ensures r.curr <= |r.data|
      ensures Cursor(slots, r.Rest()) == LoadPorts(setup, Cursor(old(slots), old(r.Rest())))
    {
      ExtraSizes();
      slots := r.GetSteps(slots, ExtraGets());
      GetRumbles(r);
      GetPaks(r);
    }

    method GetExtra(r: Reader, version: nat)
      requires |setup.ports| == 4 && setup.modules == 8 && version >= V1_3
      requires r.curr <= |r.data| && ExtraSize <= |r.data| - r.curr
      modifies r, this`slots, this`channels
      ensures State(slots, channels) == LoadExtra(setup, version, old(slots), old(r.Rest()))
    {
      GetPorts(r);
      GetChannels(r, 5);
      GetRest(r, version);
    }

    /** Loading: a refused file leaves the device as it was. */
    method LoadState(file: seq<Byte>) returns (verdict: Verdict)
      requires |setup.md5| == 32 && |setup.ports| == 4 && setup.tlb == 32 && setup.modules == 8
      modifies this`slots, this`channels
      ensures match Load(setup, old(slots), file)
              case Refused => verdict == Rejected && slots == old(slots) && channels == old(channels)
              case OldFormat => verdict == TooOld && slots == old(slots) && channels == old(channels)
              case Loaded(state) => verdict == Accepted && State(slots, channels) == state
    {
      if |file| < 44 || file[..8] != Magic {
        return Rejected;
      }
      var version := FromBig4(file[8..12]);
      if version / 0x10000 != Latest / 0x10000 || file[12..44] != setup.md5 {
        return Rejected;
      }
      if version < V1_3 {
        return TooOld;
      }
      if |file| < 44 + MainSize + 1028 + ExtraSize {
        return Rejected;
      }
      var r := new Reader(file[44..]);
      assert r.Rest() == file[44..];
      GetFront(r);
      GetExtra(r, version);
      verdict := Accepted;
    }
  }

  datatype Verdict = Rejected | TooOld | Accepted
}
