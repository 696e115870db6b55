/**
 * What savestates_load_m64p makes of a file of any version from 1.3 on, where the later parts
 * may be missing, and with that the round trip of a file just saved (src/main/savestates.c).
 */
module SaveVersions {
  import opened Common
  import opened SaveLayout
  import opened SaveTables
  import opened SaveState
  import opened SaveLaws

  // ------------------------------------------------------ files of older versions

  /** The later parts that a version knows. */
  function LatePutsAt(version: nat, dynarec: bool): (r: seq<Op>) {
    (if version >= V1_5 then JalPuts(dynarec) else [])
    + (if version >= V1_7 then DmaPuts() else [])
    + (if version >= V1_8 then FlashPuts() else [])
    + (if version >= Latest then LatchPuts() else [])
  }

  function RestBytesAt(u: Setup, version: nat, m: Slots): (r: seq<Byte>)
    requires ValidSetup(u)
    ensures |r| <= 6 + 280 + 4 + DdSize + 196
  {
    StatusAgrees();
    ModulesAgree(u.modules);
    LateAgreesAt(version, u.dynarec);
    EncodeAll(m, StatusPuts()) + (EncodeAll(m, ModulesPuts(u.modules))
    + ((if version >= V1_4 then DdBytes(u, m) else []) + EncodeAll(m, LatePutsAt(version, u.dynarec))))
  }

  /** An extra block that ends with the given bytes. */
  function ExtraBlock(u: Setup, st: State, rest: seq<Byte>): (r: seq<Byte>)
    requires ValidSetup(u) && |st.channels| == 5 && |rest| <= 6 + 280 + 4 + DdSize + 196
    ensures |r| == ExtraSize
  {
    Padded(StartBytes(u, st.slots) + (PaksBytes(u, st.slots, 0) + (ChannelsBytes(st.channels) + rest)), ExtraSize)
  }

  function ExtraBytesAt(u: Setup, version: nat, st: State): (r: seq<Byte>)
    requires ValidSetup(u) && |st.channels| == 5
    ensures |r| == ExtraSize
  {
    ExtraBlock(u, st, RestBytesAt(u, version, st.slots))
  }

  /** A file as a release of that version wrote it: up to the parts it knew, then zeros. */
  function FileAt(u: Setup, version: nat, st: State): (r: seq<Byte>)
    requires ValidSetup(u) && |st.channels| == 5
  {
    Magic + Big4(version) + u.md5 + BodyAt(u, version, st)
  }

  function BodyAt(u: Setup, version: nat, st: State): (r: seq<Byte>)
    requires ValidSetup(u) && |st.channels| == 5
    ensures |r| == MainSize + 1028 + ExtraSize
  {
    MainAgrees(u.tlb);
    QueueAgrees(u.dynarec);
    EncodeAll(st.slots, MainPuts(u.tlb)) + (EncodeAll(st.slots, QueuePuts(u.dynarec)) + ExtraBytesAt(u, version, st))
  }

  /** Files of the latest version are what savestates_save_m64p writes. */
  lemma LatestIsSave(u: Setup, st: State)
    requires ValidSetup(u) && |st.channels| == 5
    ensures FileAt(u, Latest, st) == Save(u, st)
  {
    assert LatePutsAt(Latest, u.dynarec) == LatePuts(u.dynarec);
    assert RestBytesAt(u, Latest, st.slots) == RestBytes(u, st.slots);
  }

  lemma Choose(c: bool, p: seq<Op>, g: seq<Op>, n: nat)
    requires MatchAll(p, g) && SizeAll(p) == n
    ensures var p', g' := if c then p else [], if c then g else [];
            MatchAll(p', g') && SizeAll(p') <= n
  {
  }

  lemma LateAgreesAt(version: nat, dynarec: bool)
    ensures MatchAll(LatePutsAt(version, dynarec), LateGets(version, dynarec))
    ensures SizeAll(LatePutsAt(version, dynarec)) <= 196
  {
    JalAgrees(dynarec);
    LateParts();
    Choose(version >= V1_5, JalPuts(dynarec), JalGets(dynarec), 4);
    Choose(version >= V1_7, DmaPuts(), DmaGets(), 32);
    Choose(version >= V1_8, FlashPuts(), FlashGets(), 144);
    Choose(version >= Latest, LatchPuts(), LatchGets(), 16);
    AppendFour(if version >= V1_5 then JalPuts(dynarec) else [], if version >= V1_5 then JalGets(dynarec) else [],
               if version >= V1_7 then DmaPuts() else [], if version >= V1_7 then DmaGets() else [],
               if version >= V1_8 then FlashPuts() else [], if version >= V1_8 then FlashGets() else [],
               if version >= Latest then LatchPuts() else [], if version >= Latest then LatchGets() else []);
  }

  lemma JalAgrees(dynarec: bool)
    ensures MatchAll(JalPuts(dynarec), JalGets(dynarec)) && SizeAll(JalPuts(dynarec)) == 4
  {
    SizeByOffsets(JalPuts(dynarec), [0, 4]);
  }

  lemma LateParts()
    ensures MatchAll(DmaPuts(), DmaGets()) && SizeAll(DmaPuts()) == 32
    ensures MatchAll(FlashPuts(), FlashGets()) && SizeAll(FlashPuts()) == 144
    ensures MatchAll(LatchPuts(), LatchGets()) && SizeAll(LatchPuts()) == 16
  {
    SizeByOffsets(DmaPuts(), [0, 32]);
    SizeByOffsets(FlashPuts(), [0, 128, 136, 140, 144]);
    SizeByOffsets(LatchPuts(), [0, 16]);
  }

  lemma AppendFour(a: seq<Op>, a': seq<Op>, b: seq<Op>, b': seq<Op>, c: seq<Op>, c': seq<Op>, d: seq<Op>, d': seq<Op>)
    requires MatchAll(a, a') && MatchAll(b, b') && MatchAll(c, c') && MatchAll(d, d')
    ensures MatchAll(a + b + c + d, a' + b' + c' + d')
    ensures SizeAll(a + b + c + d) == SizeAll(a) + SizeAll(b) + SizeAll(c) + SizeAll(d)
  {
    AppendAll(a, a', b, b', c, c');
    MatchAppend(a + b + c, a' + b' + c', d, d');
    SizeOfAppend(a + b + c, d);
  }

  // ------------------------------------------------------ which slots are in which part

  /** The slots that versions after 1.4 added. */
  predicate Late(s: Slot) { s.StopAfterJal? || s.SpDma? || s.Flash? || s.Cp0Latch? || s.Cp2Latch? }

  predicate EarlyOp(op: Op) {
    match op
    case Fields(_, slots) => forall k :: 0 <= k < |slots| ==> !Late(slots[k])
    case Block(_, slot, _) => !Late(slot)
    case Wide(slot) => !Late(slot)
    case Fill(_) => true
    case Skip(_) => true
  }

  predicate Early(ops: seq<Op>) { forall k :: 0 <= k < |ops| ==> EarlyOp(ops[k]) }

  ghost predicate NoneLate(ss: set<Slot>) { forall s :: s in ss ==> !Late(s) }

  lemma {:induction false} EarlySlots(ops: seq<Op>)
    requires Early(ops)
    ensures NoneLate(SlotsAll(ops))
  {
    if ops != [] {
      assert EarlyOp(ops[0]);
      EarlySlots(ops[1..]);
    }
  }

  lemma EarlyRegister()
    ensures Early(RegisterPuts())
  {
    var ops := RegisterPuts();
    forall k | 0 <= k < |ops| ensures EarlyOp(ops[k]) {
    }
  }

  lemma EarlyPi()
    ensures EarlyOp(PiSpPuts()[0])
  {
  }

  lemma EarlySp()
    ensures Early(PiSpPuts()[1..])
  {
    var ops := PiSpPuts()[1..];
    forall k | 0 <= k < |ops| ensures EarlyOp(ops[k]) {
    }
  }

  lemma EarlyPiSp()
    ensures Early(PiSpPuts())
  {
    EarlyPi();
    EarlySp();
    EarlyRest(PiSpPuts());
  }

  lemma EarlyRest(ops: seq<Op>)
    requires ops != [] && EarlyOp(ops[0]) && Early(ops[1..])
    ensures Early(ops)
  {
    EarlyAppend([ops[0]], ops[1..]);
    assert [ops[0]] + ops[1..] == ops;
  }

  lemma EarlySi()
    ensures EarlyOp(InterfacePuts()[0])
  {
  }

  lemma EarlyVi()
    ensures EarlyOp(InterfacePuts()[1])
  {
  }

  lemma EarlyRi()
    ensures EarlyOp(InterfacePuts()[2])
  {
  }

  lemma EarlyAi()
    ensures EarlyOp(InterfacePuts()[3])
  {
  }

  lemma EarlyInterface()
    ensures Early(InterfacePuts())
  {
    EarlySi();
    EarlyVi();
    EarlyRi();
    EarlyAi();
  }

  lemma EarlyDp()
    ensures Early(DpPuts())
  {
    var ops := DpPuts();
    forall k | 0 <= k < |ops| ensures EarlyOp(ops[k]) {
    }
  }

  lemma EarlyMemory()
    ensures Early(MemoryPuts())
  {
    var ops := MemoryPuts();
    forall k | 0 <= k < |ops| ensures EarlyOp(ops[k]) {
    }
  }

  lemma EarlyCpu()
    ensures Early(CpuPuts())
  {
    var ops := CpuPuts();
    forall k | 0 <= k < |ops| ensures EarlyOp(ops[k]) {
    }
  }

  lemma EarlyEnd()
    ensures Early(EndPuts())
  {
    var ops := EndPuts();
    forall k | 0 <= k < |ops| ensures EarlyOp(ops[k]) {
    }
  }

  lemma EarlyAppend(a: seq<Op>, b: seq<Op>)
    requires Early(a) && Early(b)
    ensures Early(a + b)
  {
  }

  lemma EarlyTlb(i: nat)
    ensures Early(TlbPuts(i))
  {
    var ops := TlbPuts(i);
    forall k | 0 <= k < |ops| ensures EarlyOp(ops[k]) {
    }
  }

  lemma {:induction false} EarlyTlbs(n: nat)
    ensures Early(TlbsPuts(n))
  {
    if n > 0 {
      EarlyTlbs(n - 1);
      EarlyTlb(n - 1);
      EarlyAppend(TlbsPuts(n - 1), TlbPuts(n - 1));
    }
  }

  lemma EarlyMain(n: nat)
    ensures NoneLate(SlotsAll(MainPuts(n)))
  {
    EarlyRegister();
    EarlyPiSp();
    EarlyInterface();
    EarlyDp();
    EarlyMemory();
    EarlyCpu();
    EarlyTlbs(n);
    EarlyEnd();
    EarlyEight(RegisterPuts(), PiSpPuts(), InterfacePuts(), DpPuts(), MemoryPuts(), CpuPuts(), TlbsPuts(n), EndPuts());
    EarlySlots(MainPuts(n));
  }

  lemma EarlyEight(a: seq<Op>, b: seq<Op>, c: seq<Op>, d: seq<Op>, e: seq<Op>, f: seq<Op>, g: seq<Op>, h: seq<Op>)
    requires Early(a) && Early(b) && Early(c) && Early(d) && Early(e) && Early(f) && Early(g) && Early(h)
    ensures Early(a + b + c + d + e + f + g + h)
  {
    EarlyAppend(a, b);
    EarlyAppend(a + b, c);
    EarlyAppend(a + b + c, d);
    EarlyAppend(a + b + c + d, e);
    EarlyAppend(a + b + c + d + e, f);
    EarlyAppend(a + b + c + d + e + f, g);
    EarlyAppend(a + b + c + d + e + f + g, h);
  }

  lemma EarlyModule(i: nat)
    ensures Early(ModulePuts(i))
  {
  }

  lemma {:induction false} EarlyModules(n: nat)
    ensures Early(ModulesPuts(n))
  {
    if n > 1 {
      EarlyModules(n - 1);
      EarlyModule(n - 1);
      EarlyAppend(ModulesPuts(n - 1), ModulePuts(n - 1));
    }
  }

  lemma {:induction false} EarlyRumbles(u: Setup, i: nat)
    requires i <= |u.ports|
    ensures NoneLate(RumbleSlots(u, i))
    decreases |u.ports| - i
  {
    if i < |u.ports| {
      EarlySlots(RumblePuts(i));
      EarlyRumbles(u, i + 1);
    }
  }

  lemma {:induction false} EarlyPaks(u: Setup, i: nat)
    requires i <= |u.ports|
    ensures NoneLate(PaksSlots(u, i))
    decreases |u.ports| - i
  {
    if i < |u.ports| {
      EarlyPak(i);
      EarlyPaks(u, i + 1);
    }
  }

  lemma EarlyPak(i: nat)
    ensures NoneLate(SlotsAll(PakPuts(i))) && NoneLate(SlotsAll(CartPuts(i)))
  {
    EarlySlots(PakPuts(i));
    var ops := CartPuts(i);
    forall k | 0 <= k < |ops| ensures EarlyOp(ops[k]) {
    }
    EarlySlots(CartPuts(i));
  }

  /** The slots of the extra block before the later parts. */
  function MiddleSlots(u: Setup, version: nat): (r: set<Slot>) {
    SlotsAll(StatusPuts()) + SlotsAll(ModulesPuts(u.modules))
    + if version >= V1_4 then SlotsAll(DdPuts(u.disk.Some?)) else {}
  }

  lemma EarlyDdRegs()
    ensures EarlyOp(DdPuts(true)[0])
  {
    var op := DdPuts(true)[0];
    forall k | 0 <= k < |op.slots| ensures !Late(op.slots[k]) {
      assert op.slots[k].Dd?;
    }
  }

  lemma EarlyDdRest()
    ensures Early(DdPuts(true)[1..])
  {
    var ops := DdPuts(true)[1..];
    forall k | 0 <= k < |ops| ensures EarlyOp(ops[k]) {
    }
  }

  lemma EarlyDd(present: bool)
    ensures Early(DdPuts(present))
  {
    if present {
      EarlyDdRegs();
      EarlyDdRest();
      EarlyRest(DdPuts(true));
    }
  }

  lemma EarlyMiddle(u: Setup, version: nat)
    ensures NoneLate(MiddleSlots(u, version))
  {
    EarlySlots(StatusPuts());
    EarlyModules(u.modules);
    EarlySlots(ModulesPuts(u.modules));
    EarlyDd(u.disk.Some?);
    EarlySlots(DdPuts(u.disk.Some?));
  }

  lemma {:induction false} SlotsOfAppend(a: seq<Op>, b: seq<Op>)
    ensures SlotsAll(a + b) == SlotsAll(a) + SlotsAll(b)
  {
    if a == [] {
      assert a + b == b;
    } else {
      assert (a + b)[1..] == a[1..] + b;
      SlotsOfAppend(a[1..], b);
    }
  }

  /** Whether a version has a late slot. */
  predicate Knows(version: nat, dynarec: bool, s: Slot) {
    match s
    case StopAfterJal => dynarec && version >= 0x10500
    case SpDma(fifo, _) => fifo < 2 && version >= 0x10700
    case Flash(_) => version >= 0x10800
    case Cp0Latch => version >= 0x10900
    case Cp2Latch => version >= 0x10900
    case _ => false
  }

  lemma DmaSlots(s: Slot)
    ensures s in SlotsAll(DmaPuts()) <==> s.SpDma? && s.fifo < 2
  {
    var op := DmaPuts()[0];
    assert DmaPuts()[1..] == [];
    if s.SpDma? && s.fifo < 2 {
      var k := 4 * s.fifo + (match s.dma case Dir => 0 case DmaLength => 1 case DmaMemAddr => 2 case DmaDramAddr => 3);
      assert op.slots[k] == s;
    }
  }

  lemma {:induction false} OnlySlots(ops: seq<Op>, p: Slot -> bool)
    requires forall k, s :: 0 <= k < |ops| && s in SlotsOf(ops[k]) ==> p(s)
    ensures forall s :: s in SlotsAll(ops) ==> p(s)
  {
    if ops != [] {
      assert forall k, s :: 0 <= k < |ops[1..]| && s in SlotsOf(ops[1..][k]) ==> s in SlotsOf(ops[k + 1]);
      OnlySlots(ops[1..], p);
    }
  }

  lemma FlashSlots(s: Slot)
    ensures s in SlotsAll(FlashPuts()) <==> s.Flash?
  {
    FlashWritten();
    SlotsAt(FlashPuts(), 1);
    assert FlashPuts()[1] == Block(4, Flash(SiliconId), 2);
    OnlySlots(FlashPuts(), (s: Slot) => s.Flash?);
    if s.Flash? {
      match s.flash
      case PageBuf =>
      case SiliconId =>
      case FlashStatus =>
      case ErasePage =>
      case FlashMode =>
    }
  }

  lemma JalSlots(dynarec: bool, s: Slot)
    ensures s in SlotsAll(JalPuts(dynarec)) <==> s.StopAfterJal? && dynarec
  {
    if dynarec { JalWritten(); }
    assert JalPuts(dynarec)[1..] == [];
  }

  lemma LatchSlots(s: Slot)
    ensures s in SlotsAll(LatchPuts()) <==> s.Cp0Latch? || s.Cp2Latch?
  {
    var op := LatchPuts()[0];
    assert LatchPuts()[1..] == [];
    assert op.slots[0] == Cp0Latch && op.slots[1] == Cp2Latch;
  }

  lemma OneOfFour(a: seq<Op>, b: seq<Op>, c: seq<Op>, d: seq<Op>, s: Slot)
    ensures s in SlotsAll(a + b + c + d) <==>
            s in SlotsAll(a) || s in SlotsAll(b) || s in SlotsAll(c) || s in SlotsAll(d)
  {
    SlotsOfAppend(a, b);
    SlotsOfAppend(a + b, c);
    SlotsOfAppend(a + b + c, d);
  }

  lemma IfPresent(present: bool, ops: seq<Op>, s: Slot)
    ensures s in SlotsAll(if present then ops else []) <==> present && s in SlotsAll(ops)
  {
  }

  lemma SlotsOfFour(i: bool, a: seq<Op>, j: bool, b: seq<Op>, k: bool, c: seq<Op>, l: bool, d: seq<Op>, s: Slot)
    ensures s in SlotsAll((if i then a else []) + (if j then b else []) + (if k then c else [])
                          + (if l then d else [])) <==>
            (i && s in SlotsAll(a)) || (j && s in SlotsAll(b)) || (k && s in SlotsAll(c)) || (l && s in SlotsAll(d))
  {
    OneOfFour(if i then a else [], if j then b else [], if k then c else [], if l then d else [], s);
    IfPresent(i, a, s);
    IfPresent(j, b, s);
    IfPresent(k, c, s);
    IfPresent(l, d, s);
  }

  lemma LateSlotsAt(version: nat, dynarec: bool, s: Slot)
    ensures s in SlotsAll(LatePutsAt(version, dynarec)) <==> Knows(version, dynarec, s)
  {
    SlotsOfFour(version >= V1_5, JalPuts(dynarec), version >= V1_7, DmaPuts(), version >= V1_8, FlashPuts(),
                version >= Latest, LatchPuts(), s);
    JalSlots(dynarec, s);
    DmaSlots(s);
    FlashSlots(s);
    LatchSlots(s);
  }

  // ------------------------------------------------------ loading an older file

  /** What a slot that the file does not hold has after loading: the DMA queue is emptied, the
      flash chip is as after power-on but for its id, the recompiler stops after jumps, and the
      rest is as it was. */
  function Unsaved(version: nat, dynarec: bool, m: Slots, s: Slot): seq<nat> {
    match s
    case SpDma(fifo, _) => if fifo < 2 && version < 0x10700 then [0] else Value(m, s)
    case Flash(f) =>
      if f == SiliconId then Value(m, s) else if f == PageBuf then seq(128, k => 0xff) else [0]
    case StopAfterJal => if dynarec then [1] else Value(m, s)
    case _ => Value(m, s)
  }

  /** The main block and the event queue. */
  function FrontSlots(u: Setup): set<Slot> { SlotsAll(MainPuts(u.tlb)) + SlotsAll(QueuePuts(u.dynarec)) }

  /** Controllers and paks. */
  function PortsSlots(u: Setup): set<Slot> { SlotsAll(ExtraPuts()) + RumbleSlots(u, 0) + PaksSlots(u, 0) }

  /** What a file of that version holds and this setup takes over. */
  predicate Held(u: Setup, version: nat, s: Slot) {
    s in FrontSlots(u) || s in PortsSlots(u) || s in MiddleSlots(u, version) || Knows(version, u.dynarec, s)
  }

  lemma ClearDmaValue(m: Slots, s: Slot)
    ensures Value(ClearDma(m), s) == if s.SpDma? && s.fifo < 2 then [0] else Value(m, s)
  {
    if s.SpDma? && s.fifo < 2 { DmaSlots(s); }
  }

  lemma DefaultsValue(u: Setup, m: Slots, s: Slot)
    ensures Value(Defaults(u, m), s) ==
            if s.Flash? || s.StopAfterJal? then Unsaved(Latest, u.dynarec, m, s) else Value(m, s)
  {
  }

  lemma TypedLate(m: Slots, version: nat, dynarec: bool)
    requires TypedAll(m, LatePuts(dynarec))
    ensures TypedAll(m, LatePutsAt(version, dynarec))
  {
    TypedParts(m, JalPuts(dynarec), DmaPuts(), FlashPuts(), LatchPuts());
    TypedSome(m, if version >= V1_5 then JalPuts(dynarec) else [], if version >= V1_7 then DmaPuts() else [],
              if version >= V1_8 then FlashPuts() else [], if version >= Latest then LatchPuts() else []);
  }

  lemma TypedParts(m: Slots, a: seq<Op>, b: seq<Op>, c: seq<Op>, d: seq<Op>)
    requires TypedAll(m, a + b + c + d)
    ensures TypedAll(m, a) && TypedAll(m, b) && TypedAll(m, c) && TypedAll(m, d)
  {
    var all := a + b + c + d;
    assert forall k :: 0 <= k < |a| ==> a[k] == all[k];
    assert forall k :: 0 <= k < |b| ==> b[k] == all[|a| + k];
    assert forall k :: 0 <= k < |c| ==> c[k] == all[|a| + |b| + k];
    assert forall k :: 0 <= k < |d| ==> d[k] == all[|a| + |b| + |c| + k];
  }

  lemma TypedSome(m: Slots, a: seq<Op>, b: seq<Op>, c: seq<Op>, d: seq<Op>)
    requires TypedAll(m, a) && TypedAll(m, b) && TypedAll(m, c) && TypedAll(m, d)
    ensures TypedAll(m, a + b + c + d)
  {
  }

  /** The reader up to the later parts. */
  lemma MiddleRestores(u: Setup, version: nat, saved: Slots, m: Slots, z: seq<Byte>) returns (c3: Cursor)
    requires ValidSetup(u) && TypedState(u, saved) && version >= V1_3 && |z| >= 6 + 280 + 4 + DdSize + 196
    ensures SizeAll(LateGets(version, u.dynarec)) <= 196
    ensures c3.rest == z && Restored(saved, m, c3.slots, MiddleSlots(u, version))
    ensures var dd := if version >= V1_4 then DdBytes(u, saved) else [];
            LoadRest(u, version, Cursor(m, EncodeAll(saved, StatusPuts())
                                           + (EncodeAll(saved, ModulesPuts(u.modules)) + (dd + z)))) ==
            Run(Cursor(if version >= V1_7 then c3.slots else ClearDma(c3.slots), z), LateGets(version, u.dynarec))
  {
    var dd := if version >= V1_4 then DdBytes(u, saved) else [];
    LateSizes(version, u.dynarec);
    var c2 := ModulesRestore(u, saved, m, dd + z);
    c3 := DriveRestores(u, version, saved, c2.slots, z);
    RestoredChain(saved, m, c2.slots, c3.slots, SlotsAll(StatusPuts()) + SlotsAll(ModulesPuts(u.modules)),
                  if version >= V1_4 then SlotsAll(DdPuts(u.disk.Some?)) else {});
    LoadRestIs(u, version, Cursor(m, EncodeAll(saved, StatusPuts()) + (EncodeAll(saved, ModulesPuts(u.modules))
                                                                       + (dd + z))), c2, c3);
  }

  lemma DriveRestores(u: Setup, version: nat, saved: Slots, m: Slots, z: seq<Byte>) returns (c: Cursor)
    requires ValidSetup(u) && TypedAll(saved, DdPuts(u.disk.Some?)) && version >= V1_3
    ensures version >= V1_4 ==> c == LoadDd(u, Cursor(m, DdBytes(u, saved) + z))
    ensures version < V1_4 ==> c == Cursor(m, z) && [] + z == z
    ensures c.rest == z
    ensures Restored(saved, m, c.slots, if version >= V1_4 then SlotsAll(DdPuts(u.disk.Some?)) else {})
  {
    if version >= V1_4 {
      DdRestores(u, saved, m, z);
      c := LoadDd(u, Cursor(m, DdBytes(u, saved) + z));
    } else {
      c := Cursor(m, z);
    }
  }

  lemma LoadRestIs(u: Setup, version: nat, c: Cursor, c2: Cursor, c3: Cursor)
    requires u.modules == 8 && version >= V1_3 && |c.rest| >= 6 + 280 + 4 + DdSize + 196
    requires SizeAll(StatusGets()) == 6 && SizeAll(ModulesGets(u.modules)) == 280
    requires c2 == Run(Run(c, StatusGets()), ModulesGets(u.modules))
    requires c3 == if version >= V1_4 then LoadDd(u, c2) else c2
    ensures SizeAll(LateGets(version, u.dynarec)) <= 196 <= |c3.rest|
    ensures LoadRest(u, version, c) ==
            Run(Cursor(if version >= V1_7 then c3.slots else ClearDma(c3.slots), c3.rest), LateGets(version, u.dynarec))
  {
    LateSizes(version, u.dynarec);
  }

  lemma ModulesRestore(u: Setup, saved: Slots, m: Slots, y: seq<Byte>) returns (c2: Cursor)
    requires ValidSetup(u) && TypedState(u, saved)
    ensures SizeAll(StatusGets()) == 6 && SizeAll(ModulesGets(u.modules)) == 280
    ensures |EncodeAll(saved, StatusPuts()) + (EncodeAll(saved, ModulesPuts(u.modules)) + y)| == 286 + |y|
    ensures c2 == Run(Run(Cursor(m, EncodeAll(saved, StatusPuts()) + (EncodeAll(saved, ModulesPuts(u.modules)) + y)),
                          StatusGets()), ModulesGets(u.modules))
    ensures c2.rest == y && Restored(saved, m, c2.slots, SlotsAll(StatusPuts()) + SlotsAll(ModulesPuts(u.modules)))
  {
    StatusAgrees();
    ModulesAgree(u.modules);
    var x := EncodeAll(saved, ModulesPuts(u.modules)) + y;
    RunRestores(saved, m, StatusPuts(), StatusGets(), x);
    var c1 := Run(Cursor(m, EncodeAll(saved, StatusPuts()) + x), StatusGets());
    RunRestores(saved, c1.slots, ModulesPuts(u.modules), ModulesGets(u.modules), y);
    c2 := Run(c1, ModulesGets(u.modules));
    RestoredChain(saved, m, c1.slots, c2.slots, SlotsAll(StatusPuts()), SlotsAll(ModulesPuts(u.modules)));
  }

  /** The slots after everything from the SI state on, `middle` being those before the later parts. */
  ghost predicate RestLoaded(version: nat, dynarec: bool, middle: set<Slot>, saved: Slots, m: Slots, r: Slots) {
    forall s {:trigger Value(r, s)} ::
      Value(r, s) == if Knows(version, dynarec, s) || s in middle then Value(saved, s)
                     else if s.SpDma? && s.fifo < 2 && version < 0x10700 then [0]
                     else Value(m, s)
  }

  lemma RestSlotsLoaded(version: nat, dynarec: bool, middle: set<Slot>, saved: Slots, m: Slots, c3: Slots, r: Slots)
    requires NoneLate(middle) && Restored(saved, m, c3, middle)
    requires Restored(saved, if version >= V1_7 then c3 else ClearDma(c3), r, SlotsAll(LatePutsAt(version, dynarec)))
    ensures RestLoaded(version, dynarec, middle, saved, m, r)
  {
    forall s
      ensures Value(r, s) == if Knows(version, dynarec, s) || s in middle then Value(saved, s)
                             else if s.SpDma? && s.fifo < 2 && version < 0x10700 then [0]
                             else Value(m, s)
    {
      LateSlotsAt(version, dynarec, s);
      ClearDmaValue(c3, s);
      assert Value(c3, s) == if s in middle then Value(saved, s) else Value(m, s);
    }
  }

  /** The later parts, read by a version that knows some of them. */
  lemma LateLoads(version: nat, dynarec: bool, middle: set<Slot>, saved: Slots, m: Slots, c3: Slots, rest: seq<Byte>)
    requires TypedAll(saved, LatePuts(dynarec)) && NoneLate(middle) && Restored(saved, m, c3, middle)
    ensures SizeAll(LateGets(version, dynarec)) == SizeAll(LatePutsAt(version, dynarec))
    ensures RestLoaded(version, dynarec, middle, saved, m,
                       Run(Cursor(if version >= V1_7 then c3 else ClearDma(c3),
                                  EncodeAll(saved, LatePutsAt(version, dynarec)) + rest),
                           LateGets(version, dynarec)).slots)
  {
    var c4 := if version >= V1_7 then c3 else ClearDma(c3);
    LateAgreesAt(version, dynarec);
    TypedLate(saved, version, dynarec);
    RunRestores(saved, c4, LatePutsAt(version, dynarec), LateGets(version, dynarec), rest);
    RestSlotsLoaded(version, dynarec, middle, saved, m, c3,
                    Run(Cursor(c4, EncodeAll(saved, LatePutsAt(version, dynarec)) + rest),
                        LateGets(version, dynarec)).slots);
  }

  lemma RestRestoresAt(u: Setup, version: nat, saved: Slots, m: Slots, rest: seq<Byte>)
    requires ValidSetup(u) && TypedState(u, saved) && version >= V1_3 && |rest| >= 6 + 280 + 4 + DdSize + 196
    ensures RestLoaded(version, u.dynarec, MiddleSlots(u, version), saved, m,
                       LoadRest(u, version, Cursor(m, RestBytesAt(u, version, saved) + rest)).slots)
  {
    var late := EncodeAll(saved, LatePutsAt(version, u.dynarec));
    var dd := if version >= V1_4 then DdBytes(u, saved) else [];
    AssocFour(EncodeAll(saved, StatusPuts()), EncodeAll(saved, ModulesPuts(u.modules)), dd, late, rest);
    var c3 := MiddleRestores(u, version, saved, m, late + rest);
    EarlyMiddle(u, version);
    LateLoads(version, u.dynarec, MiddleSlots(u, version), saved, m, c3.slots, rest);
  }

  lemma ExtraSplitAt(u: Setup, saved: State, rest: seq<Byte>) returns (pad: seq<Byte>)
    requires ValidSetup(u) && |saved.channels| == 5 && |rest| <= 6 + 280 + 4 + DdSize + 196
    ensures |pad| >= 1000
    ensures ExtraBlock(u, saved, rest) ==
            EncodeAll(saved.slots, ExtraPuts())
            + (RumblesBytes(u, saved.slots, 0)
               + (PaksBytes(u, saved.slots, 0) + (ChannelsBytes(saved.channels) + (rest + pad))))
  {
    var v := saved.slots;
    var paks, chans := PaksBytes(u, v, 0), ChannelsBytes(saved.channels);
    pad := Zeros(ExtraSize - |StartBytes(u, v) + (paks + (chans + rest))|);
    AssocSix(EncodeAll(v, ExtraPuts()), RumblesBytes(u, v, 0), paks, chans, rest, pad);
  }

  lemma AssocSix(a: seq<Byte>, b: seq<Byte>, c: seq<Byte>, d: seq<Byte>, e: seq<Byte>, f: seq<Byte>)
    ensures ((a + b) + (c + (d + e))) + f == a + (b + (c + (d + (e + f))))
  {
    AssocFour(a + b, c, d, e, f);
    Assoc(a, b, c + (d + (e + f)));
  }

  lemma BlockLoads(u: Setup, version: nat, saved: State, rest: seq<Byte>, m: Slots)
    returns (mid: Slots, pad: seq<Byte>)
    requires ValidSetup(u) && TypedState(u, saved.slots) && |saved.channels| == 5 && version >= V1_3
    requires |rest| <= 6 + 280 + 4 + DdSize + 196 && forall i :: 0 <= i < |u.ports| ==> CartNamed(u, i)
    ensures |pad| >= 1000 && Restored(saved.slots, m, mid, PortsSlots(u))
    ensures LoadExtra(u, version, m, ExtraBlock(u, saved, rest)) ==
            State(LoadRest(u, version, Cursor(mid, rest + pad)).slots, LoadChannels(ChannelsBytes(saved.channels)))
  {
    pad := ExtraSplitAt(u, saved, rest);
    var chans := ChannelsBytes(saved.channels);
    PortsRestore(u, saved.slots, m, chans + (rest + pad));
    var c := LoadPorts(u, Cursor(m, ExtraBlock(u, saved, rest)));
    assert c.rest[..5] == chans && c.rest[5..] == rest + pad;
    mid := c.slots;
  }

  lemma ExtraRestoresAt(u: Setup, version: nat, saved: State, m: Slots) returns (mid: Slots)
    requires ValidSetup(u) && TypedState(u, saved.slots) && |saved.channels| == 5 && version >= V1_3
    requires forall i :: 0 <= i < |u.ports| ==> CartNamed(u, i)
    ensures Restored(saved.slots, m, mid, PortsSlots(u))
    ensures var r := LoadExtra(u, version, m, ExtraBytesAt(u, version, saved));
            RestLoaded(version, u.dynarec, MiddleSlots(u, version), saved.slots, mid, r.slots)
            && r.channels == LoadChannels(ChannelsBytes(saved.channels))
  {
    var pad;
    mid, pad := BlockLoads(u, version, saved, RestBytesAt(u, version, saved.slots), m);
    RestRestoresAt(u, version, saved.slots, mid, pad);
  }

  /** Main block, defaults and queue. */
  ghost predicate FrontIs(dynarec: bool, front: set<Slot>, v: Slots, m: Slots, c: Slots) {
    forall s {:trigger Value(c, s)} ::
      Value(c, s) == if s in front then Value(v, s)
                     else if s.Flash? || s.StopAfterJal? then Unsaved(Latest, dynarec, m, s)
                     else Value(m, s)
  }

  lemma FrontIsLoaded(u: Setup, v: Slots, m: Slots, extra: seq<Byte>)
    requires ValidSetup(u) && TypedAll(v, MainPuts(u.tlb)) && TypedAll(v, QueuePuts(u.dynarec))
    ensures SizeAll(MainPuts(u.tlb)) == MainSize && SizeAll(QueuePuts(u.dynarec)) == 1028
    ensures var c := LoadFront(u, m, EncodeAll(v, MainPuts(u.tlb)) + (EncodeAll(v, QueuePuts(u.dynarec)) + extra));
            c.rest == extra && FrontIs(u.dynarec, FrontSlots(u), v, m, c.slots)
  {
    var queue := EncodeAll(v, QueuePuts(u.dynarec)) + extra;
    MainAgrees(u.tlb);
    RunRestores(v, m, MainPuts(u.tlb), MainGets(u.tlb), queue);
    var a := Run(Cursor(m, EncodeAll(v, MainPuts(u.tlb)) + queue), MainGets(u.tlb)).slots;
    QueueAgrees(u.dynarec);
    RunRestores(v, Defaults(u, a), QueuePuts(u.dynarec), QueueGets(u.dynarec), extra);
    EarlyMain(u.tlb);
    FrontValues(u, SlotsAll(MainPuts(u.tlb)), SlotsAll(QueuePuts(u.dynarec)), v, m, a,
                Run(Cursor(Defaults(u, a), queue), QueueGets(u.dynarec)).slots);
  }

  lemma FrontValues(u: Setup, main: set<Slot>, queue: set<Slot>, v: Slots, m: Slots, a: Slots, b: Slots)
    requires NoneLate(main) && Restored(v, m, a, main) && Restored(v, Defaults(u, a), b, queue)
    ensures FrontIs(u.dynarec, main + queue, v, m, b)
  {
    forall s
      ensures Value(b, s) == if s in main + queue then Value(v, s)
                             else if s.Flash? || s.StopAfterJal? then Unsaved(Latest, u.dynarec, m, s)
                             else Value(m, s)
    {
      DefaultsValue(u, a, s);
      assert Value(a, s) == if s in main then Value(v, s) else Value(m, s);
    }
  }

  lemma AllSlotsLoaded(version: nat, dynarec: bool, front: set<Slot>, ports: set<Slot>, middle: set<Slot>,
                       v: Slots, m: Slots, c: Slots, mid: Slots, r: Slots, s: Slot)
    requires NoneLate(front) && NoneLate(ports) && NoneLate(middle)
    requires FrontIs(dynarec, front, v, m, c) && Restored(v, c, mid, ports)
    requires RestLoaded(version, dynarec, middle, v, mid, r)
    ensures Value(r, s) == if s in front || s in ports || s in middle || Knows(version, dynarec, s) then Value(v, s)
                           else Unsaved(version, dynarec, m, s)
  {
    assert Value(mid, s) == if s in ports then Value(v, s) else Value(c, s);
  }

  /** The slots after the whole load. */
  ghost predicate LoadedAt(u: Setup, version: nat, saved: Slots, m: Slots, r: Slots) {
    forall s {:trigger Value(r, s)} ::
      Value(r, s) == if Held(u, version, s) then Value(saved, s) else Unsaved(version, u.dynarec, m, s)
  }

  lemma BodyAtLoads(u: Setup, version: nat, saved: State, m: Slots)
    requires ValidSetup(u) && TypedState(u, saved.slots) && |saved.channels| == 5 && version >= V1_3
    requires forall i :: 0 <= i < |u.ports| ==> CartNamed(u, i)
    ensures var r := LoadBody(u, version, m, BodyAt(u, version, saved));
            LoadedAt(u, version, saved.slots, m, r.slots)
            && r.channels == LoadChannels(ChannelsBytes(saved.channels))
  {
    FrontIsLoaded(u, saved.slots, m, ExtraBytesAt(u, version, saved));
    var c := LoadFront(u, m, BodyAt(u, version, saved));
    var mid := ExtraRestoresAt(u, version, saved, c.slots);
    EverySlot(u, version, saved.slots, m, c.slots, mid,
              LoadExtra(u, version, c.slots, ExtraBytesAt(u, version, saved)).slots);
  }

  lemma EverySlot(u: Setup, version: nat, v: Slots, m: Slots, c: Slots, mid: Slots, r: Slots)
    requires FrontIs(u.dynarec, FrontSlots(u), v, m, c) && Restored(v, c, mid, PortsSlots(u))
    requires RestLoaded(version, u.dynarec, MiddleSlots(u, version), v, mid, r)
    ensures LoadedAt(u, version, v, m, r)
  {
    EarlyFront(u);
    EarlyPorts(u);
    EarlyMiddle(u, version);
    var front, ports, middle := FrontSlots(u), PortsSlots(u), MiddleSlots(u, version);
    forall s ensures Value(r, s) == if Held(u, version, s) then Value(v, s) else Unsaved(version, u.dynarec, m, s) {
      AllSlotsLoaded(version, u.dynarec, front, ports, middle, v, m, c, mid, r, s);
    }
  }

  lemma EarlyFront(u: Setup)
    ensures NoneLate(FrontSlots(u))
  {
    EarlyMain(u.tlb);
    EarlySlots(QueuePuts(u.dynarec));
  }

  lemma EarlyPorts(u: Setup)
    ensures NoneLate(PortsSlots(u))
  {
    var ops := ExtraPuts();
    forall k | 0 <= k < |ops| ensures EarlyOp(ops[k]) {
    }
    EarlySlots(ops);
    EarlyRumbles(u, 0);
    EarlyPaks(u, 0);
  }

  lemma Big4Back(version: nat)
    requires version < 0x20000
    ensures FromBig4(Big4(version)) == version
  {
    var q, r := version / 0x100, version % 0x100;
    var h, l := q / 0x100, q % 0x100;
    assert version == 0x10000 * h + (0x100 * l + r);
    assert version / 0x10000 == h && version / 0x1000000 == 0;
  }

  lemma LoadIs(u: Setup, m: Slots, file: seq<Byte>)
    requires |u.md5| == 32 && |u.ports| == 4 && u.tlb == 32 && u.modules == 8
    requires |file| == 44 + MainSize + 1028 + ExtraSize && file[..8] == Magic && file[12..44] == u.md5
    requires V1_3 <= FromBig4(file[8..12]) < 0x20000
    ensures Load(u, m, file) == Loaded(LoadBody(u, FromBig4(file[8..12]), m, file[44..]))
  {
    assert FromBig4(file[8..12]) / 0x10000 == 1;
    assert Load(u, m, file).Loaded?;
  }

  /**
   * A file of any version from 1.3 on is loaded: what it holds comes back, the DMA queue, the
   * flash chip and the recompiler's flag get their defaults if the file is too old to hold them,
   * and every other slot keeps what the device had.
   */
  lemma OlderFileLoads(u: Setup, version: nat, saved: State, m: Slots)
    requires ValidSetup(u) && TypedState(u, saved.slots) && |saved.channels| == 5 && V1_3 <= version < 0x20000
    requires forall i :: 0 <= i < |u.ports| ==> CartNamed(u, i)
    ensures var r := Load(u, m, FileAt(u, version, saved));
            r.Loaded?
            && LoadedAt(u, version, saved.slots, m, r.state.slots)
            && r.state.channels == LoadChannels(ChannelsBytes(saved.channels))
  {
    Slices(Magic, Big4(version), u.md5, BodyAt(u, version, saved));
    Big4Back(version);
    BodyAtLoads(u, version, saved, m);
    LoadIs(u, m, FileAt(u, version, saved));
  }

  // ------------------------------------------------------ the round trip

  /** Everything the writer writes that the reader is allowed to set in this setup. */
  function Serialised(u: Setup): (r: set<Slot>) {
    FrontSlots(u) + PortsSlots(u) + MiddleSlots(u, Latest) + SlotsAll(LatePuts(u.dynarec))
  }

  /** A current file leaves nothing to defaults. */
  lemma NothingLeftOut(u: Setup, m: Slots, s: Slot)
    ensures Held(u, Latest, s) <==> s in Serialised(u)
    ensures !Held(u, Latest, s) ==> Unsaved(Latest, u.dynarec, m, s) == Value(m, s)
  {
    LateSlotsAt(Latest, u.dynarec, s);
    LatestKnowsAll(u.dynarec);
  }

  lemma LatestKnowsAll(dynarec: bool)
    ensures LatePutsAt(Latest, dynarec) == LatePuts(dynarec)
  {
  }

  /**
   * The round trip.  A state saved with titled cartridges and loaded into any
   * device with the same game, settings, cartridges and disk is accepted; every
   * slot written comes back, unless the settings tell the reader to leave the
   * pak alone; every other slot keeps what the device had; and a PIF channel
   * comes back exactly when it was near.
   */
  lemma SaveThenLoad(u: Setup, saved: State, m: Slots)
    requires ValidSetup(u) && TypedState(u, saved.slots) && |saved.channels| == 5
    requires forall i :: 0 <= i < |u.ports| ==> CartNamed(u, i)
    ensures var r := Load(u, m, Save(u, saved));
            r.Loaded?
            && Restored(saved.slots, m, r.state.slots, Serialised(u))
            && |r.state.channels| == 5
            && forall k :: 0 <= k < 5 ==> (r.state.channels[k] == saved.channels[k] <==> Near(saved.channels[k]))
  {
    LatestIsSave(u, saved);
    OlderFileLoads(u, Latest, saved, m);
    var r := Load(u, m, Save(u, saved)).state;
    CurrentRestored(u, saved.slots, m, r.slots);
    forall k | 0 <= k < 5 ensures r.channels[k] == saved.channels[k] <==> Near(saved.channels[k]) {
      ChannelsRestoredIff(saved.channels, k);
    }
  }

  lemma CurrentRestored(u: Setup, saved: Slots, m: Slots, r: Slots)
    requires LoadedAt(u, Latest, saved, m, r)
    ensures Restored(saved, m, r, Serialised(u))
  {
    forall s ensures Value(r, s) == if s in Serialised(u) then Value(saved, s) else Value(m, s) {
      NothingLeftOut(u, m, s);
    }
  }
}
