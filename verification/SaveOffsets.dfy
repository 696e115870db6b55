/**
 * Where a state file keeps what (src/main/savestates.c): the offsets of the main block's
 * register banks, memories and processor state, by register number.
 */
module SaveOffsets {
  import opened Common
  import opened SaveLayout
  import opened SaveTables
  import opened SaveState

  // ------------------------------------------------------------ positions

  /** The bytes `item` stand at `off`. */
  predicate ItemAt(x: seq<Byte>, off: nat, item: seq<Byte>) {
    off + |item| <= |x| && x[off..off + |item|] == item
  }

  lemma ItemFront(x: seq<Byte>, y: seq<Byte>, off: nat, item: seq<Byte>)
    requires ItemAt(x, off, item)
    ensures ItemAt(x + y, off, item)
  {
  }

  lemma ItemBack(x: seq<Byte>, y: seq<Byte>, off: nat, item: seq<Byte>)
    requires ItemAt(y, off, item)
    ensures ItemAt(x + y, |x| + off, item)
  {
  }

  lemma ItemWithin(x: seq<Byte>, a: nat, y: seq<Byte>, off: nat, item: seq<Byte>)
    requires ItemAt(x, a, y) && ItemAt(y, off, item)
    ensures ItemAt(x, a + off, item)
  {
    forall k | 0 <= k < |item| ensures x[a + off + k] == item[k] {
      assert y[off..off + |item|][k] == item[k];
      assert x[a..a + |y|][off + k] == y[off + k];
    }
  }

  lemma ItemWhole(x: seq<Byte>)
    ensures ItemAt(x, 0, x)
  {
  }

  /** Where step `k` of a list starts. */
  function OffsetOf(ops: seq<Op>, k: nat): nat
    requires k <= |ops|
  {
    if k == 0 then 0 else Size(ops[0]) + OffsetOf(ops[1..], k - 1)
  }

  lemma {:induction false} OffsetByTable(ops: seq<Op>, at: seq<int>, k: nat)
    requires |at| == |ops| + 1 && k <= |ops|
    requires forall i :: 0 <= i < |ops| ==> at[i + 1] == at[i] + Size(ops[i])
    ensures OffsetOf(ops, k) == at[k] - at[0]
    decreases k
  {
    if k > 0 {
      var tail, off := ops[1..], at[1..];
      assert forall i :: 0 <= i < |tail| ==> tail[i] == ops[i + 1] && off[i + 1] == at[i + 2];
      OffsetByTable(tail, off, k - 1);
    }
  }

  lemma {:induction false} StepAt(m: Slots, ops: seq<Op>, k: nat, off: nat, item: seq<Byte>)
    requires k < |ops| && off == OffsetOf(ops, k) && item == Encode(m, ops[k])
    ensures ItemAt(EncodeAll(m, ops), off, item)
    decreases k
  {
    if k == 0 {
      ItemFirst(Encode(m, ops[0]), EncodeAll(m, ops[1..]));
    } else {
      var tail := ops[1..];
      var o := OffsetOf(tail, k - 1);
      assert tail[k - 1] == ops[k];
      StepAt(m, tail, k - 1, o, item);
      NextStep(m, ops, o, item);
    }
  }

  lemma NextStep(m: Slots, ops: seq<Op>, off: nat, item: seq<Byte>)
    requires ops != [] && ItemAt(EncodeAll(m, ops[1..]), off, item)
    ensures ItemAt(EncodeAll(m, ops), Size(ops[0]) + off, item)
  {
    ItemBack(Encode(m, ops[0]), EncodeAll(m, ops[1..]), off, item);
  }

  lemma ItemFirst(x: seq<Byte>, y: seq<Byte>)
    ensures ItemAt(x + y, 0, x)
  {
  }

  /** Number `j` of a packed list. */
  lemma {:induction false} NumberAt(vs: seq<nat>, w: nat, j: nat)
    requires j < |vs|
    ensures ItemAt(Pack(vs, w), w * j, Little(vs[j], w))
    decreases j
  {
    var x, y := Little(vs[0], w), Pack(vs[1..], w);
    if j == 0 {
      ItemFirst(x, y);
    } else {
      NumberAt(vs[1..], w, j - 1);
      ItemBack(x, y, w * (j - 1), Little(vs[j], w));
      assert w * j == w + w * (j - 1);
    }
  }

  /** Step `k` starts at `at[k]`. */
  ghost predicate Table(ops: seq<Op>, at: seq<int>) {
    |at| == |ops| + 1 && at[0] == 0 && forall i :: 0 <= i < |ops| ==> at[i + 1] == at[i] + Size(ops[i])
  }

  // ------------------------------------------------------------ what stands where

  /** Byte `k` of a number is its digit `k` to the base 256. */
  lemma {:induction false} LittleDigit(v: nat, w: nat, k: nat)
    requires k < w
    ensures Little(v, w)[k] == v / Pow256(k) % 256
    decreases k
  {
    if k > 0 {
      LittleDigit(v / 256, w - 1, k - 1);
      DivideTwice(v, 256, Pow256(k - 1));
    }
  }

  function Pow2(k: nat): nat
    ensures Pow2(k) > 0
  {
    if k == 0 then 1 else 2 * Pow2(k - 1)
  }

  /** The flags that old versions read: byte `k` is bit `low + k` of the register. */
  lemma {:induction false} BitByte(v: nat, low: nat, count: nat, k: nat)
    requires k < count
    ensures BitBytes(Shift(v, low), count)[k] == v / Pow2(low + k) % 2
    decreases low + k
  {
    if low > 0 {
      BitByte(v / 2, low - 1, count, k);
      DivideTwice(v, 2, Pow2(low + k - 1));
    } else if k > 0 {
      BitByte(v / 2, 0, count - 1, k - 1);
      DivideTwice(v, 2, Pow2(k - 1));
    }
  }

  lemma DivideTwice(v: nat, a: nat, b: nat)
    requires a > 0 && b > 0
    ensures a * b > 0 && v / a / b == v / (a * b)
  {
    var q, r := v / a, v % a;
    var p, t := q / b, q % b;
    assert v == a * q + r && q == b * p + t;
    assert v == (a * b) * p + (a * t + r);
    assert 0 <= a * t + r < a * b by {
      assert t <= b - 1;
      MulLess(a, t, b);
    }
    QuotientIs(v, a * b, p, a * t + r);
  }

  lemma MulLess(a: nat, t: nat, b: nat)
    requires a > 0 && t < b
    ensures a * t + a <= a * b
  {
    assert a * (t + 1) <= a * b;
  }

  lemma QuotientIs(v: nat, d: nat, p: nat, r: nat)
    requires d > 0 && v == d * p + r && r < d
    ensures v / d == p
  {
    var q := v / d;
    if q < p { MulLess(d, q, p); }
    if p < q { MulLess(d, p, q); }
  }

  /** Numbers of `width` bytes, one per slot, from `offset` on; one slot of `count` numbers; a
      byte kept in four; or what only old versions read. */
  datatype Entry =
    | Row(offset: nat, width: nat, slots: seq<Slot>)
    | Image(offset: nat, width: nat, slot: Slot, count: nat)
    | Widened(offset: nat, slot: Slot)
    | Old(offset: nat, marks: seq<Mark>)

  function StepFor(e: Entry): Op {
    match e
    case Row(_, width, slots) => Fields(width, slots)
    case Image(_, width, slot, count) => Block(width, slot, count)
    case Widened(_, slot) => Wide(slot)
    case Old(_, marks) => Fill(marks)
  }

  /** Numbers of `w` bytes, low byte first, from `offset` on. */
  ghost predicate Numbers(x: seq<Byte>, offset: nat, w: nat, vs: seq<nat>) {
    forall j :: 0 <= j < |vs| ==> ItemAt(x, offset + w * j, Little(vs[j], w))
  }

  lemma PackedNumber(x: seq<Byte>, offset: nat, w: nat, vs: seq<nat>, j: nat, off: nat)
    requires ItemAt(x, offset, Pack(vs, w)) && j < |vs| && off == w * j
    ensures ItemAt(x, offset + off, Little(vs[j], w))
  {
    NumberAt(vs, w, j);
    var y, item := Pack(vs, w), Little(vs[j], w);
    ItemWithin(x, offset, y, off, item);
  }

  lemma PackedNumbers(x: seq<Byte>, offset: nat, w: nat, vs: seq<nat>)
    requires ItemAt(x, offset, Pack(vs, w))
    ensures Numbers(x, offset, w, vs)
  {
    forall j | 0 <= j < |vs| ensures ItemAt(x, offset + w * j, Little(vs[j], w)) {
      PackedNumber(x, offset, w, vs, j, w * j);
    }
  }

  /** The entry's slots stand at its offset. */
  ghost predicate Holding(m: Slots, x: seq<Byte>, e: Entry) {
    match e
    case Row(offset, width, slots) => Numbers(x, offset, width, Firsts(m, slots))
    case Image(offset, width, slot, count) => |Value(m, slot)| == count ==> Numbers(x, offset, width, Value(m, slot))
    case Widened(offset, slot) => ItemAt(x, offset, Little(First(m, slot), 4))
    case Old(offset, marks) => ItemAt(x, offset, MarksBytes(m, marks))
  }

  lemma StepHolds(m: Slots, x: seq<Byte>, e: Entry)
    requires ItemAt(x, e.offset, Encode(m, StepFor(e)))
    ensures Holding(m, x, e)
  {
    match e
    case Row(offset, width, slots) => PackedNumbers(x, offset, width, Firsts(m, slots));
    case Image(offset, width, slot, count) =>
      if |Value(m, slot)| == count { PackedNumbers(x, offset, width, Value(m, slot)); }
    case Widened(_, _) =>
    case Old(_, _) =>
  }

  /** The entries are steps of a list that starts at `base`. */
  ghost predicate Places(ops: seq<Op>, at: seq<int>, base: nat, es: seq<Entry>, ks: seq<nat>) {
    && Table(ops, at) && |ks| == |es|
    && forall i :: 0 <= i < |es| ==> ks[i] < |ops| && ops[ks[i]] == StepFor(es[i]) && es[i].offset == base + at[ks[i]]
  }

  lemma TableOffset(ops: seq<Op>, at: seq<int>, k: nat)
    requires Table(ops, at) && k < |ops|
    ensures OffsetOf(ops, k) == at[k]
  {
    OffsetByTable(ops, at, k);
  }

  lemma StepIn(m: Slots, x: seq<Byte>, ops: seq<Op>, base: nat, k: nat, off: nat, item: seq<Byte>)
    requires ItemAt(x, base, EncodeAll(m, ops)) && k < |ops| && off == OffsetOf(ops, k) && item == Encode(m, ops[k])
    ensures ItemAt(x, base + off, item)
  {
    StepAt(m, ops, k, off, item);
    ItemWithin(x, base, EncodeAll(m, ops), off, item);
  }

  lemma EntryIn(m: Slots, x: seq<Byte>, ops: seq<Op>, base: nat, k: nat, e: Entry)
    requires ItemAt(x, base, EncodeAll(m, ops))
    requires k < |ops| && ops[k] == StepFor(e) && e.offset == base + OffsetOf(ops, k)
    ensures Holding(m, x, e)
  {
    StepIn(m, x, ops, base, k, OffsetOf(ops, k), Encode(m, StepFor(e)));
    StepHolds(m, x, e);
  }

  lemma ListHolds(m: Slots, x: seq<Byte>, ops: seq<Op>, at: seq<int>, base: nat, es: seq<Entry>, ks: seq<nat>)
    requires Places(ops, at, base, es, ks) && ItemAt(x, base, EncodeAll(m, ops))
    ensures forall e :: e in es ==> Holding(m, x, e)
  {
    forall e | e in es ensures Holding(m, x, e) {
      var i :| 0 <= i < |es| && es[i] == e;
      TableOffset(ops, at, ks[i]);
      EntryIn(m, x, ops, base, ks[i], e);
    }
  }

  // ------------------------------------------------------------ the entries of the main block

  /** Where the steps of the memories and of a TLB entry start. */
  const MemoryTable: seq<int> := [0, 8388608, 8396800, 8396864, 8396868, 8396888, 12591192, 16785496]
  const TlbTable: seq<int> := [0, 2, 4, 8, 10, 12, 16, 19, 20, 24, 28, 52]

  /** Registers by interface, in the order of their numbers. */
  function RegisterEntries(): seq<Entry> {
    [ Row(0, 4, [Rdram(0, Config), Rdram(0, DeviceId), Rdram(0, Delay), Rdram(0, Mode), Rdram(0, RefInterval),
                  Rdram(0, RefRow), Rdram(0, RasInterval), Rdram(0, MinInterval), Rdram(0, AddrSelect),
                  Rdram(0, DeviceManuf)]),
      Row(44, 4, [Mi(InitMode)]),
      Old(48, [Low7(Mi(InitMode)), Bits(Mi(InitMode), 7, 3)]),
      Row(52, 4, [Mi(Version), Mi(Intr), Mi(IntrMask)]),
      Old(68, [Bits(Mi(IntrMask), 0, 6), Zero(2)]) ]
  }

  function PiSpEntries(): seq<Entry> {
    [ Row(76, 4, [Pi(DramAddr), Pi(CartAddr), Pi(RdLen), Pi(WrLen), Pi(Status), Pi(Dom1Lat), Pi(Dom1Pwd), Pi(Dom1Pgs),
                   Pi(Dom1Rls), Pi(Dom2Lat), Pi(Dom2Pwd), Pi(Dom2Pgs), Pi(Dom2Rls)]),
      Row(128, 4, [Sp(MemAddr), Sp(SpDramAddr), Sp(SpRdLen), Sp(SpWrLen)]),
      Row(148, 4, [Sp(SpStatus)]),
      Old(152, [Bits(Sp(SpStatus), 0, 15), Zero(1)]),
      Row(168, 4, [Sp(DmaFull), Sp(DmaBusy), Sp(Semaphore), Sp(SpPc), Sp(Ibist)]) ]
  }

  function InterfaceEntries(): seq<Entry> {
    [ Row(188, 4, [Si(SiDramAddr), Si(PifAddrRd), Si(PifAddrWr), Si(SiStatus)]),
      Row(204, 4, [Vi(ViStatus), Vi(Origin), Vi(Width), Vi(VIntr), Vi(Current), Vi(Burst), Vi(VSync), Vi(HSync),
                    Vi(Leap), Vi(HStart), Vi(VStart), Vi(VBurst), Vi(XScale), Vi(YScale), ViDelay]),
      Row(264, 4, [Ri(RiMode), Ri(RiConfig), Ri(CurrentLoad), Ri(Select), Ri(Refresh), Ri(Latency), Ri(RiError),
                    Ri(Werror)]),
      Row(296, 4, [Ai(AiDramAddr), Ai(Len), Ai(Control), Ai(AiStatus), Ai(Dacrate), Ai(Bitrate),
                    AiDuration(1), AiLength(1), AiDuration(0), AiLength(0)]) ]
  }

  function DpEntries(): seq<Entry> {
    [ Row(336, 4, [Dp(Start), Dp(End), Dp(DpcCurrent)]),
      Row(352, 4, [Dp(DpcStatus)]),
      Old(356, [Bits(Dp(DpcStatus), 0, 11), Zero(1)]),
      Row(368, 4, [Dp(Clock), Dp(BufBusy), Dp(PipeBusy), Dp(Tmem)]),
      Row(384, 4, [Dp(Tbist), Dp(TestMode), Dp(BuftestAddr), Dp(BuftestData)]) ]
  }

  function MemoryEntries(): seq<Entry> {
    [ Image(400, 4, Dram, 0x20_0000),
      Image(8389008, 4, SpMem, 0x800),
      Image(8397200, 1, PifRam, 64),
      Row(8397264, 4, [UseFlashram]),
      Image(8397288, 4, LutR, 0x10_0000),
      Image(12591592, 4, LutW, 0x10_0000) ]
  }

  function CpuEntries(): seq<Entry> {
    [ Row(16785896, 4, [Cpu(Llbit)]),
      Image(16785900, 8, Cpu(Gpr), 32),
      Image(16786156, 4, Cpu(Cp0), 32),
      Row(16786284, 8, [Cpu(MultLo), Cpu(MultHi)]),
      Image(16786300, 8, Cpu(Cp1), 32),
      Row(16786556, 4, [Cpu(Fcr0), Cpu(Fcr31)]) ]
  }

  /** TLB entry `i`, 52 bytes. */
  function TlbEntries(i: nat): seq<Entry> {
    var at := 16786564 + 52 * i;
    [ Row(at, 2, [Tlb(i, Mask)]),
      Row(at + 4, 4, [Tlb(i, Vpn2)]),
      Row(at + 8, 1, [Tlb(i, Global), Tlb(i, Asid)]),
      Row(at + 12, 4, [Tlb(i, PfnEven)]),
      Row(at + 16, 1, [Tlb(i, CEven), Tlb(i, DEven), Tlb(i, VEven)]),
      Row(at + 20, 4, [Tlb(i, PfnOdd)]),
      Row(at + 24, 1, [Tlb(i, COdd), Tlb(i, DOdd), Tlb(i, VOdd), Tlb(i, Region)]),
      Row(at + 28, 4, [Tlb(i, StartEven), Tlb(i, EndEven), Tlb(i, PhysEven),
                        Tlb(i, StartOdd), Tlb(i, EndOdd), Tlb(i, PhysOdd)]) ]
  }

  function EndEntries(): seq<Entry> {
    [ Row(16788228, 4, [Pc, NextInterrupt]), Row(16788240, 4, [ViField]) ]
  }

  lemma RegisterPlaces()
    ensures Places(RegisterPuts(), [0, 40, 44, 48, 52, 64, 68, 76], 0, RegisterEntries(), [0, 2, 3, 4, 6])
  {
    var ops, at, es, ks := RegisterPuts(), [0, 40, 44, 48, 52, 64, 68, 76], RegisterEntries(), [0, 2, 3, 4, 6];
    forall k | 0 <= k < |ops| ensures at[k + 1] == at[k] + Size(ops[k]) {
    }
    forall i | 0 <= i < |es|
      ensures ks[i] < |ops| && ops[ks[i]] == StepFor(es[i]) && es[i].offset == 0 + at[ks[i]]
    {
    }
  }

  lemma PiSpPlaces()
    ensures Places(PiSpPuts(), [0, 52, 68, 72, 76, 92, 112], 76, PiSpEntries(), [0, 1, 3, 4, 5])
  {
    var ops, at, es, ks := PiSpPuts(), [0, 52, 68, 72, 76, 92, 112], PiSpEntries(), [0, 1, 3, 4, 5];
    forall k | 0 <= k < |ops| ensures at[k + 1] == at[k] + Size(ops[k]) {
    }
    forall i | 0 <= i < |es|
      ensures ks[i] < |ops| && ops[ks[i]] == StepFor(es[i]) && es[i].offset == 76 + at[ks[i]]
    {
    }
  }

  lemma InterfacePlaces()
    ensures Places(InterfacePuts(), [0, 16, 76, 108, 148], 188, InterfaceEntries(), [0, 1, 2, 3])
  {
    var ops, at, es, ks := InterfacePuts(), [0, 16, 76, 108, 148], InterfaceEntries(), [0, 1, 2, 3];
    forall k | 0 <= k < |ops| ensures at[k + 1] == at[k] + Size(ops[k]) {
    }
    forall i | 0 <= i < |es|
      ensures ks[i] < |ops| && ops[ks[i]] == StepFor(es[i]) && es[i].offset == 188 + at[ks[i]]
    {
    }
  }

  lemma DpPlaces()
    ensures Places(DpPuts(), [0, 12, 16, 20, 32, 48, 64], 336, DpEntries(), [0, 2, 3, 4, 5])
  {
    var ops, at, es, ks := DpPuts(), [0, 12, 16, 20, 32, 48, 64], DpEntries(), [0, 2, 3, 4, 5];
    forall k | 0 <= k < |ops| ensures at[k + 1] == at[k] + Size(ops[k]) {
    }
    forall i | 0 <= i < |es|
      ensures ks[i] < |ops| && ops[ks[i]] == StepFor(es[i]) && es[i].offset == 336 + at[ks[i]]
    {
    }
  }

  lemma MemoryPlaces()
    ensures Places(MemoryPuts(), MemoryTable, 400, MemoryEntries(), [0, 1, 2, 3, 5, 6])
  {
    var ops, at, es, ks := MemoryPuts(), MemoryTable, MemoryEntries(), [0, 1, 2, 3, 5, 6];
    forall k | 0 <= k < |ops| ensures at[k + 1] == at[k] + Size(ops[k]) {
    }
    forall i | 0 <= i < |es|
      ensures ks[i] < |ops| && ops[ks[i]] == StepFor(es[i]) && es[i].offset == 400 + at[ks[i]]
    {
    }
  }

  lemma CpuPlaces()
    ensures Places(CpuPuts(), [0, 4, 260, 388, 404, 660, 668], 16785896, CpuEntries(), [0, 1, 2, 3, 4, 5])
  {
    var ops, at, es, ks := CpuPuts(), [0, 4, 260, 388, 404, 660, 668], CpuEntries(), [0, 1, 2, 3, 4, 5];
    forall k | 0 <= k < |ops| ensures at[k + 1] == at[k] + Size(ops[k]) {
    }
    forall i | 0 <= i < |es|
      ensures ks[i] < |ops| && ops[ks[i]] == StepFor(es[i]) && es[i].offset == 16785896 + at[ks[i]]
    {
    }
  }

  lemma EndPlaces()
    ensures Places(EndPuts(), [0, 8, 12, 16], 16788228, EndEntries(), [0, 2])
  {
    var ops, at, es, ks := EndPuts(), [0, 8, 12, 16], EndEntries(), [0, 2];
    forall k | 0 <= k < |ops| ensures at[k + 1] == at[k] + Size(ops[k]) {
    }
    forall i | 0 <= i < |es|
      ensures ks[i] < |ops| && ops[ks[i]] == StepFor(es[i]) && es[i].offset == 16788228 + at[ks[i]]
    {
    }
  }

  lemma TlbPlaces(i: nat)
    ensures Places(TlbPuts(i), TlbTable, 16786564 + 52 * i, TlbEntries(i),
                   [0, 2, 3, 5, 6, 8, 9, 10])
  {
    var ops, at, es, ks := TlbPuts(i), TlbTable, TlbEntries(i), [0, 2, 3, 5, 6, 8, 9, 10];
    forall k | 0 <= k < |ops| ensures at[k + 1] == at[k] + Size(ops[k]) {
    }
    forall k | 0 <= k < |es|
      ensures ks[k] < |ops| && ops[ks[k]] == StepFor(es[k]) && es[k].offset == 16786564 + 52 * i + at[ks[k]]
    {
    }
  }

  // ------------------------------------------------------------ the parts behind the main block

  /** The parts of the event queue and the extra block, each standing at `at`. */
  datatype Part = QueuePart | StartPart | PakPart(port: nat) | CartPart(port: nat) | StatusPart | ModulePart(chip: nat)
                | DrivePart | JalPart | DmaPart | FlashPart | LatchPart

  function PartPuts(p: Part): seq<Op> {
    match p
    case QueuePart => QueuePuts(true)
    case StartPart => ExtraPuts()
    case PakPart(i) => PakPuts(i)
    case CartPart(i) => CartPuts(i)
    case StatusPart => StatusPuts()
    case ModulePart(i) => ModulePuts(i)
    case DrivePart => DdPuts(true)
    case JalPart => JalPuts(true)
    case DmaPart => DmaPuts()
    case FlashPart => FlashPuts()
    case LatchPart => LatchPuts()
  }

  function PartEntries(p: Part, at: nat): seq<Entry> {
    match p
    case QueuePart => [Image(at, 4, Queue, 256), Row(at + 1024, 4, [UsingTlb])]
    case StartPart =>
      [ Row(at, 4, [AiLastRead, AiDelayedCarry, RomLastWrite]),
        Row(at + 20, 2, [AfRtc(RtcControl)]),
        Row(at + 24, 8, [AfRtc(Now), AfRtc(LastUpdate)]),
        Row(at + 40, 1, [Controller(0), Controller(1), Controller(2), Controller(3)]) ]
    case PakPart(i) => [Row(at, 4, [Pak(i, Enabled), Pak(i, PakField.Bank), Pak(i, CartEnabled), Pak(i, ResetState)])]
    case CartPart(i) =>
      [ Row(at, 4, [GbCart(i, RomBank), GbCart(i, RamBank), GbCart(i, RamEnable), GbCart(i, Mbc1Mode),
                    GbCart(i, Latch)]),
        Row(at + 20, 8, [GbCart(i, LastTime)]),
        Image(at + 28, 1, GbCart(i, RtcRegs), 5),
        Image(at + 33, 1, GbCart(i, LatchedRegs), 5),
        Image(at + 38, 1, GbCart(i, CamRegs), 54) ]
    case StatusPart => [Row(at, 1, [SiDmaDir, DoOnUnfreeze]), Row(at + 2, 4, [ViCountPerScanline])]
    case ModulePart(i) =>
      [ Row(at, 4, [Rdram(i, Config), Rdram(i, DeviceId), Rdram(i, Delay), Rdram(i, Mode), Rdram(i, RefInterval),
                    Rdram(i, RefRow), Rdram(i, RasInterval), Rdram(i, MinInterval), Rdram(i, AddrSelect),
                    Rdram(i, DeviceManuf)]) ]
    case DrivePart =>
      [ Row(at, 4, [Dd(Reg(Data)), Dd(Reg(Misc)), Dd(Reg(CmdStatus)), Dd(Reg(CurTk)), Dd(Reg(BmStatusCtl)),
                    Dd(Reg(ErrSector)), Dd(Reg(SeqStatusCtl)), Dd(Reg(CurSector)), Dd(Reg(HardReset)),
                    Dd(Reg(C1S0)), Dd(Reg(HostSecbyte)), Dd(Reg(C1S2)), Dd(Reg(SecByte)), Dd(Reg(C1S4)),
                    Dd(Reg(C1S6)), Dd(Reg(CurAddr)), Dd(Reg(IdReg)), Dd(Reg(TestReg)), Dd(Reg(TestPinSel))]),
        Image(at + 76, 1, Dd(DsBuf), 256),
        Image(at + 332, 1, Dd(MsRam), 64),
        Row(at + 396, 8, [Dd(DdNow), Dd(DdLastUpdate)]),
        Widened(at + 412, Dd(BmWrite)),
        Widened(at + 416, Dd(BmResetHeld)),
        Row(at + 424, 4, [Dd(BmZone)]) ]
    case JalPart => [Row(at, 4, [StopAfterJal])]
    case DmaPart =>
      [ Row(at, 4, [SpDma(0, Dir), SpDma(0, DmaLength), SpDma(0, DmaMemAddr), SpDma(0, DmaDramAddr),
                    SpDma(1, Dir), SpDma(1, DmaLength), SpDma(1, DmaMemAddr), SpDma(1, DmaDramAddr)]) ]
    case FlashPart =>
      [ Image(at, 1, Flash(PageBuf), 128),
        Image(at + 128, 4, Flash(SiliconId), 2),
        Row(at + 136, 4, [Flash(FlashStatus)]),
        Row(at + 140, 2, [Flash(ErasePage), Flash(FlashMode)]) ]
    case LatchPart => [Row(at, 8, [Cp0Latch, Cp2Latch])]
  }

  function PartTable(p: Part): seq<int> {
    match p
    case QueuePart => [0, 1024, 1028]
    case StartPart => [0, 12, 16, 20, 22, 24, 40, 44]
    case PakPart(_) => [0, 16]
    case CartPart(_) => [0, 20, 28, 33, 38, 92]
    case StatusPart => [0, 2, 6]
    case ModulePart(_) => [0, 40]
    case DrivePart => [0, 76, 332, 396, 412, 416, 420, 424, 428, 432]
    case JalPart => [0, 4]
    case DmaPart => [0, 32]
    case FlashPart => [0, 128, 136, 140, 144]
    case LatchPart => [0, 16]
  }

  function PartSteps(p: Part): seq<nat> {
    match p
    case StartPart => [0, 3, 5, 6]
    case CartPart(_) => [0, 1, 2, 3, 4]
    case DrivePart => [0, 1, 2, 3, 4, 5, 7]
    case FlashPart => [0, 1, 2, 3]
    case QueuePart => [0, 1]
    case StatusPart => [0, 1]
    case _ => [0]
  }

  ghost predicate Placed(p: Part, at: nat) { Places(PartPuts(p), PartTable(p), at, PartEntries(p, at), PartSteps(p)) }

  lemma QueuePartPlaces(at: nat)
    ensures Placed(QueuePart, at)
  {
  }

  lemma StartPartPlaces(at: nat)
    ensures Placed(StartPart, at)
  {
    var p := StartPart;
    var ops, table, es, ks := PartPuts(p), PartTable(p), PartEntries(p, at), PartSteps(p);
    forall k | 0 <= k < |ops| ensures table[k + 1] == table[k] + Size(ops[k]) {
    }
    forall k | 0 <= k < |es|
      ensures ks[k] < |ops| && ops[ks[k]] == StepFor(es[k]) && es[k].offset == at + table[ks[k]]
    {
    }
  }

  lemma PakPartPlaces(i: nat, at: nat)
    ensures Placed(PakPart(i), at)
  {
  }

  lemma CartPartPlaces(i: nat, at: nat)
    ensures Placed(CartPart(i), at)
  {
    var p := CartPart(i);
    var ops, table, es, ks := PartPuts(p), PartTable(p), PartEntries(p, at), PartSteps(p);
    forall k | 0 <= k < |ops| ensures table[k + 1] == table[k] + Size(ops[k]) {
    }
    forall k | 0 <= k < |es|
      ensures ks[k] < |ops| && ops[ks[k]] == StepFor(es[k]) && es[k].offset == at + table[ks[k]]
    {
    }
  }

  lemma StatusPartPlaces(at: nat)
    ensures Placed(StatusPart, at)
  {
  }

  lemma ModulePartPlaces(i: nat, at: nat)
    ensures Placed(ModulePart(i), at)
  {
  }

  lemma DrivePartPlaces(at: nat)
    ensures Placed(DrivePart, at)
  {
    var p := DrivePart;
    var ops, table, es, ks := PartPuts(p), PartTable(p), PartEntries(p, at), PartSteps(p);
    forall k | 0 <= k < |ops| ensures table[k + 1] == table[k] + Size(ops[k]) {
    }
    forall k | 0 <= k < |es|
      ensures ks[k] < |ops| && ops[ks[k]] == StepFor(es[k]) && es[k].offset == at + table[ks[k]]
    {
    }
  }

  lemma JalPartPlaces(at: nat)
    ensures Placed(JalPart, at)
  {
  }

  lemma DmaPartPlaces(at: nat)
    ensures Placed(DmaPart, at)
  {
  }

  lemma FlashPartPlaces(at: nat)
    ensures Placed(FlashPart, at)
  {
    var p := FlashPart;
    var ops, table, es, ks := PartPuts(p), PartTable(p), PartEntries(p, at), PartSteps(p);
    forall k | 0 <= k < |ops| ensures table[k + 1] == table[k] + Size(ops[k]) {
    }
    forall k | 0 <= k < |es|
      ensures ks[k] < |ops| && ops[ks[k]] == StepFor(es[k]) && es[k].offset == at + table[ks[k]]
    {
    }
  }

  lemma LatchPartPlaces(at: nat)
    ensures Placed(LatchPart, at)
  {
  }

  lemma PartPlaces(p: Part, at: nat)
    ensures Placed(p, at)
  {
    match p
    case QueuePart => QueuePartPlaces(at);
    case StartPart => StartPartPlaces(at);
    case PakPart(i) => PakPartPlaces(i, at);
    case CartPart(i) => CartPartPlaces(i, at);
    case StatusPart => StatusPartPlaces(at);
    case ModulePart(i) => ModulePartPlaces(i, at);
    case DrivePart => DrivePartPlaces(at);
    case JalPart => JalPartPlaces(at);
    case DmaPart => DmaPartPlaces(at);
    case FlashPart => FlashPartPlaces(at);
    case LatchPart => LatchPartPlaces(at);
  }

  /** Wherever a part stands, each of its numbers stands at its offset from there. */
  lemma PartLayout(m: Slots, x: seq<Byte>, p: Part, at: nat)
    requires ItemAt(x, at, EncodeAll(m, PartPuts(p)))
    ensures forall e :: e in PartEntries(p, at) ==> Holding(m, x, e)
  {
    PartPlaces(p, at);
    ListHolds(m, x, PartPuts(p), PartTable(p), at, PartEntries(p, at), PartSteps(p));
  }

  // ------------------------------------------------------------ the main block and the file

  lemma {:induction false} EncodeAppend(m: Slots, a: seq<Op>, b: seq<Op>)
    ensures EncodeAll(m, a + b) == EncodeAll(m, a) + EncodeAll(m, b)
  {
    if a == [] {
      assert a + b == b;
    } else {
      assert (a + b)[1..] == a[1..] + b;
      EncodeAppend(m, a[1..], b);
      Assoc(Encode(m, a[0]), EncodeAll(m, a[1..]), EncodeAll(m, b));
    }
  }

  function MainBytes(m: Slots): (r: seq<Byte>)
    ensures |r| == MainSize
  {
    MainAgrees(32);
    EncodeAll(m, MainPuts(32))
  }

  lemma EightParts(a: seq<Byte>, b: seq<Byte>, c: seq<Byte>, d: seq<Byte>, e: seq<Byte>, f: seq<Byte>, g: seq<Byte>,
                   h: seq<Byte>)
    requires |a| == 76 && |b| == 112 && |c| == 148 && |d| == 64 && |e| == 16785496 && |f| == 668 && |g| == 1664
    ensures var x := a + b + c + d + e + f + g + h;
            && ItemAt(x, 0, a) && ItemAt(x, 76, b) && ItemAt(x, 188, c) && ItemAt(x, 336, d)
            && ItemAt(x, 400, e) && ItemAt(x, 16785896, f) && ItemAt(x, 16786564, g) && ItemAt(x, 16788228, h)
  {
  }

  function Sizes(parts: seq<seq<Op>>): seq<nat> {
    seq(|parts|, i requires 0 <= i < |parts| => SizeAll(parts[i]))
  }

  lemma SevenSizes(a: seq<Op>, b: seq<Op>, c: seq<Op>, d: seq<Op>, e: seq<Op>, f: seq<Op>, g: seq<Op>)
    ensures Sizes([a, b, c, d, e, f, g]) ==
            [SizeAll(a), SizeAll(b), SizeAll(c), SizeAll(d), SizeAll(e), SizeAll(f), SizeAll(g)]
  {
  }

  /** One of eight parts of a list of steps. */
  lemma PartIn(m: Slots, a: seq<Op>, b: seq<Op>, c: seq<Op>, d: seq<Op>, e: seq<Op>, f: seq<Op>, g: seq<Op>, h: seq<Op>,
               part: seq<Op>, base: nat)
    requires Sizes([a, b, c, d, e, f, g]) == [76, 112, 148, 64, 16785496, 668, 1664]
    requires || (part == a && base == 0) || (part == b && base == 76) || (part == c && base == 188)
             || (part == d && base == 336) || (part == e && base == 400) || (part == f && base == 16785896)
             || (part == g && base == 16786564) || (part == h && base == 16788228)
    ensures ItemAt(EncodeAll(m, a + b + c + d + e + f + g + h), base, EncodeAll(m, part))
  {
    SevenSizes(a, b, c, d, e, f, g);
    EncodeEight(m, a, b, c, d, e, f, g, h);
    EightParts(EncodeAll(m, a), EncodeAll(m, b), EncodeAll(m, c), EncodeAll(m, d), EncodeAll(m, e), EncodeAll(m, f),
               EncodeAll(m, g), EncodeAll(m, h));
  }

  lemma EncodeEight(m: Slots, a: seq<Op>, b: seq<Op>, c: seq<Op>, d: seq<Op>, e: seq<Op>, f: seq<Op>, g: seq<Op>,
                    h: seq<Op>)
    ensures EncodeAll(m, a + b + c + d + e + f + g + h) ==
            EncodeAll(m, a) + EncodeAll(m, b) + EncodeAll(m, c) + EncodeAll(m, d) + EncodeAll(m, e) + EncodeAll(m, f)
            + EncodeAll(m, g) + EncodeAll(m, h)
  {
    EncodeAppend(m, a, b);
    EncodeAppend(m, a + b, c);
    EncodeAppend(m, a + b + c, d);
    EncodeAppend(m, a + b + c + d, e);
    EncodeAppend(m, a + b + c + d + e, f);
    EncodeAppend(m, a + b + c + d + e + f, g);
    EncodeAppend(m, a + b + c + d + e + f + g, h);
  }

  lemma PartSizes()
    ensures Sizes([RegisterPuts(), PiSpPuts(), InterfacePuts(), DpPuts(), MemoryPuts(), CpuPuts(), TlbsPuts(32)]) ==
            [76, 112, 148, 64, 16785496, 668, 1664]
  {
    RegistersSize();
    PiSpSize();
    InterfacesSize();
    DpSize();
    MemorySize();
    CpuSize();
    TlbsAgree(32);
    SevenSizes(RegisterPuts(), PiSpPuts(), InterfacePuts(), DpPuts(), MemoryPuts(), CpuPuts(), TlbsPuts(32));
  }

  lemma RegisterInMain(m: Slots)
    ensures ItemAt(EncodeAll(m, MainPuts(32)), 0, EncodeAll(m, RegisterPuts()))
  {
    PartSizes();
    PartIn(m, RegisterPuts(), PiSpPuts(), InterfacePuts(), DpPuts(), MemoryPuts(), CpuPuts(), TlbsPuts(32), EndPuts(),
           RegisterPuts(), 0);
  }

  lemma RegisterHolds(m: Slots)
    ensures forall e :: e in RegisterEntries() ==> Holding(m, MainBytes(m), e)
  {
    RegisterInMain(m);
    RegisterPlaces();
    ListHolds(m, MainBytes(m), RegisterPuts(), [0, 40, 44, 48, 52, 64, 68, 76], 0, RegisterEntries(), [0, 2, 3, 4, 6]);
  }

  lemma PiSpInMain(m: Slots)
    ensures ItemAt(EncodeAll(m, MainPuts(32)), 76, EncodeAll(m, PiSpPuts()))
  {
    PartSizes();
    PartIn(m, RegisterPuts(), PiSpPuts(), InterfacePuts(), DpPuts(), MemoryPuts(), CpuPuts(), TlbsPuts(32), EndPuts(),
           PiSpPuts(), 76);
  }

  lemma PiSpHolds(m: Slots)
    ensures forall e :: e in PiSpEntries() ==> Holding(m, MainBytes(m), e)
  {
    PiSpInMain(m);
    PiSpPlaces();
    ListHolds(m, MainBytes(m), PiSpPuts(), [0, 52, 68, 72, 76, 92, 112], 76, PiSpEntries(), [0, 1, 3, 4, 5]);
  }

  lemma InterfaceInMain(m: Slots)
    ensures ItemAt(EncodeAll(m, MainPuts(32)), 188, EncodeAll(m, InterfacePuts()))
  {
    PartSizes();
    PartIn(m, RegisterPuts(), PiSpPuts(), InterfacePuts(), DpPuts(), MemoryPuts(), CpuPuts(), TlbsPuts(32), EndPuts(),
           InterfacePuts(), 188);
  }

  lemma InterfaceHolds(m: Slots)
    ensures forall e :: e in InterfaceEntries() ==> Holding(m, MainBytes(m), e)
  {
    InterfaceInMain(m);
    InterfacePlaces();
    ListHolds(m, MainBytes(m), InterfacePuts(), [0, 16, 76, 108, 148], 188, InterfaceEntries(), [0, 1, 2, 3]);
  }

  lemma DpInMain(m: Slots)
    ensures ItemAt(EncodeAll(m, MainPuts(32)), 336, EncodeAll(m, DpPuts()))
  {
    PartSizes();
    PartIn(m, RegisterPuts(), PiSpPuts(), InterfacePuts(), DpPuts(), MemoryPuts(), CpuPuts(), TlbsPuts(32), EndPuts(),
           DpPuts(), 336);
  }

  lemma DpHolds(m: Slots)
    ensures forall e :: e in DpEntries() ==> Holding(m, MainBytes(m), e)
  {
    DpInMain(m);
    DpPlaces();
    ListHolds(m, MainBytes(m), DpPuts(), [0, 12, 16, 20, 32, 48, 64], 336, DpEntries(), [0, 2, 3, 4, 5]);
  }

  lemma MemoryInMain(m: Slots)
    ensures ItemAt(EncodeAll(m, MainPuts(32)), 400, EncodeAll(m, MemoryPuts()))
  {
    PartSizes();
    PartIn(m, RegisterPuts(), PiSpPuts(), InterfacePuts(), DpPuts(), MemoryPuts(), CpuPuts(), TlbsPuts(32), EndPuts(),
           MemoryPuts(), 400);
  }

  lemma MemoryHolds(m: Slots)
    ensures forall e :: e in MemoryEntries() ==> Holding(m, MainBytes(m), e)
  {
    MemoryInMain(m);
    MemoryPlaces();
    ListHolds(m, MainBytes(m), MemoryPuts(), MemoryTable, 400, MemoryEntries(), [0, 1, 2, 3, 5, 6]);
  }

  lemma CpuInMain(m: Slots)
    ensures ItemAt(EncodeAll(m, MainPuts(32)), 16785896, EncodeAll(m, CpuPuts()))
  {
    PartSizes();
    PartIn(m, RegisterPuts(), PiSpPuts(), InterfacePuts(), DpPuts(), MemoryPuts(), CpuPuts(), TlbsPuts(32), EndPuts(),
           CpuPuts(), 16785896);
  }

  lemma CpuHolds(m: Slots)
    ensures forall e :: e in CpuEntries() ==> Holding(m, MainBytes(m), e)
  {
    CpuInMain(m);
    CpuPlaces();
    ListHolds(m, MainBytes(m), CpuPuts(), [0, 4, 260, 388, 404, 660, 668], 16785896, CpuEntries(), [0, 1, 2, 3, 4, 5]);
  }

  lemma EndInMain(m: Slots)
    ensures ItemAt(EncodeAll(m, MainPuts(32)), 16788228, EncodeAll(m, EndPuts()))
  {
    PartSizes();
    PartIn(m, RegisterPuts(), PiSpPuts(), InterfacePuts(), DpPuts(), MemoryPuts(), CpuPuts(), TlbsPuts(32), EndPuts(),
           EndPuts(), 16788228);
  }

  lemma EndHolds(m: Slots)
    ensures forall e :: e in EndEntries() ==> Holding(m, MainBytes(m), e)
  {
    EndInMain(m);
    EndPlaces();
    ListHolds(m, MainBytes(m), EndPuts(), [0, 8, 12, 16], 16788228, EndEntries(), [0, 2]);
  }

  lemma TlbsInMain(m: Slots)
    ensures ItemAt(EncodeAll(m, MainPuts(32)), 16786564, EncodeAll(m, TlbsPuts(32)))
  {
    PartSizes();
    PartIn(m, RegisterPuts(), PiSpPuts(), InterfacePuts(), DpPuts(), MemoryPuts(), CpuPuts(), TlbsPuts(32), EndPuts(),
           TlbsPuts(32), 16786564);
  }

  lemma TlbsLength(n: nat)
    ensures SizeAll(TlbsPuts(n)) == 52 * n
  {
    TlbsAgree(n);
  }

  /** `turns(n)` are the first `n` turns of a loop, each of `size` bytes. */
  ghost predicate Loop(turn: nat -> seq<Op>, turns: nat -> seq<Op>, size: nat) {
    forall k: nat {:trigger turn(k)} :: turns(k + 1) == turns(k) + turn(k) && SizeAll(turns(k)) == size * k
  }

  lemma {:induction false} TurnIn(m: Slots, turn: nat -> seq<Op>, turns: nat -> seq<Op>, size: nat, n: nat, i: nat)
    requires i < n && Loop(turn, turns, size)
    ensures ItemAt(EncodeAll(m, turns(n)), size * i, EncodeAll(m, turn(i)))
    decreases n
  {
    var before, last, item := turns(n - 1), turn(n - 1), EncodeAll(m, turn(i));
    assert turns(n) == before + last && SizeAll(before) == size * (n - 1);
    if i < n - 1 { TurnIn(m, turn, turns, size, n - 1, i); }
    OneMore(m, before, last, size * i, item);
  }

  lemma OneMore(m: Slots, ops: seq<Op>, more: seq<Op>, off: nat, item: seq<Byte>)
    requires ItemAt(EncodeAll(m, ops), off, item) || (off == SizeAll(ops) && item == EncodeAll(m, more))
    ensures ItemAt(EncodeAll(m, ops + more), off, item)
  {
    var x, y := EncodeAll(m, ops), EncodeAll(m, more);
    EncodeAppend(m, ops, more);
    if ItemAt(x, off, item) {
      ItemFront(x, y, off, item);
    } else {
      ItemWhole(y);
      ItemBack(x, y, 0, y);
    }
  }

  lemma TlbLoop()
    ensures Loop((k: nat) => TlbPuts(k), (k: nat) => TlbsPuts(k), 52)
  {
    forall k: nat ensures TlbsPuts(k + 1) == TlbsPuts(k) + TlbPuts(k) && SizeAll(TlbsPuts(k)) == 52 * k {
      TlbsLength(k);
    }
  }

  lemma TlbFrom(m: Slots, x: seq<Byte>, n: nat, i: nat)
    requires i < n && ItemAt(x, 16786564, EncodeAll(m, TlbsPuts(n)))
    ensures ItemAt(x, 16786564 + 52 * i, EncodeAll(m, TlbPuts(i)))
  {
    TlbLoop();
    TurnIn(m, (k: nat) => TlbPuts(k), (k: nat) => TlbsPuts(k), 52, n, i);
    ItemWithin(x, 16786564, EncodeAll(m, TlbsPuts(n)), 52 * i, EncodeAll(m, TlbPuts(i)));
  }

  lemma TlbHolds(m: Slots, x: seq<Byte>, i: nat)
    requires ItemAt(x, 16786564 + 52 * i, EncodeAll(m, TlbPuts(i)))
    ensures forall e :: e in TlbEntries(i) ==> Holding(m, x, e)
  {
    TlbPlaces(i);
    ListHolds(m, x, TlbPuts(i), TlbTable, 16786564 + 52 * i, TlbEntries(i),
              [0, 2, 3, 5, 6, 8, 9, 10]);
  }

  /** Everything the main block holds, by absolute offset. */
  ghost predicate InMain(e: Entry) {
    || e in RegisterEntries() || e in PiSpEntries() || e in InterfaceEntries() || e in DpEntries()
    || e in MemoryEntries() || e in CpuEntries() || e in EndEntries() || exists i :: 0 <= i < 32 && e in TlbEntries(i)
  }

  /** Behind the 44 bytes of the header every number of the main block stands at its offset. */
  lemma FileLayout(u: Setup, st: State, e: Entry)
    requires ValidSetup(u) && |st.channels| == 5 && InMain(e)
    ensures Save(u, st)[44..44 + MainSize] == MainBytes(st.slots) && Holding(st.slots, MainBytes(st.slots), e)
  {
    MainInFile(u, st);
    EntryHolds(st.slots, e);
  }

  lemma MainInFile(u: Setup, st: State)
    requires ValidSetup(u) && |st.channels| == 5
    ensures ItemAt(Save(u, st), 44, MainBytes(st.slots))
  {
    var x, y := MainBytes(st.slots), EncodeAll(st.slots, QueuePuts(u.dynarec)) + ExtraBytes(u, st);
    ItemWhole(x);
    ItemFront(x, y, 0, x);
    ItemBack(Header(u), x + y, 0, x);
  }

  lemma OneTlbHolds(m: Slots, i: nat)
    requires i < 32
    ensures forall e :: e in TlbEntries(i) ==> Holding(m, MainBytes(m), e)
  {
    TlbsInMain(m);
    var x := MainBytes(m);
    TlbFrom(m, x, 32, i);
    TlbHolds(m, x, i);
  }

  lemma EntryHolds(m: Slots, e: Entry)
    requires InMain(e)
    ensures Holding(m, MainBytes(m), e)
  {
    if e in RegisterEntries() { RegisterHolds(m); }
    else if e in PiSpEntries() { PiSpHolds(m); }
    else if e in InterfaceEntries() { InterfaceHolds(m); }
    else if e in DpEntries() { DpHolds(m); }
    else if e in MemoryEntries() { MemoryHolds(m); }
    else if e in CpuEntries() { CpuHolds(m); }
    else if e in EndEntries() { EndHolds(m); }
    else {
      var i :| 0 <= i < 32 && e in TlbEntries(i);
      OneTlbHolds(m, i);
    }
  }
}
