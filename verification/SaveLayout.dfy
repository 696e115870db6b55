/**
 * How save states are laid out (src/main/savestates.c): the fields of the
 * device, the steps by which a moving cursor writes and reads them, and the
 * round trip for any two lists of steps that match.
 */
module SaveLayout {
  import opened Common

  // ---------------------------------------------------------------- fields

  datatype RdramReg = Config | DeviceId | Delay | Mode | RefInterval | RefRow | RasInterval
                    | MinInterval | AddrSelect | DeviceManuf
  datatype MiReg = InitMode | Version | Intr | IntrMask
  datatype PiReg = DramAddr | CartAddr | RdLen | WrLen | Status
                 | Dom1Lat | Dom1Pwd | Dom1Pgs | Dom1Rls | Dom2Lat | Dom2Pwd | Dom2Pgs | Dom2Rls
  datatype SpReg = MemAddr | SpDramAddr | SpRdLen | SpWrLen | SpStatus
                 | DmaFull | DmaBusy | Semaphore | SpPc | Ibist
  datatype SiReg = SiDramAddr | PifAddrRd | PifAddrWr | SiStatus
  datatype ViReg = ViStatus | Origin | Width | VIntr | Current | Burst | VSync | HSync | Leap
                 | HStart | VStart | VBurst | XScale | YScale
  datatype RiReg = RiMode | RiConfig | CurrentLoad | Select | Refresh | Latency | RiError | Werror
  datatype AiReg = AiDramAddr | Len | Control | AiStatus | Dacrate | Bitrate
  datatype DpReg = Start | End | DpcCurrent | DpcStatus | Clock | BufBusy | PipeBusy | Tmem
                 | Tbist | TestMode | BuftestAddr | BuftestData
  datatype CpuField = Llbit | Gpr | Cp0 | MultLo | MultHi | Cp1 | Fcr0 | Fcr31
  datatype TlbField = Mask | Vpn2 | Global | Asid | PfnEven | CEven | DEven | VEven
                    | PfnOdd | COdd | DOdd | VOdd | Region
                    | StartEven | EndEven | PhysEven | StartOdd | EndOdd | PhysOdd
  datatype RtcField = RtcControl | Now | LastUpdate
  datatype PakField = Enabled | Bank | CartEnabled | ResetState
  datatype CartField = RomBank | RamBank | RamEnable | Mbc1Mode | Latch | LastTime
                     | RtcRegs | LatchedRegs | CamRegs
  datatype DdReg = Data | Misc | CmdStatus | CurTk | BmStatusCtl | ErrSector | SeqStatusCtl
                 | CurSector | HardReset | C1S0 | HostSecbyte | C1S2 | SecByte | C1S4 | C1S6
                 | CurAddr | IdReg | TestReg | TestPinSel
  datatype DdField = Reg(reg: DdReg) | DsBuf | MsRam | DdNow | DdLastUpdate
                   | BmWrite | BmResetHeld | BmZone
  datatype DmaField = Dir | DmaLength | DmaMemAddr | DmaDramAddr
  datatype FlashField = PageBuf | SiliconId | FlashStatus | ErasePage | FlashMode

  /** Every serialised piece of the device except the PIF channels. */
  datatype Slot =
    | Rdram(chip: nat, rdram: RdramReg)
    | Mi(mi: MiReg) | Pi(pi: PiReg) | Sp(sp: SpReg) | Si(si: SiReg)
    | Vi(vi: ViReg) | ViDelay | ViField | ViCountPerScanline
    | Ri(ri: RiReg)
    | Ai(ai: AiReg) | AiDuration(fifo: nat) | AiLength(fifo: nat) | AiLastRead | AiDelayedCarry
    | Dp(dp: DpReg)
    | Dram | SpMem | PifRam | UseFlashram | LutR | LutW
    | Cpu(cpu: CpuField) | Tlb(entry: nat, tlb: TlbField) | Pc | NextInterrupt
    | Queue | UsingTlb
    | RomLastWrite | AfRtc(rtc: RtcField)
    | Controller(port: nat) | Rumble(port: nat) | Pak(port: nat, pak: PakField)
    | GbCart(port: nat, cart: CartField)
    | SiDmaDir | DoOnUnfreeze
    | Dd(dd: DdField) | StopAfterJal
    | SpDma(fifo: nat, dma: DmaField) | Flash(flash: FlashField)
    | Cp0Latch | Cp2Latch

  /** A device: each slot holds its elements, as unsigned bit patterns. */
  type Slots = map<Slot, seq<nat>>

  function Value(m: Slots, s: Slot): (v: seq<nat>) {
    if s in m then m[s] else []
  }

  function First(m: Slots, s: Slot): (v: nat) {
    if |Value(m, s)| > 0 then Value(m, s)[0] else 0
  }

  // ------------------------------------------------- little-endian numbers

  function Pow256(w: nat): (r: nat)
    ensures r > 0
  {
    if w == 0 then 1 else 256 * Pow256(w - 1)
  }

  function Little(v: nat, w: nat): (r: seq<Byte>)
    ensures |r| == w
  {
    if w == 0 then [] else [v % 256] + Little(v / 256, w - 1)
  }

  function Number(b: seq<Byte>): (v: nat)
    ensures v < Pow256(|b|)
  {
    if b == [] then 0 else b[0] + 256 * Number(b[1..])
  }

  lemma {:induction false} NumberOfLittle(v: nat, w: nat)
    requires v < Pow256(w)
    ensures Number(Little(v, w)) == v
  {
    if w > 0 {
      assert Little(v, w)[1..] == Little(v / 256, w - 1);
      NumberOfLittle(v / 256, w - 1);
    }
  }

  function Pack(vs: seq<nat>, w: nat): (r: seq<Byte>)
    ensures |r| == w * |vs|
  {
    if vs == [] then [] else
      assert w * |vs| == w + w * |vs[1..]|;
      Little(vs[0], w) + Pack(vs[1..], w)
  }

  function Unpack(b: seq<Byte>, w: nat, n: nat): (vs: seq<nat>)
    requires |b| == w * n
    ensures |vs| == n
  {
    if n == 0 then [] else
      assert w * n == w + w * (n - 1);
      [Number(b[..w])] + Unpack(b[w..], w, n - 1)
  }

  lemma {:induction false} UnpackOfPack(vs: seq<nat>, w: nat)
    requires forall k :: 0 <= k < |vs| ==> vs[k] < Pow256(w)
    ensures Unpack(Pack(vs, w), w, |vs|) == vs
  {
    if vs != [] {
      var b := Pack(vs, w);
      assert w * |vs| == w + w * (|vs| - 1);
      assert b[..w] == Little(vs[0], w) && b[w..] == Pack(vs[1..], w);
      NumberOfLittle(vs[0], w);
      UnpackOfPack(vs[1..], w);
    }
  }

  // ------------------------------------------------------------ operations

  /** Bytes that only old versions used: padding, and bits of a register spread over bytes. */
  datatype Mark = Zero(size: nat) | Low7(of: Slot) | Bits(of: Slot, low: nat, count: nat)

  /**
   * One step of the cursor.  `Fields`: one number of `width` bytes per slot;
   * `Block`: a slot of `count` numbers; `Wide`: a byte-sized slot kept in four
   * bytes; `Fill`: Bytes nobody reads; `Skip`: the cursor moves on.
   */
  datatype Op =
    | Fields(width: nat, slots: seq<Slot>)
    | Block(width: nat, slot: Slot, count: nat)
    | Wide(slot: Slot)
    | Fill(marks: seq<Mark>)
    | Skip(size: nat)

  function MarkSize(k: Mark): (r: nat) {
    match k
    case Zero(size) => size
    case Low7(_) => 1
    case Bits(_, _, count) => count
  }

  function MarksSize(ks: seq<Mark>): (r: nat) {
    if ks == [] then 0 else MarkSize(ks[0]) + MarksSize(ks[1..])
  }

  function Size(op: Op): (r: nat) {
    match op
    case Fields(width, slots) => width * |slots|
    case Block(width, _, count) => width * count
    case Wide(_) => 4
    case Fill(marks) => MarksSize(marks)
    case Skip(size) => size
  }

  function SizeAll(ops: seq<Op>): (r: nat) {
    if ops == [] then 0 else Size(ops[0]) + SizeAll(ops[1..])
  }

  function Zeros(n: nat): (r: seq<Byte>)
    ensures |r| == n
  {
    seq(n, k => 0)
  }

  function BitBytes(v: nat, count: nat): (r: seq<Byte>)
    ensures |r| == count
  {
    if count == 0 then [] else [v % 2] + BitBytes(v / 2, count - 1)
  }

  function Shift(v: nat, low: nat): (r: nat) {
    if low == 0 then v else Shift(v / 2, low - 1)
  }

  function MarkBytes(m: Slots, k: Mark): (r: seq<Byte>)
    ensures |r| == MarkSize(k)
  {
    match k
    case Zero(size) => Zeros(size)
    case Low7(of) => [First(m, of) % 128]
    case Bits(of, low, count) => BitBytes(Shift(First(m, of), low), count)
  }

  function MarksBytes(m: Slots, ks: seq<Mark>): (r: seq<Byte>)
    ensures |r| == MarksSize(ks)
  {
    if ks == [] then [] else MarkBytes(m, ks[0]) + MarksBytes(m, ks[1..])
  }

  /** The slot holds `n` numbers that fit in `w` bytes, as its C type has it. */
  ghost predicate Holds(m: Slots, s: Slot, w: nat, n: nat) {
    |Value(m, s)| == n && forall k :: 0 <= k < n ==> Value(m, s)[k] < Pow256(w)
  }

  ghost predicate Typed(m: Slots, op: Op) {
    match op
    case Fields(width, slots) => forall k :: 0 <= k < |slots| ==> Holds(m, slots[k], width, 1)
    case Block(width, slot, count) => Holds(m, slot, width, count)
    case Wide(slot) => Holds(m, slot, 1, 1)
    case Fill(_) => true
    case Skip(_) => true
  }

  ghost predicate TypedAll(m: Slots, ops: seq<Op>) {
    forall k :: 0 <= k < |ops| ==> Typed(m, ops[k])
  }

  function Firsts(m: Slots, slots: seq<Slot>): (r: seq<nat>)
    ensures |r| == |slots|
    ensures forall k :: 0 <= k < |slots| ==> r[k] == First(m, slots[k])
  {
    if slots == [] then [] else [First(m, slots[0])] + Firsts(m, slots[1..])
  }

  /** The first `n` elements, with zeros past the end. */
  function Sized(v: seq<nat>, n: nat): (r: seq<nat>)
    ensures |r| == n
    ensures |v| == n ==> r == v
  {
    if |v| >= n then v[..n] else v + seq(n - |v|, k => 0)
  }

  /** What the writer leaves at the cursor; skipped bytes keep the zeros the buffer started with. */
  function Encode(m: Slots, op: Op): (r: seq<Byte>)
    ensures |r| == Size(op)
  {
    match op
    case Fields(width, slots) => Pack(Firsts(m, slots), width)
    case Block(width, slot, count) => Pack(Sized(Value(m, slot), count), width)
    case Wide(slot) => Little(First(m, slot), 4)
    case Fill(marks) => MarksBytes(m, marks)
    case Skip(size) => Zeros(size)
  }

  function EncodeAll(m: Slots, ops: seq<Op>): (r: seq<Byte>)
    ensures |r| == SizeAll(ops)
  {
    if ops == [] then [] else Encode(m, ops[0]) + EncodeAll(m, ops[1..])
  }

  function Assign(m: Slots, slots: seq<Slot>, vs: seq<nat>): (r: Slots)
    requires |vs| == |slots|
    decreases |slots|
  {
    if slots == [] then m else Assign(m[slots[0] := [vs[0]]], slots[1..], vs[1..])
  }

  /** What the reader does with the bytes at the cursor. */
  function Decode(m: Slots, op: Op, b: seq<Byte>): (r: Slots)
    requires |b| == Size(op)
  {
    match op
    case Fields(width, slots) => Assign(m, slots, Unpack(b, width, |slots|))
    case Block(width, slot, count) => m[slot := Unpack(b, width, count)]
    case Wide(slot) => m[slot := [Number(b) % 256]]
    case Fill(_) => m
    case Skip(_) => m
  }

  function DecodeAll(m: Slots, ops: seq<Op>, b: seq<Byte>): (r: Slots)
    requires |b| >= SizeAll(ops)
    decreases |ops|
  {
    if ops == [] then m
    else DecodeAll(Decode(m, ops[0], b[..Size(ops[0])]), ops[1..], b[Size(ops[0])..])
  }

  // ------------------------------------------------------------ round trip

  /** The reader's step `g` takes back what the writer's step `p` put there. */
  predicate Match(p: Op, g: Op) {
    match g
    case Skip(size) => (p.Fill? || p.Skip?) && Size(p) == size
    case Fill(_) => false
    case _ => p == g
  }

  ghost predicate MatchAll(ps: seq<Op>, gs: seq<Op>) {
    |ps| == |gs| && forall k :: 0 <= k < |ps| ==> Match(ps[k], gs[k])
  }

  function SlotsOf(op: Op): (r: set<Slot>) {
    match op
    case Fields(_, slots) => set s | s in slots
    case Block(_, slot, _) => {slot}
    case Wide(slot) => {slot}
    case Fill(_) => {}
    case Skip(_) => {}
  }

  function SlotsAll(ops: seq<Op>): (r: set<Slot>) {
    if ops == [] then {} else SlotsOf(ops[0]) + SlotsAll(ops[1..])
  }

  /** `new` has the saved value in every slot of `which` and `old`'s value in every other. */
  ghost predicate Restored(saved: Slots, old_: Slots, new_: Slots, which: set<Slot>) {
    forall s {:trigger Value(new_, s)} ::
      Value(new_, s) == if s in which then Value(saved, s) else Value(old_, s)
  }

  lemma {:induction false} AssignRestores(saved: Slots, m: Slots, slots: seq<Slot>)
    requires forall k :: 0 <= k < |slots| ==> |Value(saved, slots[k])| == 1
    ensures Restored(saved, m, Assign(m, slots, Firsts(saved, slots)), set s | s in slots)
    decreases |slots|
  {
    if slots != [] {
      var vs := Firsts(saved, slots);
      assert vs[1..] == Firsts(saved, slots[1..]);
      assert [vs[0]] == Value(saved, slots[0]);
      assert slots == [slots[0]] + slots[1..];
      AssignRestores(saved, m[slots[0] := [vs[0]]], slots[1..]);
    }
  }

  lemma StepRoundTrip(saved: Slots, m: Slots, p: Op, g: Op)
    requires Match(p, g) && Typed(saved, p)
    ensures Size(p) == Size(g)
    ensures Restored(saved, m, Decode(m, g, Encode(saved, p)), SlotsOf(p))
  {
    match g
    case Fields(width, slots) =>
      forall k | 0 <= k < |slots| ensures Firsts(saved, slots)[k] < Pow256(width) {
        assert Holds(saved, slots[k], width, 1);
      }
      UnpackOfPack(Firsts(saved, slots), width);
      AssignRestores(saved, m, slots);
    case Block(width, slot, count) =>
      UnpackOfPack(Value(saved, slot), width);
    case Wide(slot) =>
      assert Value(saved, slot)[0] < Pow256(1) == 256 * Pow256(0);
      assert Pow256(4) == 256 * Pow256(3) && Pow256(3) == 256 * Pow256(2) && Pow256(2) == 256 * Pow256(1);
      NumberOfLittle(First(saved, slot), 4);
    case Skip(_) =>
  }

  lemma RestoredChain(saved: Slots, a: Slots, b: Slots, c: Slots, first: set<Slot>, second: set<Slot>)
    requires Restored(saved, a, b, first) && Restored(saved, b, c, second)
    ensures Restored(saved, a, c, first + second)
  {
    forall s ensures Value(c, s) == if s in first + second then Value(saved, s) else Value(a, s) {
      assert Value(b, s) == if s in first then Value(saved, s) else Value(a, s);
    }
  }

  lemma DecodeHead(m: Slots, gs: seq<Op>, x: seq<Byte>, y: seq<Byte>)
    requires gs != [] && |x| == Size(gs[0]) && |y| >= SizeAll(gs[1..])
    ensures DecodeAll(m, gs, x + y) == DecodeAll(Decode(m, gs[0], x), gs[1..], y)
  {
    assert (x + y)[..|x|] == x && (x + y)[|x|..] == y;
  }

  lemma Assoc(a: seq<Byte>, b: seq<Byte>, c: seq<Byte>)
    ensures (a + b) + c == a + (b + c)
  {
  }

  /** Whatever follows in the buffer, matching step lists restore exactly what was written. */
  lemma {:induction false} StepsRoundTrip(saved: Slots, m: Slots, ps: seq<Op>, gs: seq<Op>, rest: seq<Byte>)
    requires MatchAll(ps, gs) && TypedAll(saved, ps)
    ensures SizeAll(ps) == SizeAll(gs)
    ensures Restored(saved, m, DecodeAll(m, gs, EncodeAll(saved, ps) + rest), SlotsAll(ps))
    decreases |ps|
  {
    if ps != [] {
      var x, y := Encode(saved, ps[0]), EncodeAll(saved, ps[1..]) + rest;
      StepRoundTrip(saved, m, ps[0], gs[0]);
      var next := Decode(m, gs[0], x);
      StepsRoundTrip(saved, next, ps[1..], gs[1..], rest);
      DecodeHead(m, gs, x, y);
      Assoc(x, EncodeAll(saved, ps[1..]), rest);
      RestoredChain(saved, m, next, DecodeAll(next, gs[1..], y), SlotsOf(ps[0]), SlotsAll(ps[1..]));
    }
  }

  lemma {:induction false} SizeOfAppend(a: seq<Op>, b: seq<Op>)
    ensures SizeAll(a + b) == SizeAll(a) + SizeAll(b)
  {
    if a == [] {
      assert a + b == b;
    } else {
      assert (a + b)[1..] == a[1..] + b;
      SizeOfAppend(a[1..], b);
    }
  }

  /** Sizes from a table of offsets: step `k` starts at `at[k]`. */
  lemma {:induction false} SizeByOffsets(ops: seq<Op>, at: seq<int>)
    requires |at| == |ops| + 1
    requires forall k :: 0 <= k < |ops| ==> at[k + 1] == at[k] + Size(ops[k])
    ensures SizeAll(ops) == at[|ops|] - at[0]
  {
    if ops != [] {
      var tail, off := ops[1..], at[1..];
      assert forall k :: 0 <= k < |tail| ==> tail[k] == ops[k + 1] && off[k + 1] == at[k + 2];
      SizeByOffsets(tail, off);
    }
  }
}
