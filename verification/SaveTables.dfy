/**
 * The steps of the save-state writer and of the reader (src/main/savestates.c),
 * in two lists: `...Puts` are the steps of savestates_save_m64p, `...Gets` those
 * of savestates_load_m64p for versions 1.3 and later.  A field that is missing,
 * moved or resized in one list breaks the lemmas that the lists match.
 */
module SaveTables {
  import opened Common
  import opened SaveLayout

  // ------------------------------------------------------------ main block

  function RegisterPuts(): (r: seq<Op>) {
    [ Fields(4, [Rdram(0, Config), Rdram(0, DeviceId), Rdram(0, Delay), Rdram(0, Mode),
                 Rdram(0, RefInterval), Rdram(0, RefRow), Rdram(0, RasInterval),
                 Rdram(0, MinInterval), Rdram(0, AddrSelect), Rdram(0, DeviceManuf)]),
      Fill([Zero(4)]),
      Fields(4, [Mi(InitMode)]),
      Fill([Low7(Mi(InitMode)), Bits(Mi(InitMode), 7, 3)]),
      Fields(4, [Mi(Version), Mi(Intr), Mi(IntrMask)]),
      Fill([Zero(4)]),
      Fill([Bits(Mi(IntrMask), 0, 6), Zero(2)]) ]
  }

  function PiSpPuts(): (r: seq<Op>) {
    [ Fields(4, [Pi(DramAddr), Pi(CartAddr), Pi(RdLen), Pi(WrLen), Pi(Status),
                 Pi(Dom1Lat), Pi(Dom1Pwd), Pi(Dom1Pgs), Pi(Dom1Rls),
                 Pi(Dom2Lat), Pi(Dom2Pwd), Pi(Dom2Pgs), Pi(Dom2Rls)]),
      Fields(4, [Sp(MemAddr), Sp(SpDramAddr), Sp(SpRdLen), Sp(SpWrLen)]),
      Fill([Zero(4)]),
      Fields(4, [Sp(SpStatus)]),
      Fill([Bits(Sp(SpStatus), 0, 15), Zero(1)]),
      Fields(4, [Sp(DmaFull), Sp(DmaBusy), Sp(Semaphore), Sp(SpPc), Sp(Ibist)]) ]
  }

  function RegisterGets(): (r: seq<Op>) {
    [ Fields(4, [Rdram(0, Config), Rdram(0, DeviceId), Rdram(0, Delay), Rdram(0, Mode),
                 Rdram(0, RefInterval), Rdram(0, RefRow), Rdram(0, RasInterval),
                 Rdram(0, MinInterval), Rdram(0, AddrSelect), Rdram(0, DeviceManuf)]),
      Skip(4),
      Fields(4, [Mi(InitMode)]),
      Skip(4),
      Fields(4, [Mi(Version), Mi(Intr), Mi(IntrMask)]),
      Skip(4),
      Skip(8) ]
  }

  function PiSpGets(): (r: seq<Op>) {
    [ Fields(4, [Pi(DramAddr), Pi(CartAddr), Pi(RdLen), Pi(WrLen), Pi(Status),
                 Pi(Dom1Lat), Pi(Dom1Pwd), Pi(Dom1Pgs), Pi(Dom1Rls),
                 Pi(Dom2Lat), Pi(Dom2Pwd), Pi(Dom2Pgs), Pi(Dom2Rls)]),
      Fields(4, [Sp(MemAddr), Sp(SpDramAddr), Sp(SpRdLen), Sp(SpWrLen)]),
      Skip(4),
      Fields(4, [Sp(SpStatus)]),
      Skip(16),
      Fields(4, [Sp(DmaFull), Sp(DmaBusy), Sp(Semaphore), Sp(SpPc), Sp(Ibist)]) ]
  }

  function InterfacePuts(): (r: seq<Op>) {
    [ Fields(4, [Si(SiDramAddr), Si(PifAddrRd), Si(PifAddrWr), Si(SiStatus)]),
      Fields(4, [Vi(ViStatus), Vi(Origin), Vi(Width), Vi(VIntr), Vi(Current), Vi(Burst), Vi(VSync),
                 Vi(HSync), Vi(Leap), Vi(HStart), Vi(VStart), Vi(VBurst), Vi(XScale), Vi(YScale),
                 ViDelay]),
      Fields(4, [Ri(RiMode), Ri(RiConfig), Ri(CurrentLoad), Ri(Select), Ri(Refresh), Ri(Latency),
                 Ri(RiError), Ri(Werror)]),
      Fields(4, [Ai(AiDramAddr), Ai(Len), Ai(Control), Ai(AiStatus), Ai(Dacrate), Ai(Bitrate),
                 AiDuration(1), AiLength(1), AiDuration(0), AiLength(0)]) ]
  }

  function DpPuts(): (r: seq<Op>) {
    [ Fields(4, [Dp(Start), Dp(End), Dp(DpcCurrent)]),
      Fill([Zero(4)]),
      Fields(4, [Dp(DpcStatus)]),
      Fill([Bits(Dp(DpcStatus), 0, 11), Zero(1)]),
      Fields(4, [Dp(Clock), Dp(BufBusy), Dp(PipeBusy), Dp(Tmem)]),
      Fields(4, [Dp(Tbist), Dp(TestMode), Dp(BuftestAddr), Dp(BuftestData)]) ]
  }

  function InterfaceGets(): (r: seq<Op>) {
    [ Fields(4, [Si(SiDramAddr), Si(PifAddrRd), Si(PifAddrWr), Si(SiStatus)]),
      Fields(4, [Vi(ViStatus), Vi(Origin), Vi(Width), Vi(VIntr), Vi(Current), Vi(Burst), Vi(VSync),
                 Vi(HSync), Vi(Leap), Vi(HStart), Vi(VStart), Vi(VBurst), Vi(XScale), Vi(YScale),
                 ViDelay]),
      Fields(4, [Ri(RiMode), Ri(RiConfig), Ri(CurrentLoad), Ri(Select), Ri(Refresh), Ri(Latency),
                 Ri(RiError), Ri(Werror)]),
      Fields(4, [Ai(AiDramAddr), Ai(Len), Ai(Control), Ai(AiStatus), Ai(Dacrate), Ai(Bitrate),
                 AiDuration(1), AiLength(1), AiDuration(0), AiLength(0)]) ]
  }

  function DpGets(): (r: seq<Op>) {
    [ Fields(4, [Dp(Start), Dp(End), Dp(DpcCurrent)]),
      Skip(4),
      Fields(4, [Dp(DpcStatus)]),
      Skip(12),
      Fields(4, [Dp(Clock), Dp(BufBusy), Dp(PipeBusy), Dp(Tmem)]),
      Fields(4, [Dp(Tbist), Dp(TestMode), Dp(BuftestAddr), Dp(BuftestData)]) ]
  }

  function MemoryPuts(): (r: seq<Op>) {
    [ Block(4, Dram, 0x800000 / 4),
      Block(4, SpMem, 0x2000 / 4),
      Block(1, PifRam, 0x40),
      Fields(4, [UseFlashram]),
      Skip(4 + 8 + 4 + 4),
      Block(4, LutR, 0x100000),
      Block(4, LutW, 0x100000) ]
  }

  function CpuPuts(): (r: seq<Op>) {
    [ Fields(4, [Cpu(Llbit)]),
      Block(8, Cpu(Gpr), 32),
      Block(4, Cpu(Cp0), 32),
      Fields(8, [Cpu(MultLo), Cpu(MultHi)]),
      Block(8, Cpu(Cp1), 32),
      Fields(4, [Cpu(Fcr0), Cpu(Fcr31)]) ]
  }

  function MemoryGets(): (r: seq<Op>) {
    [ Block(4, Dram, 0x800000 / 4),
      Block(4, SpMem, 0x2000 / 4),
      Block(1, PifRam, 0x40),
      Fields(4, [UseFlashram]),
      Skip(4 + 8 + 4 + 4),
      Block(4, LutR, 0x100000),
      Block(4, LutW, 0x100000) ]
  }

  function CpuGets(): (r: seq<Op>) {
    [ Fields(4, [Cpu(Llbit)]),
      Block(8, Cpu(Gpr), 32),
      Block(4, Cpu(Cp0), 32),
      Fields(8, [Cpu(MultLo), Cpu(MultHi)]),
      Block(8, Cpu(Cp1), 32),
      Fields(4, [Cpu(Fcr0), Cpu(Fcr31)]) ]
  }

  function TlbPuts(i: nat): (r: seq<Op>) {
    [ Fields(2, [Tlb(i, Mask)]),
      Fill([Zero(2)]),
      Fields(4, [Tlb(i, Vpn2)]),
      Fields(1, [Tlb(i, Global), Tlb(i, Asid)]),
      Fill([Zero(2)]),
      Fields(4, [Tlb(i, PfnEven)]),
      Fields(1, [Tlb(i, CEven), Tlb(i, DEven), Tlb(i, VEven)]),
      Fill([Zero(1)]),
      Fields(4, [Tlb(i, PfnOdd)]),
      Fields(1, [Tlb(i, COdd), Tlb(i, DOdd), Tlb(i, VOdd), Tlb(i, Region)]),
      Fields(4, [Tlb(i, StartEven), Tlb(i, EndEven), Tlb(i, PhysEven),
                 Tlb(i, StartOdd), Tlb(i, EndOdd), Tlb(i, PhysOdd)]) ]
  }

  function TlbGets(i: nat): (r: seq<Op>) {
    [ Fields(2, [Tlb(i, Mask)]),
      Skip(2),
      Fields(4, [Tlb(i, Vpn2)]),
      Fields(1, [Tlb(i, Global), Tlb(i, Asid)]),
      Skip(2),
      Fields(4, [Tlb(i, PfnEven)]),
      Fields(1, [Tlb(i, CEven), Tlb(i, DEven), Tlb(i, VEven)]),
      Skip(1),
      Fields(4, [Tlb(i, PfnOdd)]),
      Fields(1, [Tlb(i, COdd), Tlb(i, DOdd), Tlb(i, VOdd), Tlb(i, Region)]),
      Fields(4, [Tlb(i, StartEven), Tlb(i, EndEven), Tlb(i, PhysEven),
                 Tlb(i, StartOdd), Tlb(i, EndOdd), Tlb(i, PhysOdd)]) ]
  }

  /** The first `n` iterations of the writer's loop over TLB entries. */
  function TlbsPuts(n: nat): (r: seq<Op>) {
    if n == 0 then [] else TlbsPuts(n - 1) + TlbPuts(n - 1)
  }

  function TlbsGets(n: nat): (r: seq<Op>) {
    if n == 0 then [] else TlbsGets(n - 1) + TlbGets(n - 1)
  }

  function EndPuts(): (r: seq<Op>) {
    [ Fields(4, [Pc, NextInterrupt]), Fill([Zero(4)]), Fields(4, [ViField]) ]
  }

  function EndGets(): (r: seq<Op>) {
    [ Fields(4, [Pc, NextInterrupt]), Skip(4), Fields(4, [ViField]) ]
  }

  /** `n`: the number of TLB entries. */
  function MainPuts(n: nat): (r: seq<Op>) {
    RegisterPuts() + PiSpPuts() + InterfacePuts() + DpPuts() + MemoryPuts() + CpuPuts() + TlbsPuts(n)
    + EndPuts()
  }

  function MainGets(n: nat): (r: seq<Op>) {
    RegisterGets() + PiSpGets() + InterfaceGets() + DpGets() + MemoryGets() + CpuGets() + TlbsGets(n)
    + EndGets()
  }

  const MainSize: nat := 16788244

  // ----------------------------------------------- event queue and TLB flag

  function QueuePuts(dynarec: bool): (r: seq<Op>) {
    [ Block(4, Queue, 256), if dynarec then Fields(4, [UsingTlb]) else Fill([Zero(4)]) ]
  }

  function QueueGets(dynarec: bool): (r: seq<Op>) {
    [ Block(4, Queue, 256), if dynarec then Fields(4, [UsingTlb]) else Skip(4) ]
  }

  // ----------------------------------------------------------- extra block

  function ExtraPuts(): (r: seq<Op>) {
    [ Fields(4, [AiLastRead, AiDelayedCarry, RomLastWrite]),
      Fill([Zero(4)]),
      Fill([Zero(4)]),
      Fields(2, [AfRtc(RtcControl)]),
      Fill([Zero(2)]),
      Fields(8, [AfRtc(Now), AfRtc(LastUpdate)]),
      Fields(1, [Controller(0), Controller(1), Controller(2), Controller(3)]) ]
  }

  function ExtraGets(): (r: seq<Op>) {
    [ Fields(4, [AiLastRead, AiDelayedCarry, RomLastWrite]),
      Skip(4),
      Skip(4),
      Fields(2, [AfRtc(RtcControl)]),
      Skip(2),
      Fields(8, [AfRtc(Now), AfRtc(LastUpdate)]),
      Fields(1, [Controller(0), Controller(1), Controller(2), Controller(3)]) ]
  }

  function RumblePuts(i: nat): (r: seq<Op>) {
    [ Fields(1, [Rumble(i)]) ]
  }

  /** `usable`: the pak is enabled and the port holds a standard controller the core drives itself. */
  function RumbleGets(i: nat, usable: bool): (r: seq<Op>) {
    [ if usable then Fields(1, [Rumble(i)]) else Skip(1) ]
  }

  function PakPuts(i: nat): (r: seq<Op>) {
    [ Fields(4, [Pak(i, Enabled), Pak(i, Bank), Pak(i, CartEnabled), Pak(i, ResetState)]) ]
  }

  function PakGets(i: nat, usable: bool): (r: seq<Op>) {
    [ if usable then Fields(4, [Pak(i, Enabled), Pak(i, Bank), Pak(i, CartEnabled), Pak(i, ResetState)])
      else Skip(16) ]
  }

  const FingerprintSize: nat := 0x1c
  const CartSize: nat := 92

  function CartPuts(i: nat): (r: seq<Op>) {
    [ Fields(4, [GbCart(i, RomBank), GbCart(i, RamBank), GbCart(i, RamEnable), GbCart(i, Mbc1Mode),
                 GbCart(i, Latch)]),
      Fields(8, [GbCart(i, LastTime)]),
      Block(1, GbCart(i, RtcRegs), 5),
      Block(1, GbCart(i, LatchedRegs), 5),
      Block(1, GbCart(i, CamRegs), 0x36) ]
  }

  /** `known`: the cartridge in the port is the one the state was saved with. */
  function CartGets(i: nat, known: bool): (r: seq<Op>) {
    if known then
      [ Fields(4, [GbCart(i, RomBank), GbCart(i, RamBank), GbCart(i, RamEnable), GbCart(i, Mbc1Mode),
                   GbCart(i, Latch)]),
        Fields(8, [GbCart(i, LastTime)]),
        Block(1, GbCart(i, RtcRegs), 5),
        Block(1, GbCart(i, LatchedRegs), 5),
        Block(1, GbCart(i, CamRegs), 0x36) ]
    else
      [ Skip(CartSize) ]
  }

  function StatusPuts(): (r: seq<Op>) {
    [ Fields(1, [SiDmaDir, DoOnUnfreeze]), Fields(4, [ViCountPerScanline]) ]
  }

  function StatusGets(): (r: seq<Op>) {
    [ Fields(1, [SiDmaDir, DoOnUnfreeze]), Fields(4, [ViCountPerScanline]) ]
  }

  function ModulePuts(i: nat): (r: seq<Op>) {
    [Fields(4, [Rdram(i, Config), Rdram(i, DeviceId), Rdram(i, Delay), Rdram(i, Mode),
                Rdram(i, RefInterval), Rdram(i, RefRow), Rdram(i, RasInterval),
                Rdram(i, MinInterval), Rdram(i, AddrSelect), Rdram(i, DeviceManuf)])]
  }

  function ModuleGets(i: nat): (r: seq<Op>) {
    [Fields(4, [Rdram(i, Config), Rdram(i, DeviceId), Rdram(i, Delay), Rdram(i, Mode),
                Rdram(i, RefInterval), Rdram(i, RefRow), Rdram(i, RasInterval),
                Rdram(i, MinInterval), Rdram(i, AddrSelect), Rdram(i, DeviceManuf)])]
  }

  /** The first `n - 1` iterations of the loop over the RDRAM modules from 1 on. */
  function ModulesPuts(n: nat): (r: seq<Op>) {
    if n <= 1 then [] else ModulesPuts(n - 1) + ModulePuts(n - 1)
  }

  function ModulesGets(n: nat): (r: seq<Op>) {
    if n <= 1 then [] else ModulesGets(n - 1) + ModuleGets(n - 1)
  }

  /** The length both sides give a disk drive that is not there. */
  const DdSize: nat := (3 + 19) * 4 + 0x100 + 0x40 + 2 * 8 + 2 * 4

  /** `present`: a disk is in the drive. */
  function DdPuts(present: bool): (r: seq<Op>) {
    if !present then [Skip(DdSize)] else
      [ Fields(4, [Dd(Reg(Data)), Dd(Reg(Misc)), Dd(Reg(CmdStatus)), Dd(Reg(CurTk)), Dd(Reg(BmStatusCtl)),
                   Dd(Reg(ErrSector)), Dd(Reg(SeqStatusCtl)), Dd(Reg(CurSector)), Dd(Reg(HardReset)),
                   Dd(Reg(C1S0)), Dd(Reg(HostSecbyte)), Dd(Reg(C1S2)), Dd(Reg(SecByte)), Dd(Reg(C1S4)),
                   Dd(Reg(C1S6)), Dd(Reg(CurAddr)), Dd(Reg(IdReg)), Dd(Reg(TestReg)), Dd(Reg(TestPinSel))]),
        Block(1, Dd(DsBuf), 0x100),
        Block(1, Dd(MsRam), 0x40),
        Fields(8, [Dd(DdNow), Dd(DdLastUpdate)]),
        Wide(Dd(BmWrite)),
        Wide(Dd(BmResetHeld)),
        Fill([Zero(4)]),
        Fields(4, [Dd(BmZone)]),
        Fill([Zero(4)]) ]
  }

  /** `known`: the disk in the drive is the one the state was saved with. */
  function DdGets(known: bool): (r: seq<Op>) {
    if !known then [Skip(DdSize)] else
      [ Fields(4, [Dd(Reg(Data)), Dd(Reg(Misc)), Dd(Reg(CmdStatus)), Dd(Reg(CurTk)), Dd(Reg(BmStatusCtl)),
                   Dd(Reg(ErrSector)), Dd(Reg(SeqStatusCtl)), Dd(Reg(CurSector)), Dd(Reg(HardReset)),
                   Dd(Reg(C1S0)), Dd(Reg(HostSecbyte)), Dd(Reg(C1S2)), Dd(Reg(SecByte)), Dd(Reg(C1S4)),
                   Dd(Reg(C1S6)), Dd(Reg(CurAddr)), Dd(Reg(IdReg)), Dd(Reg(TestReg)), Dd(Reg(TestPinSel))]),
        Block(1, Dd(DsBuf), 0x100),
        Block(1, Dd(MsRam), 0x40),
        Fields(8, [Dd(DdNow), Dd(DdLastUpdate)]),
        Wide(Dd(BmWrite)),
        Wide(Dd(BmResetHeld)),
        Skip(4),
        Fields(4, [Dd(BmZone)]),
        Skip(4) ]
  }

  function JalPuts(dynarec: bool): (r: seq<Op>) {
    [ if dynarec then Fields(4, [StopAfterJal]) else Fill([Zero(4)]) ]
  }

  function JalGets(dynarec: bool): (r: seq<Op>) {
    [ if dynarec then Fields(4, [StopAfterJal]) else Skip(4) ]
  }

  function DmaPuts(): (r: seq<Op>) {
    [ Fields(4, [SpDma(0, Dir), SpDma(0, DmaLength), SpDma(0, DmaMemAddr), SpDma(0, DmaDramAddr),
                 SpDma(1, Dir), SpDma(1, DmaLength), SpDma(1, DmaMemAddr), SpDma(1, DmaDramAddr)]) ]
  }

  function DmaGets(): (r: seq<Op>) {
    [ Fields(4, [SpDma(0, Dir), SpDma(0, DmaLength), SpDma(0, DmaMemAddr), SpDma(0, DmaDramAddr),
                 SpDma(1, Dir), SpDma(1, DmaLength), SpDma(1, DmaMemAddr), SpDma(1, DmaDramAddr)]) ]
  }

  function FlashPuts(): (r: seq<Op>) {
    [ Block(1, Flash(PageBuf), 128),
      Block(4, Flash(SiliconId), 2),
      Fields(4, [Flash(FlashStatus)]),
      Fields(2, [Flash(ErasePage), Flash(FlashMode)]) ]
  }

  function FlashGets(): (r: seq<Op>) {
    [ Block(1, Flash(PageBuf), 128),
      Block(4, Flash(SiliconId), 2),
      Fields(4, [Flash(FlashStatus)]),
      Fields(2, [Flash(ErasePage), Flash(FlashMode)]) ]
  }

  function LatchPuts(): (r: seq<Op>) {
    [ Fields(8, [Cp0Latch, Cp2Latch]) ]
  }

  function LatchGets(): (r: seq<Op>) {
    [ Fields(8, [Cp0Latch, Cp2Latch]) ]
  }

  function LatePuts(dynarec: bool): (r: seq<Op>) {
    JalPuts(dynarec) + DmaPuts() + FlashPuts() + LatchPuts()
  }

  const V1_3: nat := 0x00010300
  const V1_4: nat := 0x00010400
  const V1_5: nat := 0x00010500
  const V1_7: nat := 0x00010700
  const V1_8: nat := 0x00010800
  const Latest: nat := 0x00010900

  /** Each version reads only what it knew about. */
  function LateGets(version: nat, dynarec: bool): (r: seq<Op>) {
    (if version >= V1_5 then JalGets(dynarec) else [])
    + (if version >= V1_7 then DmaGets() else [])
    + (if version >= V1_8 then FlashGets() else [])
    + (if version >= Latest then LatchGets() else [])
  }

  // ------------------------------------------------- the two sides agree

  lemma MatchAppend(a: seq<Op>, b: seq<Op>, c: seq<Op>, d: seq<Op>)
    requires MatchAll(a, b) && MatchAll(c, d)
    ensures MatchAll(a + c, b + d)
  {
  }

  lemma AppendSized(a: seq<Op>, a': seq<Op>, b: seq<Op>, b': seq<Op>, x: nat, y: nat)
    requires MatchAll(a, a') && MatchAll(b, b') && SizeAll(a) == x && SizeAll(b) == y
    ensures MatchAll(a + b, a' + b') && SizeAll(a + b) == x + y
  {
    MatchAppend(a, a', b, b');
    SizeOfAppend(a, b);
  }

  lemma TlbAgrees(i: nat)
    ensures MatchAll(TlbPuts(i), TlbGets(i))
  {
    var p, g := TlbPuts(i), TlbGets(i);
    forall k | 0 <= k < |p| ensures Match(p[k], g[k]) {
    }
  }

  lemma TlbSize(i: nat)
    ensures SizeAll(TlbPuts(i)) == 52
  {
    var p, at := TlbPuts(i), [0, 2, 4, 8, 10, 12, 16, 19, 20, 24, 28, 52];
    forall k | 0 <= k < |p| ensures at[k + 1] == at[k] + Size(p[k]) {
    }
    SizeByOffsets(p, at);
  }

  lemma {:induction false} TlbsAgree(n: nat)
    ensures MatchAll(TlbsPuts(n), TlbsGets(n))
    ensures SizeAll(TlbsPuts(n)) == 52 * n
  {
    if n > 0 {
      TlbsAgree(n - 1);
      TlbAgrees(n - 1);
      TlbSize(n - 1);
      AppendSized(TlbsPuts(n - 1), TlbsGets(n - 1), TlbPuts(n - 1), TlbGets(n - 1), 52 * (n - 1), 52);
    }
  }

  lemma RegistersAgree()
    ensures MatchAll(RegisterPuts(), RegisterGets())
  {
    var p, g := RegisterPuts(), RegisterGets();
    forall k | 0 <= k < |p| ensures Match(p[k], g[k]) {
    }
  }

  lemma RegistersSize()
    ensures SizeAll(RegisterPuts()) == 76
  {
    var p := RegisterPuts();
    var at := [0, 40, 44, 48, 52, 64, 68, 76];
    forall k | 0 <= k < |p| ensures at[k + 1] == at[k] + Size(p[k]) {
    }
    SizeByOffsets(p, at);
  }

  lemma PiSpAgree()
    ensures MatchAll(PiSpPuts(), PiSpGets())
  {
    var p, g := PiSpPuts(), PiSpGets();
    forall k | 0 <= k < |p| ensures Match(p[k], g[k]) {
    }
  }

  lemma PiSpSize()
    ensures SizeAll(PiSpPuts()) == 112
  {
    var p := PiSpPuts();
    var at := [0, 52, 68, 72, 76, 92, 112];
    forall k | 0 <= k < |p| ensures at[k + 1] == at[k] + Size(p[k]) {
    }
    SizeByOffsets(p, at);
  }

  lemma InterfacesAgree()
    ensures MatchAll(InterfacePuts(), InterfaceGets())
  {
    var p, g := InterfacePuts(), InterfaceGets();
    forall k | 0 <= k < |p| ensures Match(p[k], g[k]) {
    }
  }

  lemma InterfacesSize()
    ensures SizeAll(InterfacePuts()) == 148
  {
    var p := InterfacePuts();
    var at := [0, 16, 76, 108, 148];
    forall k | 0 <= k < |p| ensures at[k + 1] == at[k] + Size(p[k]) {
    }
    SizeByOffsets(p, at);
  }

  lemma DpAgree()
    ensures MatchAll(DpPuts(), DpGets())
  {
    var p, g := DpPuts(), DpGets();
    forall k | 0 <= k < |p| ensures Match(p[k], g[k]) {
    }
  }

  lemma DpSize()
    ensures SizeAll(DpPuts()) == 64
  {
    var p := DpPuts();
    var at := [0, 12, 16, 20, 32, 48, 64];
    forall k | 0 <= k < |p| ensures at[k + 1] == at[k] + Size(p[k]) {
    }
    SizeByOffsets(p, at);
  }

  lemma MemoryAgree()
    ensures MatchAll(MemoryPuts(), MemoryGets())
  {
    var p, g := MemoryPuts(), MemoryGets();
    forall k | 0 <= k < |p| ensures Match(p[k], g[k]) {
    }
  }

  lemma MemorySize()
    ensures SizeAll(MemoryPuts()) == 0x800000 + 0x2000 + 0x40 + 24 + 0x800000
  {
    var p := MemoryPuts();
    var d := 0x800000 + 0x2000 + 0x40 + 24;
    var at := [0, 0x800000, 0x800000 + 0x2000, d - 24, d - 20, d, d + 0x400000, d + 0x800000];
    forall k | 0 <= k < |p| ensures at[k + 1] == at[k] + Size(p[k]) {
    }
    SizeByOffsets(p, at);
  }

  lemma CpuAgree()
    ensures MatchAll(CpuPuts(), CpuGets())
  {
    var p, g := CpuPuts(), CpuGets();
    forall k | 0 <= k < |p| ensures Match(p[k], g[k]) {
    }
  }

  lemma CpuSize()
    ensures SizeAll(CpuPuts()) == 668
  {
    var p, at := CpuPuts(), [0, 4, 260, 388, 404, 660, 668];
    forall k | 0 <= k < |p| ensures at[k + 1] == at[k] + Size(p[k]) {
    }
    SizeByOffsets(p, at);
  }

  lemma EndAgree()
    ensures MatchAll(EndPuts(), EndGets())
  {
    var p, g := EndPuts(), EndGets();
    forall k | 0 <= k < |p| ensures Match(p[k], g[k]) {
    }
  }

  lemma EndSize()
    ensures SizeAll(EndPuts()) == 16
  {
    var p := EndPuts();
    var at := [0, 8, 12, 16];
    forall k | 0 <= k < |p| ensures at[k + 1] == at[k] + Size(p[k]) {
    }
    SizeByOffsets(p, at);
  }

  lemma AppendAll(a: seq<Op>, a': seq<Op>, b: seq<Op>, b': seq<Op>, c: seq<Op>, c': seq<Op>)
    requires MatchAll(a, a') && MatchAll(b, b') && MatchAll(c, c')
    ensures MatchAll(a + b + c, a' + b' + c')
    ensures SizeAll(a + b + c) == SizeAll(a) + SizeAll(b) + SizeAll(c)
  {
    MatchAppend(a, a', b, b');
    MatchAppend(a + b, a' + b', c, c');
    SizeOfAppend(a, b);
    SizeOfAppend(a + b, c);
  }

  /** The main block is exactly as long as the buffer the reader fills. */
  lemma MainAgrees(n: nat)
    ensures MatchAll(MainPuts(n), MainGets(n))
    ensures SizeAll(MainPuts(n)) == MainSize - 52 * 32 + 52 * n
  {
    RegistersAgree();
    PiSpAgree();
    InterfacesAgree();
    DpAgree();
    MemoryAgree();
    CpuAgree();
    TlbsAgree(n);
    EndAgree();
    RegistersSize();
    PiSpSize();
    InterfacesSize();
    DpSize();
    MemorySize();
    CpuSize();
    EndSize();
    AppendAll(RegisterPuts(), RegisterGets(), PiSpPuts(), PiSpGets(), InterfacePuts(), InterfaceGets());
    var a, a' := RegisterPuts() + PiSpPuts() + InterfacePuts(), RegisterGets() + PiSpGets() + InterfaceGets();
    AppendAll(a, a', DpPuts(), DpGets(), MemoryPuts(), MemoryGets());
    var b, b' := a + DpPuts() + MemoryPuts(), a' + DpGets() + MemoryGets();
    AppendAll(b, b', CpuPuts(), CpuGets(), TlbsPuts(n), TlbsGets(n));
    var c, c' := b + CpuPuts() + TlbsPuts(n), b' + CpuGets() + TlbsGets(n);
    MatchAppend(c, c', EndPuts(), EndGets());
    SizeOfAppend(c, EndPuts());
  }

  // ------------------------------------------------------ the extra block

  lemma QueueAgrees(dynarec: bool)
    ensures MatchAll(QueuePuts(dynarec), QueueGets(dynarec))
    ensures SizeAll(QueuePuts(dynarec)) == 1028
  {
    var p, g := QueuePuts(dynarec), QueueGets(dynarec);
    forall k | 0 <= k < |p| ensures Match(p[k], g[k]) {
    }
    SizeByOffsets(p, [0, 1024, 1028]);
  }

  lemma ExtraAgrees()
    ensures MatchAll(ExtraPuts(), ExtraGets())
    ensures SizeAll(ExtraPuts()) == 44
  {
    var p, g := ExtraPuts(), ExtraGets();
    forall k | 0 <= k < |p| ensures Match(p[k], g[k]) {
    }
    SizeByOffsets(p, [0, 12, 16, 20, 22, 24, 40, 44]);
  }

  lemma RumbleAgrees(i: nat)
    ensures MatchAll(RumblePuts(i), RumbleGets(i, true))
    ensures SizeAll(RumblePuts(i)) == 1
  {
    var p, g := RumblePuts(i), RumbleGets(i, true);
    forall k | 0 <= k < |p| ensures Match(p[k], g[k]) {
    }
    SizeByOffsets(p, [0, 1]);
  }

  lemma PakAgrees(i: nat)
    ensures MatchAll(PakPuts(i), PakGets(i, true))
    ensures SizeAll(PakPuts(i)) == 16
  {
    var p, g := PakPuts(i), PakGets(i, true);
    forall k | 0 <= k < |p| ensures Match(p[k], g[k]) {
    }
    SizeByOffsets(p, [0, 16]);
  }

  lemma CartAgrees(i: nat)
    ensures MatchAll(CartPuts(i), CartGets(i, true))
    ensures SizeAll(CartPuts(i)) == CartSize
  {
    var p, g := CartPuts(i), CartGets(i, true);
    forall k | 0 <= k < |p| ensures Match(p[k], g[k]) {
    }
    SizeByOffsets(p, [0, 20, 28, 33, 38, 92]);
  }

  lemma StatusAgrees()
    ensures MatchAll(StatusPuts(), StatusGets())
    ensures SizeAll(StatusPuts()) == 6
  {
    var p, g := StatusPuts(), StatusGets();
    forall k | 0 <= k < |p| ensures Match(p[k], g[k]) {
    }
    SizeByOffsets(p, [0, 2, 6]);
  }

  lemma ModuleAgrees(i: nat)
    ensures MatchAll(ModulePuts(i), ModuleGets(i)) && SizeAll(ModulePuts(i)) == 40
  {
    SizeByOffsets(ModulePuts(i), [0, 40]);
  }

  lemma {:induction false} ModulesAgree(n: nat)
    requires n > 0
    ensures MatchAll(ModulesPuts(n), ModulesGets(n))
    ensures SizeAll(ModulesPuts(n)) == 40 * (n - 1)
  {
    if n > 1 {
      ModulesAgree(n - 1);
      ModuleAgrees(n - 1);
      AppendSized(ModulesPuts(n - 1), ModulesGets(n - 1), ModulePuts(n - 1), ModuleGets(n - 1), 40 * (n - 2), 40);
    }
  }

  /** A present drive fills exactly the length an absent one is skipped by. */
  lemma DdAgrees(present: bool)
    ensures MatchAll(DdPuts(present), DdGets(present))
    ensures SizeAll(DdPuts(present)) == DdSize
  {
    var p, g := DdPuts(present), DdGets(present);
    forall k | 0 <= k < |p| ensures Match(p[k], g[k]) {
    }
    if present {
      SizeByOffsets(p, [0, 76, 332, 396, 412, 416, 420, 424, 428, 432]);
    } else {
      SizeByOffsets(p, [0, 432]);
    }
  }

  lemma LateAgrees(dynarec: bool)
    ensures MatchAll(LatePuts(dynarec), LateGets(Latest, dynarec))
    ensures SizeAll(LatePuts(dynarec)) == 196
  {
    SizeByOffsets(JalPuts(dynarec), [0, 4]);
    SizeByOffsets(DmaPuts(), [0, 32]);
    SizeByOffsets(FlashPuts(), [0, 128, 136, 140, 144]);
    SizeByOffsets(LatchPuts(), [0, 16]);
    assert MatchAll(LatchPuts(), LatchGets());
    AppendAll(JalPuts(dynarec), JalGets(dynarec), DmaPuts(), DmaGets(), FlashPuts(), FlashGets());
    var a, a' := JalPuts(dynarec) + DmaPuts() + FlashPuts(), JalGets(dynarec) + DmaGets() + FlashGets();
    MatchAppend(a, a', LatchPuts(), LatchGets());
    SizeOfAppend(a, LatchPuts());
  }
}
