/**
 * Saving and loading whole states (src/main/savestates.c): the header, the main
 * block, and the extra block with its optional parts, whose lengths the reader
 * finds out from the data.  Part by part, what a save wrote a load into the same
 * setup puts back, exactly when the two cursors stay together; the round trip of
 * whole files is in module SaveVersions.
 */
module SaveState {
  import opened Common
  import opened SaveLayout
  import opened SaveTables


  /** A Game Boy cartridge: the 28 header bytes that identify it, and its extra devices. */
  datatype Cart = Cart(fingerprint: seq<Byte>, clock: bool, camera: bool)

  datatype Port = Port(raw: bool, standard: bool, cart: Option<Cart>)

  /** What a state does not hold: the game, the settings and what is plugged in. */
  datatype Setup = Setup(
    md5: seq<Byte>, rumble: bool, transferpak: bool, ports: seq<Port>,
    disk: Option<nat>, dynarec: bool, tlb: nat, modules: nat)

  /** Where a PIF channel's command starts, relative to PIF RAM; `Off` is a null pointer. */
  datatype Tx = Off | At(offset: int)

  datatype State = State(slots: Slots, channels: seq<Tx>)

  ghost predicate ValidSetup(u: Setup) {
    |u.md5| == 32 && |u.ports| == 4 && u.tlb == 32 && u.modules == 8
    && (forall i :: 0 <= i < |u.ports| && u.ports[i].cart.Some? ==>
          |u.ports[i].cart.value.fingerprint| == FingerprintSize)
    && (u.disk.Some? ==> u.disk.value < Pow256(4))
  }

  predicate RumbleUsable(u: Setup, i: nat)
    requires i < |u.ports|
  {
    u.rumble && !u.ports[i].raw && u.ports[i].standard
  }

  predicate PakUsable(u: Setup, i: nat)
    requires i < |u.ports|
  {
    u.transferpak && !u.ports[i].raw && u.ports[i].standard
  }

  // ---------------------------------------------------------------- writer

  function RumblesBytes(u: Setup, m: Slots, i: nat): (r: seq<Byte>)
    requires i <= |u.ports|
    ensures |r| == |u.ports| - i
    decreases |u.ports| - i
  {
    if i == |u.ports| then [] else
      RumbleAgrees(i);
      EncodeAll(m, RumblePuts(i)) + RumblesBytes(u, m, i + 1)
  }

  function PakBytes(u: Setup, m: Slots, i: nat): (r: seq<Byte>)
    requires ValidSetup(u) && i < |u.ports|
    ensures |r| == 16 + FingerprintSize + if u.ports[i].cart.Some? then CartSize else 0
  {
    PakAgrees(i);
    CartAgrees(i);
    EncodeAll(m, PakPuts(i))
    + match u.ports[i].cart
      case None => Zeros(FingerprintSize)
      case Some(c) => c.fingerprint + EncodeAll(m, CartPuts(i))
  }

  function PaksBytes(u: Setup, m: Slots, i: nat): (r: seq<Byte>)
    requires ValidSetup(u) && i <= |u.ports|
    ensures |r| <= 136 * (|u.ports| - i)
    decreases |u.ports| - i
  {
    if i == |u.ports| then [] else PakBytes(u, m, i) + PaksBytes(u, m, i + 1)
  }

  /** The pointer difference, cut to a signed byte. */
  function ChannelByte(t: Tx): (b: Byte) {
    match t
    case Off => 255
    case At(offset) => offset % 256
  }

  function ChannelsBytes(ts: seq<Tx>): (r: seq<Byte>)
    ensures |r| == |ts|
    ensures forall k :: 0 <= k < |ts| ==> r[k] == ChannelByte(ts[k])
  {
    if ts == [] then [] else [ChannelByte(ts[0])] + ChannelsBytes(ts[1..])
  }

  function DdBytes(u: Setup, m: Slots): (r: seq<Byte>)
    ensures |r| == 4 + DdSize
  {
    DdAgrees(u.disk.Some?);
    Little(if u.disk.Some? then u.disk.value else 0, 4) + EncodeAll(m, DdPuts(u.disk.Some?))
  }

  /** The four stretches of the extra block. */
  function StartBytes(u: Setup, m: Slots): (r: seq<Byte>)
    ensures |r| == 44 + |u.ports|
  {
    ExtraAgrees();
    EncodeAll(m, ExtraPuts()) + RumblesBytes(u, m, 0)
  }

  function RestBytes(u: Setup, m: Slots): (r: seq<Byte>)
    requires ValidSetup(u)
    ensures |r| == 6 + 280 + 4 + DdSize + 196
  {
    StatusAgrees();
    ModulesAgree(u.modules);
    LateAgrees(u.dynarec);
    EncodeAll(m, StatusPuts()) + (EncodeAll(m, ModulesPuts(u.modules))
    + (DdBytes(u, m) + EncodeAll(m, LatePuts(u.dynarec))))
  }

  /** The bytes followed by the zeros the buffer started with. */
  function Padded(b: seq<Byte>, size: nat): (r: seq<Byte>)
    requires |b| <= size
    ensures |r| == size
  {
    b + Zeros(size - |b|)
  }

  const ExtraSize: nat := 4096

  /** The extra block always fits in the bytes set aside for it. */
  function ExtraBytes(u: Setup, st: State): (r: seq<Byte>)
    requires ValidSetup(u) && |st.channels| == 5
    ensures |r| == ExtraSize
  {
    var used := StartBytes(u, st.slots) + (PaksBytes(u, st.slots, 0)
                + (ChannelsBytes(st.channels) + RestBytes(u, st.slots)));
    Padded(used, ExtraSize)
  }

  /** "M64+SAVE" */
  const Magic: seq<Byte> := [0x4D, 0x36, 0x34, 0x2B, 0x53, 0x41, 0x56, 0x45]

  function Big4(v: nat): (r: seq<Byte>)
    ensures |r| == 4
  {
    [v / 0x1000000 % 256, v / 0x10000 % 256, v / 0x100 % 256, v % 256]
  }

  function Header(u: Setup): (r: seq<Byte>)
    requires ValidSetup(u)
    ensures |r| == 44
  {
    Magic + Big4(Latest) + u.md5
  }

  function Body(u: Setup, st: State): (r: seq<Byte>)
    requires ValidSetup(u) && |st.channels| == 5
    ensures |r| == MainSize + 1028 + ExtraSize
  {
    MainAgrees(u.tlb);
    QueueAgrees(u.dynarec);
    EncodeAll(st.slots, MainPuts(u.tlb)) + (EncodeAll(st.slots, QueuePuts(u.dynarec)) + ExtraBytes(u, st))
  }

  function Save(u: Setup, st: State): (r: seq<Byte>)
    requires ValidSetup(u) && |st.channels| == 5
    ensures |r| == 44 + MainSize + 1028 + ExtraSize
  {
    Header(u) + Body(u, st)
  }

  // ---------------------------------------------------------------- reader

  /** The device so far and the bytes still ahead of the cursor. */
  datatype Cursor = Cursor(slots: Slots, rest: seq<Byte>)

  function Run(c: Cursor, gs: seq<Op>): (r: Cursor)
    requires |c.rest| >= SizeAll(gs)
    ensures |r.rest| == |c.rest| - SizeAll(gs)
  {
    Cursor(DecodeAll(c.slots, gs, c.rest), c.rest[SizeAll(gs)..])
  }

  function LoadRumbles(u: Setup, c: Cursor, i: nat): (r: Cursor)
    requires i <= |u.ports| && |c.rest| >= |u.ports| - i
    ensures |r.rest| == |c.rest| - (|u.ports| - i)
    decreases |u.ports| - i
  {
    if i == |u.ports| then c else
      RumbleSize(i, RumbleUsable(u, i));
      LoadRumbles(u, Run(c, RumbleGets(i, RumbleUsable(u, i))), i + 1)
  }

  /** What poweron_gb_cart resets. */
  function PowerOnCart(m: Slots, i: nat, c: Cart): (r: Slots) {
    var bare := m[GbCart(i, RomBank) := [1]][GbCart(i, RamBank) := [0]]
                 [GbCart(i, RamEnable) := [0]][GbCart(i, Mbc1Mode) := [0]];
    var timed := if !c.clock then bare else
                   bare[GbCart(i, RtcRegs) := seq(5, k => 0)][GbCart(i, LatchedRegs) := seq(5, k => 0)]
                       [GbCart(i, Latch) := [0]][GbCart(i, LastTime) := [0]];
    if !c.camera then timed else timed[GbCart(i, CamRegs) := seq(0x36, k => 0)]
  }

  /** One transfer pak: a cartridge block follows exactly when the fingerprint read starts non-zero. */
  function LoadPak(u: Setup, c: Cursor, i: nat): (r: Cursor)
    requires i < |u.ports| && |c.rest| >= 16 + FingerprintSize + CartSize
    ensures |r.rest| == |c.rest| - 16 - FingerprintSize - (if c.rest[16] != 0 then CartSize else 0)
  {
    var usable := PakUsable(u, i);
    PakGetsSize(i, usable);
    var c1 := Run(c, PakGets(i, usable));
    var fingerprint := c1.rest[..FingerprintSize];
    var c2 := Cursor(c1.slots, c1.rest[FingerprintSize..]);
    var cart := if usable then u.ports[i].cart else None;
    var known := fingerprint[0] != 0 && cart.Some? && cart.value.fingerprint == fingerprint;
    CartGetsSize(i, known);
    var c3 := if fingerprint[0] != 0 then Run(c2, CartGets(i, known)) else c2;
    if cart.Some? && !known then Cursor(PowerOnCart(c3.slots, i, cart.value), c3.rest) else c3
  }

  function LoadPaks(u: Setup, c: Cursor, i: nat): (r: Cursor)
    requires i <= |u.ports| && |c.rest| >= 136 * (|u.ports| - i)
    ensures |r.rest| >= |c.rest| - 136 * (|u.ports| - i)
    decreases |u.ports| - i
  {
    if i == |u.ports| then c else LoadPaks(u, LoadPak(u, c, i), i + 1)
  }

  /** A negative signed byte disables the channel. */
  function LoadChannel(b: Byte): (t: Tx) {
    if b < 128 then At(b) else Off
  }

  function LoadChannels(b: seq<Byte>): (ts: seq<Tx>)
    ensures |ts| == |b|
    ensures forall k :: 0 <= k < |b| ==> ts[k] == LoadChannel(b[k])
  {
    if b == [] then [] else [LoadChannel(b[0])] + LoadChannels(b[1..])
  }

  function LoadDd(u: Setup, c: Cursor): (r: Cursor)
    requires |c.rest| >= 4 + DdSize
    ensures |r.rest| == |c.rest| - 4 - DdSize
  {
    var known := u.disk == Some(Number(c.rest[..4]));
    DdGetsSize(known);
    Run(Cursor(c.slots, c.rest[4..]), DdGets(known))
  }

  function ClearDma(m: Slots): (r: Slots) {
    m[SpDma(0, Dir) := [0]][SpDma(0, DmaLength) := [0]][SpDma(0, DmaMemAddr) := [0]][SpDma(0, DmaDramAddr) := [0]]
     [SpDma(1, Dir) := [0]][SpDma(1, DmaLength) := [0]][SpDma(1, DmaMemAddr) := [0]][SpDma(1, DmaDramAddr) := [0]]
  }

  /** From the SI state on; older versions lack the later parts. */
  function LoadRest(u: Setup, version: nat, c: Cursor): (r: Cursor)
    requires u.modules == 8 && version >= V1_3
    requires |c.rest| >= 6 + 280 + 4 + DdSize + 196
  {
    StatusSizes();
    ModulesSizes(u.modules);
    LateSizes(version, u.dynarec);
    var c1 := Run(c, StatusGets());
    var c2 := Run(c1, ModulesGets(u.modules));
    var c3 := if version >= V1_4 then LoadDd(u, c2) else c2;
    var c4 := if version >= V1_7 then c3 else Cursor(ClearDma(c3.slots), c3.rest);
    Run(c4, LateGets(version, u.dynarec))
  }

  function LoadPorts(u: Setup, c: Cursor): (r: Cursor)
    requires |u.ports| == 4 && |c.rest| >= 48 + 544
    ensures |r.rest| >= |c.rest| - 48 - 544
  {
    ExtraSizes();
    LoadPaks(u, LoadRumbles(u, Run(c, ExtraGets()), 0), 0)
  }

  function LoadExtra(u: Setup, version: nat, m: Slots, data: seq<Byte>): (r: State)
    requires |u.ports| == 4 && u.modules == 8 && version >= V1_3
    requires |data| >= ExtraSize
    ensures |r.channels| == 5
  {
    var c := LoadPorts(u, Cursor(m, data));
    var channels := LoadChannels(c.rest[..5]);
    State(LoadRest(u, version, Cursor(c.slots, c.rest[5..])).slots, channels)
  }

  /** What loading resets before the state's own values arrive. */
  function Defaults(u: Setup, m: Slots): (r: Slots) {
    var flash := m[Flash(FlashMode) := [0]][Flash(FlashStatus) := [0]][Flash(ErasePage) := [0]]
                  [Flash(PageBuf) := seq(128, k => 0xff)];
    if u.dynarec then flash[StopAfterJal := [1]] else flash
  }

  function FromBig4(b: seq<Byte>): (v: nat)
    requires |b| == 4
  {
    (b[0] as int) * 0x1000000 + (b[1] as int) * 0x10000 + (b[2] as int) * 0x100 + b[3] as int
  }

  /** The main block, then the defaults, then the event queue and the TLB flag. */
  function LoadFront(u: Setup, m: Slots, body: seq<Byte>): (r: Cursor)
    requires u.tlb == 32 && |body| >= MainSize + 1028
    ensures |r.rest| == |body| - MainSize - 1028
  {
    MainSizes(u.tlb);
    QueueSizes(u.dynarec);
    var c := Run(Cursor(m, body), MainGets(u.tlb));
    Run(Cursor(Defaults(u, c.slots), c.rest), QueueGets(u.dynarec))
  }

  function LoadBody(u: Setup, version: nat, m: Slots, body: seq<Byte>): (r: State)
    requires |u.ports| == 4 && u.tlb == 32 && u.modules == 8 && version >= V1_3
    requires |body| >= MainSize + 1028 + ExtraSize
    ensures |r.channels| == 5
  {
    var c := LoadFront(u, m, body);
    LoadExtra(u, version, c.slots, c.rest)
  }

  datatype LoadResult = Refused | OldFormat | Loaded(state: State)

  function Load(u: Setup, m: Slots, file: seq<Byte>): (r: LoadResult)
    requires |u.md5| == 32 && |u.ports| == 4 && u.tlb == 32 && u.modules == 8
  {
    if |file| < 44 || file[..8] != Magic then Refused else
    var version := FromBig4(file[8..12]);
    if version / 0x10000 != Latest / 0x10000 || file[12..44] != u.md5 then Refused else
    if version < V1_3 then OldFormat else
    if |file| < 44 + MainSize + 1028 + ExtraSize then Refused else
    Loaded(LoadBody(u, version, m, file[44..]))
  }

  // ------------------------------------------------ sizes of reader's steps

  lemma {:induction false} MatchSizes(ps: seq<Op>, gs: seq<Op>)
    requires MatchAll(ps, gs)
    ensures SizeAll(ps) == SizeAll(gs)
  {
    if ps != [] {
      assert Match(ps[0], gs[0]);
      MatchSizes(ps[1..], gs[1..]);
    }
  }

  lemma MainSizes(n: nat)
    requires n == 32
    ensures SizeAll(MainGets(n)) == MainSize
  {
    MainAgrees(n);
    MatchSizes(MainPuts(n), MainGets(n));
  }

  lemma QueueSizes(dynarec: bool)
    ensures SizeAll(QueueGets(dynarec)) == 1028
  {
    QueueAgrees(dynarec);
    MatchSizes(QueuePuts(dynarec), QueueGets(dynarec));
  }

  lemma ExtraSizes()
    ensures SizeAll(ExtraGets()) == 44
  {
    ExtraAgrees();
    MatchSizes(ExtraPuts(), ExtraGets());
  }

  lemma RumbleSize(i: nat, usable: bool)
    ensures SizeAll(RumbleGets(i, usable)) == 1
  {
    SizeByOffsets(RumbleGets(i, usable), [0, 1]);
  }

  lemma PakGetsSize(i: nat, usable: bool)
    ensures SizeAll(PakGets(i, usable)) == 16
  {
    SizeByOffsets(PakGets(i, usable), [0, 16]);
  }

  lemma CartGetsSize(i: nat, known: bool)
    ensures SizeAll(CartGets(i, known)) == CartSize
  {
    if known {
      CartAgrees(i);
      MatchSizes(CartPuts(i), CartGets(i, true));
    } else {
      SizeByOffsets(CartGets(i, known), [0, 92]);
    }
  }

  lemma StatusSizes()
    ensures SizeAll(StatusGets()) == 6
  {
    StatusAgrees();
    MatchSizes(StatusPuts(), StatusGets());
  }

  lemma ModulesSizes(n: nat)
    requires n == 8
    ensures SizeAll(ModulesGets(n)) == 280
  {
    ModulesAgree(n);
    MatchSizes(ModulesPuts(n), ModulesGets(n));
  }

  lemma DdGetsSize(known: bool)
    ensures SizeAll(DdGets(known)) == DdSize
  {
    DdAgrees(known);
    MatchSizes(DdPuts(known), DdGets(known));
  }

  lemma LateSizes(version: nat, dynarec: bool)
    ensures SizeAll(LateGets(version, dynarec)) <= 196
  {
    var a := if version >= V1_5 then JalGets(dynarec) else [];
    var b := if version >= V1_7 then DmaGets() else [];
    var c := if version >= V1_8 then FlashGets() else [];
    var d := if version >= Latest then LatchGets() else [];
    SizeByOffsets(JalGets(dynarec), [0, 4]);
    SizeByOffsets(DmaGets(), [0, 32]);
    SizeByOffsets(FlashGets(), [0, 128, 136, 140, 144]);
    SizeByOffsets(LatchGets(), [0, 16]);
    SizeOfAppend(a, b);
    SizeOfAppend(a + b, c);
    SizeOfAppend(a + b + c, d);
  }

  // ------------------------------------------------------------ round trip

  /** Every value fits the C type its slot has. */
  ghost predicate TypedState(u: Setup, m: Slots) {
    TypedAll(m, MainPuts(u.tlb)) && TypedAll(m, QueuePuts(u.dynarec)) && TypedAll(m, ExtraPuts())
    && (forall i :: 0 <= i < |u.ports| ==> TypedPort(u, m, i))
    && TypedAll(m, StatusPuts()) && TypedAll(m, ModulesPuts(u.modules))
    && TypedAll(m, DdPuts(u.disk.Some?)) && TypedAll(m, LatePuts(u.dynarec))
  }

  ghost predicate TypedPort(u: Setup, m: Slots, i: nat)
    requires i < |u.ports|
  {
    TypedAll(m, RumblePuts(i)) && TypedAll(m, PakPuts(i))
    && (u.ports[i].cart.Some? ==> TypedAll(m, CartPuts(i)))
  }

  /** Every inserted cartridge has a title, so its fingerprint does not start with zero. */
  predicate CartNamed(u: Setup, i: nat)
    requires ValidSetup(u) && i < |u.ports|
  {
    u.ports[i].cart.Some? ==> u.ports[i].cart.value.fingerprint[0] != 0
  }

  /** The slots the writer wrote and the reader is willing to set, port by port from `i`. */
  function RumbleSlots(u: Setup, i: nat): (r: set<Slot>)
    requires i <= |u.ports|
    decreases |u.ports| - i
  {
    if i == |u.ports| then {} else
      (if RumbleUsable(u, i) then SlotsAll(RumblePuts(i)) else {}) + RumbleSlots(u, i + 1)
  }

  function PakSlots(u: Setup, i: nat): (r: set<Slot>)
    requires i < |u.ports|
  {
    if !PakUsable(u, i) then {}
    else SlotsAll(PakPuts(i)) + if u.ports[i].cart.Some? then SlotsAll(CartPuts(i)) else {}
  }

  function PaksSlots(u: Setup, i: nat): (r: set<Slot>)
    requires i <= |u.ports|
    decreases |u.ports| - i
  {
    if i == |u.ports| then {} else PakSlots(u, i) + PaksSlots(u, i + 1)
  }

  lemma AssocFour(a: seq<Byte>, b: seq<Byte>, c: seq<Byte>, d: seq<Byte>, rest: seq<Byte>)
    ensures (a + (b + (c + d))) + rest == a + (b + (c + (d + rest)))
  {
    Assoc(a, b + (c + d), rest);
    Assoc(b, c + d, rest);
    Assoc(c, d, rest);
  }

  lemma RunRestores(saved: Slots, m: Slots, ps: seq<Op>, gs: seq<Op>, rest: seq<Byte>)
    requires MatchAll(ps, gs) && TypedAll(saved, ps)
    ensures SizeAll(gs) == SizeAll(ps)
    ensures var r := Run(Cursor(m, EncodeAll(saved, ps) + rest), gs);
            r.rest == rest && Restored(saved, m, r.slots, SlotsAll(ps))
  {
    StepsRoundTrip(saved, m, ps, gs, rest);
  }

  lemma RunSkips(m: Slots, n: nat, b: seq<Byte>, rest: seq<Byte>)
    requires |b| == n
    ensures SizeAll([Skip(n)]) == n
    ensures Run(Cursor(m, b + rest), [Skip(n)]) == Cursor(m, rest)
  {
    SizeByOffsets([Skip(n)], [0, n]);
    assert DecodeAll(m, [Skip(n)], b + rest) == m;
  }

  lemma {:induction false} RumblesRestore(u: Setup, saved: Slots, m: Slots, i: nat, rest: seq<Byte>)
    requires i <= |u.ports|
    requires forall k :: 0 <= k < |u.ports| ==> TypedPort(u, saved, k)
    ensures var r := LoadRumbles(u, Cursor(m, RumblesBytes(u, saved, i) + rest), i);
            r.rest == rest && Restored(saved, m, r.slots, RumbleSlots(u, i))
    decreases |u.ports| - i
  {
    if i < |u.ports| {
      var x, y := EncodeAll(saved, RumblePuts(i)), RumblesBytes(u, saved, i + 1) + rest;
      assert TypedPort(u, saved, i);
      RumbleAgrees(i);
      RumbleSize(i, RumbleUsable(u, i));
      if RumbleUsable(u, i) {
        RunRestores(saved, m, RumblePuts(i), RumbleGets(i, true), y);
      } else {
        RunSkips(m, 1, x, y);
      }
      Assoc(x, RumblesBytes(u, saved, i + 1), rest);
      var next := Run(Cursor(m, x + y), RumbleGets(i, RumbleUsable(u, i)));
      RumblesRestore(u, saved, next.slots, i + 1, rest);
      RestoredChain(saved, m, next.slots, LoadRumbles(u, next, i + 1).slots,
                    if RumbleUsable(u, i) then SlotsAll(RumblePuts(i)) else {}, RumbleSlots(u, i + 1));
    }
  }

  /** What follows a pak's fingerprint in the file. */
  function CartTail(u: Setup, saved: Slots, i: nat): (r: seq<Byte>)
    requires i < |u.ports|
  {
    if u.ports[i].cart.Some? then EncodeAll(saved, CartPuts(i)) else []
  }

  function Fingerprint(u: Setup, i: nat): (r: seq<Byte>)
    requires ValidSetup(u) && i < |u.ports|
    ensures |r| == FingerprintSize
  {
    if u.ports[i].cart.Some? then u.ports[i].cart.value.fingerprint else Zeros(FingerprintSize)
  }

  /** The reader in front of a pak the writer wrote: first the pak's own four numbers. */
  lemma PakFront(u: Setup, saved: Slots, m: Slots, i: nat, rest: seq<Byte>)
    requires ValidSetup(u) && i < |u.ports| && TypedAll(saved, PakPuts(i))
    ensures SizeAll(PakGets(i, PakUsable(u, i))) == 16
    ensures var c := Run(Cursor(m, PakBytes(u, saved, i) + rest), PakGets(i, PakUsable(u, i)));
            c.rest == Fingerprint(u, i) + (CartTail(u, saved, i) + rest)
            && c.rest[..FingerprintSize] == Fingerprint(u, i)
            && c.rest[FingerprintSize..] == CartTail(u, saved, i) + rest
            && Restored(saved, m, c.slots, if PakUsable(u, i) then SlotsAll(PakPuts(i)) else {})
  {
    var x, y := EncodeAll(saved, PakPuts(i)), Fingerprint(u, i) + (CartTail(u, saved, i) + rest);
    PakAgrees(i);
    PakGetsSize(i, PakUsable(u, i));
    assert PakBytes(u, saved, i) + rest == x + y;
    if PakUsable(u, i) {
      RunRestores(saved, m, PakPuts(i), PakGets(i, true), y);
    } else {
      RunSkips(m, 16, x, y);
    }
  }

  /** How far the reader moves over a pak the writer wrote, named or not. */
  lemma PakCursor(u: Setup, saved: Slots, m: Slots, i: nat, rest: seq<Byte>)
    requires ValidSetup(u) && i < |u.ports| && TypedAll(saved, PakPuts(i)) && |rest| >= CartSize
    ensures LoadPak(u, Cursor(m, PakBytes(u, saved, i) + rest), i).rest
         == if CartNamed(u, i) then rest else CartTail(u, saved, i) + rest
  {
    PakFront(u, saved, m, i, rest);
    CartAgrees(i);
    var known := PakUsable(u, i) && CartNamed(u, i) && u.ports[i].cart.Some?;
    CartGetsSize(i, known);
    if !u.ports[i].cart.Some? {
      assert CartTail(u, saved, i) + rest == rest;
    } else {
      assert (CartTail(u, saved, i) + rest)[CartSize..] == rest;
    }
  }

  lemma PakRestores(u: Setup, saved: Slots, m: Slots, i: nat, rest: seq<Byte>)
    requires ValidSetup(u) && i < |u.ports| && TypedPort(u, saved, i) && |rest| >= CartSize
    requires CartNamed(u, i)
    ensures var r := LoadPak(u, Cursor(m, PakBytes(u, saved, i) + rest), i);
            r.rest == rest && Restored(saved, m, r.slots, PakSlots(u, i))
  {
    PakFront(u, saved, m, i, rest);
    PakCursor(u, saved, m, i, rest);
    var c1 := Run(Cursor(m, PakBytes(u, saved, i) + rest), PakGets(i, PakUsable(u, i)));
    if u.ports[i].cart.Some? {
      CartAgrees(i);
      if PakUsable(u, i) {
        RunRestores(saved, c1.slots, CartPuts(i), CartGets(i, true), rest);
        RestoredChain(saved, m, c1.slots, Run(Cursor(c1.slots, CartTail(u, saved, i) + rest), CartGets(i, true)).slots,
                      SlotsAll(PakPuts(i)), SlotsAll(CartPuts(i)));
      } else {
        RunSkips(c1.slots, CartSize, CartTail(u, saved, i), rest);
      }
    }
  }

  /** Peeling one pak off a file's paks, as the reader's loop does. */
  lemma PaksStep(u: Setup, saved: Slots, m: Slots, i: nat, rest: seq<Byte>)
    requires ValidSetup(u) && i < |u.ports|
    requires |rest| >= 136 * (|u.ports| - i)
    ensures LoadPaks(u, Cursor(m, PaksBytes(u, saved, i) + rest), i)
         == LoadPaks(u, LoadPak(u, Cursor(m, PakBytes(u, saved, i) + (PaksBytes(u, saved, i + 1) + rest)), i), i + 1)
  {
    Assoc(PakBytes(u, saved, i), PaksBytes(u, saved, i + 1), rest);
  }

  lemma {:induction false} PaksRestore(u: Setup, saved: Slots, m: Slots, i: nat, rest: seq<Byte>)
    requires ValidSetup(u) && i <= |u.ports|
    requires forall k :: i <= k < |u.ports| ==> TypedPort(u, saved, k) && CartNamed(u, k)
    requires |rest| >= 136 * (|u.ports| - i)
    ensures var r := LoadPaks(u, Cursor(m, PaksBytes(u, saved, i) + rest), i);
            r.rest == rest && Restored(saved, m, r.slots, PaksSlots(u, i))
    decreases |u.ports| - i
  {
    if i == |u.ports| {
      assert PaksBytes(u, saved, i) + rest == rest;
    } else {
      var x, y := PakBytes(u, saved, i), PaksBytes(u, saved, i + 1) + rest;
      PaksStep(u, saved, m, i, rest);
      PakRestores(u, saved, m, i, y);
      var next := LoadPak(u, Cursor(m, x + y), i).slots;
      PaksRestore(u, saved, next, i + 1, rest);
      RestoredChain(saved, m, next, LoadPaks(u, Cursor(next, y), i + 1).slots, PakSlots(u, i), PaksSlots(u, i + 1));
    }
  }

  /** The reader after its first `k` paks. */
  function After(u: Setup, c: Cursor, k: nat): (r: Cursor)
    requires k <= |u.ports| && |c.rest| >= 136 * |u.ports|
    ensures |r.rest| >= |c.rest| - 136 * k
  {
    if k == 0 then c else LoadPak(u, After(u, c, k - 1), k - 1)
  }

  /** The reader stands where the writer stood before pak `k`. */
  ghost predicate InStep(u: Setup, saved: Slots, m: Slots, rest: seq<Byte>, k: nat)
    requires ValidSetup(u) && k <= |u.ports| && |rest| >= 136 * |u.ports|
  {
    After(u, Cursor(m, PaksBytes(u, saved, 0) + rest), k).rest == PaksBytes(u, saved, k) + rest
  }

  /** One pak, from wherever the reader got in step. */
  lemma PakKeepsStep(u: Setup, saved: Slots, c: Cursor, rest: seq<Byte>, k: nat)
    requires ValidSetup(u) && k < |u.ports| && |rest| >= 136 * |u.ports| && TypedPort(u, saved, k)
    requires c.rest == PaksBytes(u, saved, k) + rest
    ensures LoadPak(u, c, k).rest == PaksBytes(u, saved, k + 1) + rest <==> CartNamed(u, k)
  {
    var y := PaksBytes(u, saved, k + 1) + rest;
    Assoc(PakBytes(u, saved, k), PaksBytes(u, saved, k + 1), rest);
    assert c == Cursor(c.slots, PakBytes(u, saved, k) + y);
    PakCursor(u, saved, c.slots, k, y);
    CartAgrees(k);
    assert !CartNamed(u, k) ==> |CartTail(u, saved, k) + y| != |y|;
  }

  lemma StepIff(u: Setup, saved: Slots, m: Slots, rest: seq<Byte>, k: nat)
    requires ValidSetup(u) && k < |u.ports| && |rest| >= 136 * |u.ports| && TypedPort(u, saved, k)
    requires InStep(u, saved, m, rest, k)
    ensures InStep(u, saved, m, rest, k + 1) <==> CartNamed(u, k)
  {
    PakKeepsStep(u, saved, After(u, Cursor(m, PaksBytes(u, saved, 0) + rest), k), rest, k);
  }

  lemma {:induction false} InductUp(p: nat -> bool, n: nat)
    requires p(0) && forall k: nat :: k < n && p(k) ==> p(k + 1)
    ensures p(n)
  {
    if n > 0 { InductUp(p, n - 1); }
  }

  lemma InStepUpTo(u: Setup, saved: Slots, m: Slots, rest: seq<Byte>, k: nat)
    requires ValidSetup(u) && k <= |u.ports| && |rest| >= 136 * |u.ports|
    requires forall j :: 0 <= j < |u.ports| ==> TypedPort(u, saved, j)
    requires forall j :: 0 <= j < k ==> CartNamed(u, j)
    ensures InStep(u, saved, m, rest, k)
  {
    ghost var p := (j: nat) => j <= |u.ports| && InStep(u, saved, m, rest, j);
    forall j: nat | j < k && p(j) ensures p(j + 1) {
      StepIff(u, saved, m, rest, j);
    }
    InductUp(p, k);
  }

  /**
   * Reader and writer stand at the same byte before every pak and after the
   * last one if and only if every inserted cartridge's fingerprint starts with
   * a non-zero byte: the writer writes a block for every cartridge, the reader
   * looks at that byte.
   */
  lemma CursorsAgreeIff(u: Setup, saved: Slots, m: Slots, rest: seq<Byte>)
    requires ValidSetup(u) && |rest| >= 136 * |u.ports|
    requires forall j :: 0 <= j < |u.ports| ==> TypedPort(u, saved, j)
    ensures (forall k :: 0 <= k <= |u.ports| ==> InStep(u, saved, m, rest, k))
       <==> (forall j :: 0 <= j < |u.ports| ==> CartNamed(u, j))
  {
    if forall k :: 0 <= k <= |u.ports| ==> InStep(u, saved, m, rest, k) {
      forall j | 0 <= j < |u.ports| ensures CartNamed(u, j) {
        assert InStep(u, saved, m, rest, j) && InStep(u, saved, m, rest, j + 1);
        StepIff(u, saved, m, rest, j);
      }
    } else if forall j :: 0 <= j < |u.ports| ==> CartNamed(u, j) {
      forall k | 0 <= k <= |u.ports| ensures InStep(u, saved, m, rest, k) {
        InStepUpTo(u, saved, m, rest, k);
      }
    }
  }

  /** The first untitled cartridge puts the reader out of step. */
  lemma UntitledCartShifts(u: Setup, saved: Slots, m: Slots, rest: seq<Byte>, k: nat)
    requires ValidSetup(u) && |rest| >= 136 * |u.ports| && k < |u.ports|
    requires forall j :: 0 <= j < |u.ports| ==> TypedPort(u, saved, j)
    requires (forall j :: 0 <= j < k ==> CartNamed(u, j)) && !CartNamed(u, k)
    ensures !InStep(u, saved, m, rest, k + 1)
  {
    InStepUpTo(u, saved, m, rest, k);
    StepIff(u, saved, m, rest, k);
  }

  /** A channel comes back if and only if it was off or its command starts less than 128 bytes into PIF RAM. */
  predicate Near(t: Tx) {
    t.Off? || 0 <= t.offset < 128
  }

  lemma ChannelRestoredIff(t: Tx)
    ensures LoadChannel(ChannelByte(t)) == t <==> Near(t)
  {
    match t
    case Off =>
    case At(offset) =>
      var low := offset % 256;
      assert 0 <= low < 256;
      if 0 <= offset < 256 {
        assert low == offset;
      }
  }

  /** A command outside PIF RAM, as a channel reset sets one up, is moved or lost. */
  lemma ResetChannelLost()
    ensures LoadChannel(ChannelByte(At(256))) == At(0)
    ensures LoadChannel(ChannelByte(At(200))) == Off
  {
  }

  lemma ChannelsRestoredIff(ts: seq<Tx>, k: nat)
    requires k < |ts|
    ensures LoadChannels(ChannelsBytes(ts))[k] == ts[k] <==> Near(ts[k])
  {
    assert LoadChannels(ChannelsBytes(ts))[k] == LoadChannel(ChannelByte(ts[k]));
    ChannelRestoredIff(ts[k]);
  }

  lemma DdRestores(u: Setup, saved: Slots, m: Slots, rest: seq<Byte>)
    requires ValidSetup(u) && TypedAll(saved, DdPuts(u.disk.Some?))
    ensures var r := LoadDd(u, Cursor(m, DdBytes(u, saved) + rest));
            r.rest == rest && Restored(saved, m, r.slots, SlotsAll(DdPuts(u.disk.Some?)))
  {
    var id := if u.disk.Some? then u.disk.value else 0;
    var x, y := Little(id, 4), EncodeAll(saved, DdPuts(u.disk.Some?)) + rest;
    assert DdBytes(u, saved) + rest == x + y;
    assert (x + y)[..4] == x && (x + y)[4..] == y;
    NumberOfLittle(id, 4);
    DdAgrees(u.disk.Some?);
    RunRestores(saved, m, DdPuts(u.disk.Some?), DdGets(u.disk.Some?), rest);
  }

  lemma PortsRestore(u: Setup, v: Slots, m: Slots, rest: seq<Byte>)
    requires ValidSetup(u) && TypedState(u, v) && |rest| >= 136 * |u.ports|
    requires forall i :: 0 <= i < |u.ports| ==> CartNamed(u, i)
    ensures SizeAll(ExtraPuts()) == 44
    ensures var data := EncodeAll(v, ExtraPuts()) + (RumblesBytes(u, v, 0) + (PaksBytes(u, v, 0) + rest));
            var r := LoadPorts(u, Cursor(m, data));
            r.rest == rest && Restored(v, m, r.slots, SlotsAll(ExtraPuts()) + RumbleSlots(u, 0) + PaksSlots(u, 0))
  {
    var b := PaksBytes(u, v, 0) + rest;
    var a := RumblesBytes(u, v, 0) + b;
    ExtraAgrees();
    RunRestores(v, m, ExtraPuts(), ExtraGets(), a);
    var c0 := Run(Cursor(m, EncodeAll(v, ExtraPuts()) + a), ExtraGets());
    RumblesRestore(u, v, c0.slots, 0, b);
    var c1 := LoadRumbles(u, c0, 0);
    PaksRestore(u, v, c1.slots, 0, rest);
    RestoredChain(v, m, c0.slots, c1.slots, SlotsAll(ExtraPuts()), RumbleSlots(u, 0));
    RestoredChain(v, m, c1.slots, LoadPaks(u, c1, 0).slots, SlotsAll(ExtraPuts()) + RumbleSlots(u, 0), PaksSlots(u, 0));
  }

  lemma {:induction false} SlotsAt(ops: seq<Op>, k: nat)
    requires k < |ops|
    ensures SlotsOf(ops[k]) <= SlotsAll(ops)
  {
    if k > 0 {
      SlotsAt(ops[1..], k - 1);
    }
  }

  lemma FlashWritten()
    ensures Flash(FlashMode) in SlotsAll(FlashPuts()) && Flash(ErasePage) in SlotsAll(FlashPuts())
    ensures Flash(FlashStatus) in SlotsAll(FlashPuts()) && Flash(PageBuf) in SlotsAll(FlashPuts())
  {
    var ops := FlashPuts();
    SlotsAt(ops, 0);
    SlotsAt(ops, 2);
    SlotsAt(ops, 3);
    assert ops[0] == Block(1, Flash(PageBuf), 128);
    assert ops[3].slots[0] == Flash(ErasePage) && ops[3].slots[1] == Flash(FlashMode);
    assert ops[2].slots[0] == Flash(FlashStatus);
  }

  lemma JalWritten()
    ensures StopAfterJal in SlotsAll(JalPuts(true))
  {
    assert JalPuts(true)[0].slots[0] == StopAfterJal;
  }
}
