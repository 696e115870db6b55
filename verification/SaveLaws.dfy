/**
 * Which files savestates_load_m64p takes, told in bytes, and what it makes of a state that was
 * saved with another disk or another Game Boy cartridge (src/main/savestates.c).
 */
module SaveLaws {
  import opened Common
  import opened SaveLayout
  import opened SaveTables
  import opened SaveState

  // ------------------------------------------------------------ acceptance

  /** "M64+SAVE", a version 1.x, and the MD5 of the running game. */
  predicate Stamped(u: Setup, file: seq<Byte>) {
    && |file| >= 44
    && file[..8] == [0x4D, 0x36, 0x34, 0x2B, 0x53, 0x41, 0x56, 0x45]
    && file[8] == 0 && file[9] == 1
    && file[12..44] == u.md5
  }

  lemma VersionBytes(b: seq<Byte>)
    requires |b| == 4
    ensures FromBig4(b) / 0x10000 == 1 <==> b[0] == 0 && b[1] == 1
    ensures b[0] == 0 && b[1] == 1 ==> (FromBig4(b) >= V1_3 <==> b[2] >= 3)
  {
    var high, low := (b[0] as int) * 256 + b[1] as int, (b[2] as int) * 256 + b[3] as int;
    assert FromBig4(b) == high * 0x10000 + low;
    HighPart(high, low);
  }

  lemma HighPart(high: nat, low: nat)
    requires low < 0x10000
    ensures (high * 0x10000 + low) / 0x10000 == high
  {
  }

  /** A file is loaded exactly if it is stamped for the game, of version 1.3 or later, and long
      enough; a stamped file of an earlier 1.x is of the old format; every other is refused. */
  lemma LoadVerdict(u: Setup, m: Slots, file: seq<Byte>)
    requires |u.md5| == 32 && |u.ports| == 4 && u.tlb == 32 && u.modules == 8
    ensures Load(u, m, file).Loaded? <==> Stamped(u, file) && file[10] >= 3 && |file| >= 16793412
    ensures Load(u, m, file).OldFormat? <==> Stamped(u, file) && file[10] < 3
  {
    if |file| >= 44 {
      var b := file[8..12];
      assert b[0] == file[8] && b[1] == file[9] && b[2] == file[10];
      VersionBytes(b);
    }
  }

  lemma Slices(a: seq<Byte>, b: seq<Byte>, c: seq<Byte>, d: seq<Byte>)
    requires |a| == 8 && |b| == 4 && |c| == 32
    ensures var file := a + b + c + d;
            file[..8] == a && file[8..12] == b && file[12..44] == c && file[44..] == d
    ensures var file := a + b + c + d; file[8] == b[0] && file[9] == b[1] && file[10] == b[2]
  {
  }

  lemma HeaderStamped(u: Setup, body: seq<Byte>)
    requires ValidSetup(u)
    ensures Stamped(u, Header(u) + body) && (Header(u) + body)[10] == 9
  {
    Slices(Magic, Big4(Latest), u.md5, body);
    assert Big4(Latest) == [0, 1, 9, 0];
  }

  lemma SaveStamped(u: Setup, st: State)
    requires ValidSetup(u) && |st.channels| == 5
    ensures Stamped(u, Save(u, st)) && Save(u, st)[10] == 9 && |Save(u, st)| == 16793412
  {
    HeaderStamped(u, Body(u, st));
  }

  /** A state saved with one game is refused while another one runs. */
  lemma OtherGameRefused(u: Setup, u': Setup, m: Slots, st: State)
    requires ValidSetup(u) && ValidSetup(u') && |st.channels| == 5 && u'.md5 != u.md5
    ensures Load(u', m, Save(u, st)) == Refused
  {
    SaveStamped(u, st);
    LoadVerdict(u', m, Save(u, st));
  }

  lemma CutRefused(u: Setup, m: Slots, file: seq<Byte>, n: nat)
    requires |u.md5| == 32 && |u.ports| == 4 && u.tlb == 32 && u.modules == 8
    requires n < |file| == 16793412 && file[10] >= 3
    ensures Load(u, m, file[..n]) == Refused
  {
    LoadVerdict(u, m, file[..n]);
  }

  /** A saved file that was cut off anywhere is refused. */
  lemma CutFileRefused(u: Setup, u': Setup, m: Slots, st: State, n: nat)
    requires ValidSetup(u) && ValidSetup(u') && |st.channels| == 5 && n < 16793412
    ensures n < |Save(u, st)| && Load(u', m, Save(u, st)[..n]) == Refused
  {
    SaveStamped(u, st);
    CutRefused(u', m, Save(u, st), n);
  }

  // ------------------------------------------------------ another disk, another cartridge

  /** A drive saved with another disk than the one inserted is left alone, and stepped over. */
  lemma OtherDiskSkipped(u: Setup, u': Setup, saved: Slots, m: Slots, rest: seq<Byte>)
    requires ValidSetup(u')
    requires u.disk != Some(if u'.disk.Some? then u'.disk.value else 0)
    ensures LoadDd(u, Cursor(m, DdBytes(u', saved) + rest)) == Cursor(m, rest)
  {
    var id := if u'.disk.Some? then u'.disk.value else 0;
    var x, y := Little(id, 4), EncodeAll(saved, DdPuts(u'.disk.Some?));
    DdAgrees(u'.disk.Some?);
    Assoc(x, y, rest);
    FrontOf(x, y + rest);
    NumberOfLittle(id, 4);
    RunSkips(m, DdSize, y, rest);
  }

  lemma FrontOf(a: seq<Byte>, b: seq<Byte>)
    ensures (a + b)[..|a|] == a && (a + b)[|a|..] == b
  {
  }

  /** The pak's own four numbers, written in one setup and read in another. */
  lemma PakNumbers(u: Setup, u': Setup, saved: Slots, m: Slots, i: nat, rest: seq<Byte>) returns (c: Cursor)
    requires ValidSetup(u') && i < |u.ports| && i < |u'.ports| && TypedAll(saved, PakPuts(i))
    ensures SizeAll(PakGets(i, PakUsable(u, i))) == 16
    ensures c == Run(Cursor(m, PakBytes(u', saved, i) + rest), PakGets(i, PakUsable(u, i)))
    ensures c.rest[..FingerprintSize] == Fingerprint(u', i)
    ensures c.rest[FingerprintSize..] == CartTail(u', saved, i) + rest
    ensures Restored(saved, m, c.slots, if PakUsable(u, i) then SlotsAll(PakPuts(i)) else {})
  {
    var x, y := EncodeAll(saved, PakPuts(i)), Fingerprint(u', i) + (CartTail(u', saved, i) + rest);
    PakAgrees(i);
    PakGetsSize(i, PakUsable(u, i));
    PakBytesSplit(u', saved, i, rest);
    if PakUsable(u, i) {
      RunRestores(saved, m, PakPuts(i), PakGets(i, true), y);
    } else {
      RunSkips(m, 16, x, y);
    }
    c := Run(Cursor(m, x + y), PakGets(i, PakUsable(u, i)));
    FrontOf(Fingerprint(u', i), CartTail(u', saved, i) + rest);
  }

  lemma PakBytesSplit(u: Setup, saved: Slots, i: nat, rest: seq<Byte>)
    requires ValidSetup(u) && i < |u.ports|
    ensures PakBytes(u, saved, i) + rest ==
            EncodeAll(saved, PakPuts(i)) + (Fingerprint(u, i) + (CartTail(u, saved, i) + rest))
  {
    var x, f, t := EncodeAll(saved, PakPuts(i)), Fingerprint(u, i), CartTail(u, saved, i);
    assert PakBytes(u, saved, i) == x + (f + t);
    Assoc(x, f + t, rest);
    Assoc(f, t, rest);
  }

  /** What poweron_gb_cart leaves: the first switchable ROM bank, everything else off or zero, and
      the clock and camera of cartridges without them untouched. */
  function PoweredOn(c: Cart, m: Slots, s: Slot): seq<nat>
    requires s.GbCart?
  {
    match s.cart
    case RomBank => [1]
    case RamBank => [0]
    case RamEnable => [0]
    case Mbc1Mode => [0]
    case Latch => if c.clock then [0] else Value(m, s)
    case LastTime => if c.clock then [0] else Value(m, s)
    case RtcRegs => if c.clock then [0, 0, 0, 0, 0] else Value(m, s)
    case LatchedRegs => if c.clock then [0, 0, 0, 0, 0] else Value(m, s)
    case CamRegs => if c.camera then seq(0x36, k => 0) else Value(m, s)
  }

  lemma PowerOnValue(m: Slots, i: nat, c: Cart, s: Slot)
    ensures Value(PowerOnCart(m, i, c), s) == if s.GbCart? && s.port == i then PoweredOn(c, m, s) else Value(m, s)
  {
  }

  lemma PakSlotsOnly(i: nat, s: Slot)
    ensures s in SlotsAll(PakPuts(i)) <==> s.Pak? && s.port == i
  {
    var op := PakPuts(i)[0];
    assert PakPuts(i)[1..] == [];
    assert op.slots[0] == Pak(i, Enabled) && op.slots[1] == Pak(i, Bank) && op.slots[2] == Pak(i, CartEnabled);
    assert op.slots[3] == Pak(i, ResetState);
    if s.Pak? {
      match s.pak
      case Enabled =>
      case Bank =>
      case CartEnabled =>
      case ResetState =>
    }
  }

  /** Loaded with another Game Boy cartridge than it was saved with: the pak comes back, the
      cartridge is powered on anew, and the reader stays in step. */
  lemma OtherCartPoweredOn(u: Setup, u': Setup, saved: Slots, m: Slots, i: nat, rest: seq<Byte>)
    requires ValidSetup(u) && ValidSetup(u') && i < 4 && TypedAll(saved, PakPuts(i)) && |rest| >= CartSize
    requires CartNamed(u', i) && u.transferpak && !u.ports[i].raw && u.ports[i].standard
    requires u.ports[i].cart.Some? && Fingerprint(u, i) != Fingerprint(u', i)
    ensures var r := LoadPak(u, Cursor(m, PakBytes(u', saved, i) + rest), i);
            r.rest == rest && forall s {:trigger Value(r.slots, s)} ::
              Value(r.slots, s) == if s.Pak? && s.port == i then Value(saved, s)
                                   else if s.GbCart? && s.port == i then PoweredOn(u.ports[i].cart.value, m, s)
                                   else Value(m, s)
  {
    var c := PakNumbers(u, u', saved, m, i, rest);
    CartStepped(u', saved, c.slots, i, rest);
    var r := LoadPak(u, Cursor(m, PakBytes(u', saved, i) + rest), i);
    assert r == Cursor(PowerOnCart(c.slots, i, u.ports[i].cart.value), rest);
    forall s
      ensures Value(r.slots, s) == if s.Pak? && s.port == i then Value(saved, s)
                                   else if s.GbCart? && s.port == i then PoweredOn(u.ports[i].cart.value, m, s)
                                   else Value(m, s)
    {
      OtherCartValue(u.ports[i].cart.value, i, saved, m, c.slots, s);
    }
  }

  lemma OtherCartValue(cart: Cart, i: nat, saved: Slots, m: Slots, c: Slots, s: Slot)
    requires Restored(saved, m, c, SlotsAll(PakPuts(i)))
    ensures Value(PowerOnCart(c, i, cart), s) ==
            if s.Pak? && s.port == i then Value(saved, s)
            else if s.GbCart? && s.port == i then PoweredOn(cart, m, s)
            else Value(m, s)
  {
    PowerOnValue(c, i, cart, s);
    PakSlotsOnly(i, s);
    assert Value(c, s) == if s in SlotsAll(PakPuts(i)) then Value(saved, s) else Value(m, s);
  }

  /** The block of a titled cartridge that is not wanted is stepped over. */
  lemma CartStepped(u: Setup, saved: Slots, m: Slots, i: nat, rest: seq<Byte>)
    requires ValidSetup(u) && i < |u.ports| && CartNamed(u, i)
    ensures Fingerprint(u, i)[0] != 0 <==> u.ports[i].cart.Some?
    ensures SizeAll(CartGets(i, false)) == CartSize
    ensures u.ports[i].cart.Some? ==>
              |CartTail(u, saved, i)| == CartSize &&
              Run(Cursor(m, CartTail(u, saved, i) + rest), CartGets(i, false)) == Cursor(m, rest)
    ensures u.ports[i].cart.None? ==> CartTail(u, saved, i) + rest == rest
  {
    CartAgrees(i);
    CartGetsSize(i, false);
    if u.ports[i].cart.Some? { RunSkips(m, CartSize, CartTail(u, saved, i), rest); }
  }

  /** Without a usable pak nothing is changed, whatever the file holds for the port. */
  lemma NoPakSkipped(u: Setup, u': Setup, saved: Slots, m: Slots, i: nat, rest: seq<Byte>)
    requires ValidSetup(u) && ValidSetup(u') && i < 4 && TypedAll(saved, PakPuts(i)) && |rest| >= CartSize
    requires CartNamed(u', i) && (!u.transferpak || u.ports[i].raw || !u.ports[i].standard)
    ensures var r := LoadPak(u, Cursor(m, PakBytes(u', saved, i) + rest), i);
            r.rest == rest && Restored(saved, m, r.slots, {})
  {
    var c := PakNumbers(u, u', saved, m, i, rest);
    CartStepped(u', saved, c.slots, i, rest);
  }

  /** A rumble pak's state is taken over exactly if the pak is enabled and the port holds a standard
      controller that the core drives itself; the reader takes one byte either way. */
  lemma {:induction false} RumblesLoad(u: Setup, c: Cursor, i: nat, s: Slot)
    requires i <= |u.ports| && |c.rest| >= |u.ports| - i
    ensures LoadRumbles(u, c, i).rest == c.rest[|u.ports| - i..]
    ensures Value(LoadRumbles(u, c, i).slots, s) ==
            if s.Rumble? && i <= s.port < |u.ports| && u.rumble && !u.ports[s.port].raw && u.ports[s.port].standard
            then [c.rest[s.port - i] as nat] else Value(c.slots, s)
    decreases |u.ports| - i
  {
    if i < |u.ports| {
      var usable := RumbleUsable(u, i);
      RumbleSize(i, usable);
      var next := Run(c, RumbleGets(i, usable));
      OneRumble(c, i, usable);
      DropTwice(c.rest, |u.ports| - i);
      RumblesLoad(u, next, i + 1, s);
      if s.Rumble? && i < s.port < |u.ports| { assert next.rest[s.port - i - 1] == c.rest[s.port - i]; }
    }
  }

  lemma DropTwice(b: seq<Byte>, n: nat)
    requires 0 < n <= |b|
    ensures b[1..][n - 1..] == b[n..]
  {
  }

  lemma OneRumble(c: Cursor, i: nat, usable: bool)
    requires |c.rest| >= 1
    ensures SizeAll(RumbleGets(i, usable)) == 1
    ensures Run(c, RumbleGets(i, usable)) ==
            Cursor(if usable then c.slots[Rumble(i) := [c.rest[0] as nat]] else c.slots, c.rest[1..])
  {
    RumbleSize(i, usable);
    var b := c.rest[..1];
    assert b + c.rest[1..] == c.rest;
    if usable {
      OneByte(b);
      assert RumbleGets(i, true) == [Fields(1, [Rumble(i)])];
      DecodeHead(c.slots, RumbleGets(i, true), b, c.rest[1..]);
      assert Assign(c.slots, [Rumble(i)], [b[0] as nat]) == c.slots[Rumble(i) := [b[0] as nat]];
    } else {
      RunSkips(c.slots, 1, b, c.rest[1..]);
    }
  }

  lemma OneByte(b: seq<Byte>)
    requires |b| == 1
    ensures Unpack(b, 1, 1) == [b[0] as nat]
  {
    assert b[..1] == b && b[1..] == [];
    assert Number(b) == b[0] + 256 * Number([]);
  }
}
