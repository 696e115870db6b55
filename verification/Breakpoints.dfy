/** The debugger's breakpoint table, src/debugger/dbg_breakpoints.c.

    Memory accesses are only checked against the table on 64 KiB pages that have been
    hooked. The page hooks are kept up to date step by step; what they must agree with is
    the plain question whether an enabled breakpoint of that kind touches the page. */
module Breakpoints {
  import opened Common

  const MAX_NUMBER: nat := 128
  const PAGE: nat := 0x1_0000

  type Address = n: nat | n < 0x1_0000_0000
  type Page = n: nat | n < 0x1_0000

  // Flags, as the set of their bit numbers.
  type Flags = set<nat>
  const ENABLED: nat := 0
  const READ: nat := 1
  const WRITE: nat := 2
  const EXEC: nat := 3

  datatype Breakpoint = Breakpoint(address: Address, endaddr: Address, flags: Flags)

  /** The first `num` of the 128 slots are in use; the others keep what they last held. */
  datatype Table = Table(slots: seq<Breakpoint>, num: nat, readHooks: set<Page>, writeHooks: set<Page>)

  predicate Shaped(t: Table) { |t.slots| == MAX_NUMBER && t.num <= MAX_NUMBER }

  // ----- the plain scan ----------------------------------------------------------

  /** The range test of lookup_breakpoint. A range whose end lies below its start wraps
      around the top of memory. */
  predicate Overlaps(b: Breakpoint, lo: nat, hi: nat) {
    if b.endaddr < b.address then hi >= b.address || lo <= b.endaddr
    else hi >= b.address && lo <= b.endaddr
  }

  /** The addresses of a breakpoint, counted upwards from its start and around the top. */
  predicate Within(b: Breakpoint, x: Address) {
    (x - b.address) % 0x1_0000_0000 <= (b.endaddr - b.address) % 0x1_0000_0000
  }

  lemma WithinIs(b: Breakpoint, x: Address)
    ensures Within(b, x) <==> if b.address <= b.endaddr then b.address <= x <= b.endaddr
                              else x >= b.address || x <= b.endaddr
  {
  }

  /** The range test is true exactly if some address looked at belongs to the breakpoint. */
  lemma OverlapsIff(b: Breakpoint, lo: Address, hi: nat)
    requires lo <= hi
    ensures Overlaps(b, lo, hi) <==> exists x: Address :: lo <= x <= hi && Within(b, x)
  {
    WithinIs(b, lo);
    if Overlaps(b, lo, hi) {
      var x: Address := if Within(b, lo) then lo else b.address;
      WithinIs(b, x);
      assert lo <= x <= hi && Within(b, x);
    }
    if x: Address :| lo <= x <= hi && Within(b, x) { WithinIs(b, x); }
  }

  predicate Hit(b: Breakpoint, lo: nat, hi: nat, flags: Flags) { flags <= b.flags && Overlaps(b, lo, hi) }

  /** lookup_breakpoint from slot `i` on. */
  function LookupFrom(t: Table, i: nat, lo: nat, hi: nat, flags: Flags): (r: int)
    requires Shaped(t) && i <= t.num
    ensures r == -1 ==> forall j :: i <= j < t.num ==> !Hit(t.slots[j], lo, hi, flags)
    ensures r != -1 ==> i <= r < t.num && Hit(t.slots[r], lo, hi, flags)
    ensures r != -1 ==> forall j :: i <= j < r ==> !Hit(t.slots[j], lo, hi, flags)
    decreases t.num - i
  {
    if i == t.num then -1
    else if Hit(t.slots[i], lo, hi, flags) then i
    else LookupFrom(t, i + 1, lo, hi, flags)
  }

  function Lookup(t: Table, address: Address, size: nat, flags: Flags): int
    requires Shaped(t) && size > 0
  {
    LookupFrom(t, 0, address, address + size - 1, flags)
  }

  predicate TouchesPage(b: Breakpoint, p: Page) { Overlaps(b, p * PAGE, p * PAGE + PAGE - 1) }

  /** Some enabled breakpoint of the kind touches the page. */
  ghost predicate Covered(t: Table, kind: nat, p: Page)
    requires Shaped(t)
  {
    exists i :: 0 <= i < t.num && {ENABLED, kind} <= t.slots[i].flags && TouchesPage(t.slots[i], p)
  }

  lemma CoveredIsLookup(t: Table, kind: nat, p: Page)
    requires Shaped(t)
    ensures Lookup(t, p * PAGE, PAGE, {ENABLED, kind}) != -1 <==> Covered(t, kind, p)
  {
    var r := Lookup(t, p * PAGE, PAGE, {ENABLED, kind});
    if r != -1 {
      assert Hit(t.slots[r], p * PAGE, p * PAGE + PAGE - 1, {ENABLED, kind});
    }
    if Covered(t, kind, p) {
      var i :| 0 <= i < t.num && {ENABLED, kind} <= t.slots[i].flags && TouchesPage(t.slots[i], p);
      assert Hit(t.slots[i], p * PAGE, p * PAGE + PAGE - 1, {ENABLED, kind});
    }
  }

  ghost predicate AgreesOn(t: Table, kind: nat, hooks: set<Page>)
    requires Shaped(t)
  {
    forall p: Page :: p in hooks <==> Covered(t, kind, p)
  }

  /** The page hooks are what the plain scan of the table says they should be. */
  ghost predicate Agrees(t: Table)
    requires Shaped(t)
  {
    AgreesOn(t, READ, t.readHooks) && AgreesOn(t, WRITE, t.writeHooks)
  }

  // ----- the commands, on values ---------------------------------------------------

  /** The pages that the loops of enable and disable visit. */
  predicate Walks(b: Breakpoint, p: Page) { b.address / PAGE <= p <= b.endaddr / PAGE }

  /** Pages visited for the breakpoint on which nothing else of that kind is enabled. */
  ghost function Exposed(t: Table, kind: nat, b: Breakpoint): set<Page>
    requires Shaped(t)
  {
    set p: Page | kind in b.flags && Walks(b, p) && !Covered(t, kind, p)
  }

  ghost function Enable(t: Table, i: nat): (r: Table)
    requires Shaped(t) && i < MAX_NUMBER
    ensures Shaped(r)
  {
    var b := t.slots[i];
    Table(t.slots[i := b.(flags := b.flags + {ENABLED})], t.num,
          t.readHooks + Exposed(t, READ, b), t.writeHooks + Exposed(t, WRITE, b))
  }

  function Cleared(b: Breakpoint): Breakpoint { b.(flags := b.flags - {ENABLED}) }

  ghost function Disable(t: Table, i: nat): (r: Table)
    requires Shaped(t) && i < MAX_NUMBER
    ensures Shaped(r)
  {
    var b := Cleared(t.slots[i]);
    var u := t.(slots := t.slots[i := b]);
    Table(u.slots, u.num, u.readHooks - Exposed(u, READ, b), u.writeHooks - Exposed(u, WRITE, b))
  }

  ghost function DisableIfEnabled(t: Table, i: nat): (r: Table)
    requires Shaped(t) && i < t.num
    ensures Shaped(r) && r.num == t.num
  {
    if ENABLED in t.slots[i].flags then Disable(t, i) else t
  }

  /** Write a new breakpoint into slot `i`, enabling it if it is flagged so. */
  ghost function Put(t: Table, i: nat, b: Breakpoint): (r: Table)
    requires Shaped(t) && i < MAX_NUMBER
    ensures Shaped(r)
  {
    if ENABLED in b.flags then Enable(t.(slots := t.slots[i := Cleared(b)]), i) else t.(slots := t.slots[i := b])
  }

  ghost function AddStruct(t: Table, b: Breakpoint): (r: Table)
    requires Shaped(t)
    ensures Shaped(r)
  {
    if t.num == MAX_NUMBER then t else Put(t, t.num, b).(num := t.num + 1)
  }

  /** Only the range is written; flags left in the slot stay, and EXEC is added. */
  ghost function AddAddress(t: Table, a: Address): (r: Table)
    requires Shaped(t)
    ensures Shaped(r)
  {
    if t.num == MAX_NUMBER then t else
      var b := Breakpoint(a, a, t.slots[t.num].flags + {EXEC});
      Enable(t.(slots := t.slots[t.num := b]), t.num).(num := t.num + 1)
  }

  ghost function Remove(t: Table, i: nat): (r: Table)
    requires Shaped(t) && i < t.num
    ensures Shaped(r)
  {
    var u := DisableIfEnabled(t, i);
    Table(Shift(u.slots, i, u.num), u.num - 1, u.readHooks, u.writeHooks)
  }

  /** Slots `i + 1 .. n` moved down by one. */
  function Shift(s: seq<Breakpoint>, i: nat, n: nat): (r: seq<Breakpoint>)
    requires i < n <= |s|
    ensures |r| == |s|
  {
    s[..i] + s[i + 1..n] + s[n - 1..]
  }

  ghost function RemoveAddress(t: Table, a: Address): (r: Table)
    requires Shaped(t)
    ensures Shaped(r)
  {
    var i := Lookup(t, a, 1, {});
    if i == -1 then t else Remove(t, i)
  }

  ghost function Replace(t: Table, i: nat, b: Breakpoint): (r: Table)
    requires Shaped(t) && i < t.num
    ensures Shaped(r)
  {
    Put(DisableIfEnabled(t, i), i, b)
  }

  // ----- when one step keeps agreement ----------------------------------------------

  predicate Straight(b: Breakpoint) { b.address <= b.endaddr }

  /** Pages the breakpoint touches that the loops do not visit. */
  predicate Misses(b: Breakpoint, p: Page) { TouchesPage(b, p) && !Walks(b, p) }

  lemma WalksTouches(b: Breakpoint, p: Page)
    requires Walks(b, p)
    ensures TouchesPage(b, p)
  {
  }

  /** The loops visit everything exactly for ranges that do not wrap. */
  lemma MissesNothingIff(b: Breakpoint)
    ensures Straight(b) <==> forall p: Page :: !Misses(b, p)
  {
    if !Straight(b) {
      if b.address / PAGE == b.endaddr / PAGE {
        var p: Page := if b.address / PAGE == 0 then 1 else 0;
        assert Misses(b, p);
      } else {
        var p: Page := b.address / PAGE;
        assert Misses(b, p);
      }
    }
  }

  /** Switching on the flag of slot `i`, counted as in use or about to be, changes what is
      covered by exactly the pages it touches. */
  lemma CoveredWhenOn(t: Table, i: nat, n: nat, kind: nat, p: Page)
    requires Shaped(t) && i < n <= MAX_NUMBER && (n == t.num || (n == t.num + 1 && i == t.num))
    ensures var b := t.slots[i];
            var u := t.(slots := t.slots[i := b.(flags := b.flags + {ENABLED})], num := n);
            kind != ENABLED ==> (Covered(u, kind, p) <==> Covered(t, kind, p) || (kind in b.flags && TouchesPage(b, p)))
  {
    var b := t.slots[i];
    var u := t.(slots := t.slots[i := b.(flags := b.flags + {ENABLED})], num := n);
    if kind != ENABLED && Covered(u, kind, p) {
      var j :| 0 <= j < u.num && {ENABLED, kind} <= u.slots[j].flags && TouchesPage(u.slots[j], p);
      assert kind in u.slots[j].flags;
      if j != i { assert u.slots[j] == t.slots[j]; }
    }
    if kind != ENABLED && Covered(t, kind, p) {
      var j :| 0 <= j < t.num && {ENABLED, kind} <= t.slots[j].flags && TouchesPage(t.slots[j], p);
      assert {ENABLED, kind} <= u.slots[j].flags && TouchesPage(u.slots[j], p);
    }
    if kind != ENABLED && kind in b.flags && TouchesPage(b, p) {
      assert {ENABLED, kind} <= u.slots[i].flags && TouchesPage(u.slots[i], p);
    }
  }

  /** Enabling keeps agreement for a kind exactly when every page that the loop misses was
      covered already. */
  lemma EnableAgreesIff(t: Table, i: nat, n: nat, kind: nat, hooks: set<Page>)
    requires Shaped(t) && i < n <= MAX_NUMBER && (n == t.num || (n == t.num + 1 && i == t.num)) && kind != ENABLED
    requires AgreesOn(t, kind, hooks)
    ensures AgreesOn(Enable(t, i).(num := n), kind, hooks + Exposed(t, kind, t.slots[i])) <==>
            forall p: Page :: kind in t.slots[i].flags && Misses(t.slots[i], p) ==> Covered(t, kind, p)
  {
    var b, u, hooks' := t.slots[i], Enable(t, i).(num := n), hooks + Exposed(t, kind, t.slots[i]);
    forall p: Page
      ensures Covered(u, kind, p) <==> Covered(t, kind, p) || (kind in b.flags && TouchesPage(b, p))
      ensures p in hooks' <==> Covered(t, kind, p) || (kind in b.flags && Walks(b, p))
      ensures Walks(b, p) ==> TouchesPage(b, p)
    {
      var v := t.(slots := t.slots[i := b.(flags := b.flags + {ENABLED})], num := n);
      CoveredWhenOn(t, i, n, kind, p);
      SameSlotsSameCover(u, v, kind, p);
      if Walks(b, p) { WalksTouches(b, p); }
    }
  }

  lemma SameSlotsSameCover(t: Table, u: Table, kind: nat, p: Page)
    requires Shaped(t) && Shaped(u) && t.num == u.num && forall j :: 0 <= j < t.num ==> t.slots[j] == u.slots[j]
    ensures Covered(t, kind, p) <==> Covered(u, kind, p)
  {
    if Covered(t, kind, p) {
      var j :| 0 <= j < t.num && {ENABLED, kind} <= t.slots[j].flags && TouchesPage(t.slots[j], p);
      assert u.slots[j] == t.slots[j];
    }
    if Covered(u, kind, p) {
      var j :| 0 <= j < u.num && {ENABLED, kind} <= u.slots[j].flags && TouchesPage(u.slots[j], p);
      assert u.slots[j] == t.slots[j];
    }
  }

  /** Clearing the flag of slot `i` uncovers exactly the pages nothing else covers. */
  lemma CoveredWhenOff(t: Table, i: nat, kind: nat, p: Page)
    requires Shaped(t) && i < t.num && kind != ENABLED
    ensures var b := t.slots[i];
            var u := t.(slots := t.slots[i := Cleared(b)]);
            Covered(t, kind, p) <==> Covered(u, kind, p) || ({ENABLED, kind} <= b.flags && TouchesPage(b, p))
  {
    var b := t.slots[i];
    var u := t.(slots := t.slots[i := Cleared(b)]);
    if Covered(t, kind, p) {
      var j :| 0 <= j < t.num && {ENABLED, kind} <= t.slots[j].flags && TouchesPage(t.slots[j], p);
      if j != i { assert u.slots[j] == t.slots[j]; }
    }
    if Covered(u, kind, p) {
      var j :| 0 <= j < u.num && {ENABLED, kind} <= u.slots[j].flags && TouchesPage(u.slots[j], p);
      assert ENABLED in u.slots[j].flags;
      assert u.slots[j] == t.slots[j];
    }
  }

  /** Disabling keeps agreement for a kind exactly when every page that the loop misses is
      still covered by another breakpoint. */
  lemma DisableAgreesIff(t: Table, i: nat, kind: nat, hooks: set<Page>)
    requires Shaped(t) && i < t.num && kind != ENABLED && AgreesOn(t, kind, hooks)
    ensures var u := t.(slots := t.slots[i := Cleared(t.slots[i])]);
            AgreesOn(Disable(t, i), kind, hooks - Exposed(u, kind, Cleared(t.slots[i]))) <==>
            forall p: Page :: {ENABLED, kind} <= t.slots[i].flags && Misses(t.slots[i], p) ==> Covered(u, kind, p)
  {
    var b, v := t.slots[i], Disable(t, i);
    var u := t.(slots := t.slots[i := Cleared(b)]);
    var hooks' := hooks - Exposed(u, kind, Cleared(b));
    forall p: Page
      ensures Covered(v, kind, p) <==> Covered(u, kind, p)
      ensures Covered(t, kind, p) <==> Covered(u, kind, p) || ({ENABLED, kind} <= b.flags && TouchesPage(b, p))
      ensures p in hooks' <==> Covered(t, kind, p) && !(kind in b.flags && Walks(b, p) && !Covered(u, kind, p))
      ensures {ENABLED, kind} <= b.flags <==> ENABLED in b.flags && kind in b.flags
    {
      SameSlotsSameCover(u, v, kind, p);
      CoveredWhenOff(t, i, kind, p);
    }
  }

  // ----- every command ---------------------------------------------------------------

  datatype Command =
    | CmdAddAddr(address: Address)
    | CmdAddStruct(bkp: Breakpoint)
    | CmdReplace(index: nat, bkp: Breakpoint)
    | CmdRemoveAddr(address: Address)
    | CmdRemoveIdx(index: nat)
    | CmdEnable(index: nat)
    | CmdDisable(index: nat)
    | CmdCheck(address: Address)

  /** Indices name slots in use. */
  predicate Indexed(t: Table, c: Command) {
    match c
    case CmdReplace(i, _) => i < t.num
    case CmdRemoveIdx(i) => i < t.num
    case CmdEnable(i) => i < t.num
    case CmdDisable(i) => i < t.num
    case _ => true
  }

  /** New ranges do not wrap. */
  predicate Proper(t: Table, c: Command) {
    Indexed(t, c) && (c.CmdAddStruct? || c.CmdReplace? ==> Straight(c.bkp))
  }

  /** DebugBreakpointCommand */
  ghost function Apply(t: Table, c: Command): (r: Table)
    requires Shaped(t) && Indexed(t, c)
    ensures Shaped(r)
  {
    match c
    case CmdAddAddr(a) => AddAddress(t, a)
    case CmdAddStruct(b) => AddStruct(t, b)
    case CmdReplace(i, b) => Replace(t, i, b)
    case CmdRemoveAddr(a) => RemoveAddress(t, a)
    case CmdRemoveIdx(i) => Remove(t, i)
    case CmdEnable(i) => Enable(t, i)
    case CmdDisable(i) => Disable(t, i)
    case CmdCheck(_) => t
  }

  /** The invariant: hooks agree with the table, and no range in use wraps. */
  ghost predicate Sound(t: Table) {
    Shaped(t) && Agrees(t) && forall i :: 0 <= i < t.num ==> Straight(t.slots[i])
  }

  lemma EnableSound(t: Table, i: nat, n: nat)
    requires Shaped(t) && Agrees(t) && i < n <= MAX_NUMBER && (n == t.num || (n == t.num + 1 && i == t.num))
    requires Straight(t.slots[i]) && forall j :: 0 <= j < t.num ==> Straight(t.slots[j])
    ensures Sound(Enable(t, i).(num := n))
  {
    MissesNothingIff(t.slots[i]);
    EnableAgreesIff(t, i, n, READ, t.readHooks);
    EnableAgreesIff(t, i, n, WRITE, t.writeHooks);
  }

  lemma DisableSound(t: Table, i: nat)
    requires Sound(t) && i < t.num
    ensures Sound(Disable(t, i)) && ENABLED !in Disable(t, i).slots[i].flags
  {
    MissesNothingIff(t.slots[i]);
    DisableAgreesIff(t, i, READ, t.readHooks);
    DisableAgreesIff(t, i, WRITE, t.writeHooks);
  }

  /** Changing a slot that is not enabled into another that is not enabled, or a slot that is
      not in use, covers nothing new. */
  lemma QuietChange(t: Table, i: nat, b: Breakpoint)
    requires Shaped(t) && Agrees(t) && i < MAX_NUMBER
    requires i < t.num ==> ENABLED !in t.slots[i].flags && ENABLED !in b.flags
    ensures Agrees(t.(slots := t.slots[i := b]))
  {
    var u := t.(slots := t.slots[i := b]);
    forall kind, p: Page ensures Covered(u, kind, p) <==> Covered(t, kind, p) {
      if Covered(t, kind, p) {
        var j :| 0 <= j < t.num && {ENABLED, kind} <= t.slots[j].flags && TouchesPage(t.slots[j], p);
        assert ENABLED in t.slots[j].flags;
        assert u.slots[j] == t.slots[j];
      }
      if Covered(u, kind, p) {
        var j :| 0 <= j < u.num && {ENABLED, kind} <= u.slots[j].flags && TouchesPage(u.slots[j], p);
        assert ENABLED in u.slots[j].flags;
        assert u.slots[j] == t.slots[j];
      }
    }
  }

  lemma QuietGrow(t: Table)
    requires Shaped(t) && Agrees(t) && t.num < MAX_NUMBER && ENABLED !in t.slots[t.num].flags
    ensures Agrees(t.(num := t.num + 1))
  {
    var u := t.(num := t.num + 1);
    forall kind, p: Page ensures Covered(u, kind, p) <==> Covered(t, kind, p) {
      if Covered(u, kind, p) {
        var j :| 0 <= j < u.num && {ENABLED, kind} <= u.slots[j].flags && TouchesPage(u.slots[j], p);
        assert ENABLED in u.slots[j].flags;
      }
      if Covered(t, kind, p) {
        var j :| 0 <= j < t.num && {ENABLED, kind} <= t.slots[j].flags && TouchesPage(t.slots[j], p);
        assert u.slots[j] == t.slots[j];
      }
    }
  }

  lemma ShiftAt(s: seq<Breakpoint>, i: nat, n: nat, j: nat)
    requires i < n <= |s| && j < n - 1
    ensures Shift(s, i, n)[j] == s[if j < i then j else j + 1]
  {
  }

  lemma QuietShift(t: Table, i: nat)
    requires Shaped(t) && Agrees(t) && i < t.num && ENABLED !in t.slots[i].flags
    ensures Agrees(t.(slots := Shift(t.slots, i, t.num), num := t.num - 1))
  {
    var u := t.(slots := Shift(t.slots, i, t.num), num := t.num - 1);
    forall kind, p: Page ensures Covered(u, kind, p) <==> Covered(t, kind, p) {
      if Covered(t, kind, p) {
        var j :| 0 <= j < t.num && {ENABLED, kind} <= t.slots[j].flags && TouchesPage(t.slots[j], p);
        assert ENABLED in t.slots[j].flags;
        var j' := if j < i then j else j - 1;
        ShiftAt(t.slots, i, t.num, j');
        assert u.slots[j'] == t.slots[j];
      }
      if Covered(u, kind, p) {
        var j :| 0 <= j < u.num && {ENABLED, kind} <= u.slots[j].flags && TouchesPage(u.slots[j], p);
        ShiftAt(t.slots, i, t.num, j);
        assert {ENABLED, kind} <= t.slots[if j < i then j else j + 1].flags;
      }
    }
  }

  lemma RemoveSound(t: Table, i: nat)
    requires Sound(t) && i < t.num
    ensures Sound(Remove(t, i))
  {
    var u := DisableIfEnabled(t, i);
    if ENABLED in t.slots[i].flags { DisableSound(t, i); }
    QuietShift(u, i);
    forall j | 0 <= j < u.num - 1 ensures Straight(Remove(t, i).slots[j]) { ShiftAt(u.slots, i, u.num, j); }
  }

  lemma ReplaceSound(t: Table, i: nat, b: Breakpoint)
    requires Sound(t) && i < t.num && Straight(b)
    ensures Sound(Replace(t, i, b))
  {
    var u := DisableIfEnabled(t, i);
    if ENABLED in t.slots[i].flags { DisableSound(t, i); }
    if ENABLED in b.flags {
      QuietChange(u, i, Cleared(b));
      var v := u.(slots := u.slots[i := Cleared(b)]);
      EnableSound(v, i, v.num);
    } else {
      QuietChange(u, i, b);
    }
  }

  lemma AddStructSound(t: Table, b: Breakpoint)
    requires Sound(t) && Straight(b)
    ensures Sound(AddStruct(t, b))
  {
    if t.num < MAX_NUMBER {
      if ENABLED in b.flags {
        QuietChange(t, t.num, Cleared(b));
        EnableSound(t.(slots := t.slots[t.num := Cleared(b)]), t.num, t.num + 1);
      } else {
        QuietChange(t, t.num, b);
        QuietGrow(t.(slots := t.slots[t.num := b]));
      }
    }
  }

  lemma AddAddressSound(t: Table, a: Address)
    requires Sound(t)
    ensures Sound(AddAddress(t, a))
  {
    if t.num < MAX_NUMBER {
      var b := Breakpoint(a, a, t.slots[t.num].flags + {EXEC});
      QuietChange(t, t.num, b);
      EnableSound(t.(slots := t.slots[t.num := b]), t.num, t.num + 1);
    }
  }

  lemma ApplySound(t: Table, c: Command)
    requires Sound(t) && Proper(t, c)
    ensures Sound(Apply(t, c))
  {
    match c
    case CmdAddAddr(a) => AddAddressSound(t, a);
    case CmdAddStruct(b) => AddStructSound(t, b);
    case CmdReplace(i, b) => ReplaceSound(t, i, b);
    case CmdRemoveAddr(a) =>
      var i := Lookup(t, a, 1, {});
      if i != -1 { RemoveSound(t, i); }
    case CmdRemoveIdx(i) => RemoveSound(t, i);
    case CmdEnable(i) => EnableSound(t, i, t.num);
    case CmdDisable(i) => DisableSound(t, i);
    case CmdCheck(_) =>
  }

  // ----- the table a command leaves ----------------------------------------------------

  /** Slot `i` holds `b`, and the other slots are as they were. */
  ghost predicate OneSlot(t: Table, u: Table, i: nat, b: Breakpoint)
    requires Shaped(t) && Shaped(u) && i < MAX_NUMBER
  {
    u.slots[i] == b && forall j :: 0 <= j < MAX_NUMBER && j != i ==> u.slots[j] == t.slots[j]
  }

  /** The first slot in use whose range holds the address, whatever its flags. */
  ghost predicate FirstAt(t: Table, i: nat, a: Address)
    requires Shaped(t) && i < t.num
  {
    Overlaps(t.slots[i], a, a) && forall j :: 0 <= j < i ==> !Overlaps(t.slots[j], a, a)
  }

  /** Slot `i` is gone, the later ones have moved down, and the slots not in use before are as
      they were. The slot given up still holds what was last, disabled if it is the one removed. */
  ghost predicate OneLess(t: Table, u: Table, i: nat)
    requires Shaped(t) && Shaped(u) && i < t.num
  {
    && u.num == t.num - 1
    && u.slots[..u.num] == Without(t.slots[..t.num], i)
    && u.slots[u.num] == (if i == u.num then t.slots[i].(flags := t.slots[i].flags - {ENABLED}) else t.slots[u.num])
    && u.slots[t.num..] == t.slots[t.num..]
  }

  /** What a command does to the slots. */
  ghost predicate Edited(t: Table, c: Command, u: Table)
    requires Shaped(t) && Indexed(t, c) && Shaped(u)
  {
    match c
    case CmdAddAddr(a) =>
      if t.num == MAX_NUMBER then u == t
      else u.num == t.num + 1 &&
           OneSlot(t, u, t.num, Breakpoint(a, a, t.slots[t.num].flags + {ENABLED, EXEC}))
    case CmdAddStruct(b) => if t.num == MAX_NUMBER then u == t else u.num == t.num + 1 && OneSlot(t, u, t.num, b)
    case CmdReplace(i, b) => u.num == t.num && OneSlot(t, u, i, b)
    case CmdRemoveAddr(a) =>
      || (u == t && forall j :: 0 <= j < t.num ==> !Overlaps(t.slots[j], a, a))
      || exists i :: 0 <= i < t.num && FirstAt(t, i, a) && OneLess(t, u, i)
    case CmdRemoveIdx(i) => OneLess(t, u, i)
    case CmdEnable(i) => u.num == t.num && OneSlot(t, u, i, t.slots[i].(flags := t.slots[i].flags + {ENABLED}))
    case CmdDisable(i) => u.num == t.num && OneSlot(t, u, i, t.slots[i].(flags := t.slots[i].flags - {ENABLED}))
    case CmdCheck(_) => u == t
  }

  lemma PutTable(t: Table, i: nat, b: Breakpoint)
    requires Shaped(t) && i < MAX_NUMBER
    ensures Put(t, i, b).num == t.num && OneSlot(t, Put(t, i, b), i, b)
  {
    if ENABLED in b.flags { assert b.flags - {ENABLED} + {ENABLED} == b.flags; }
  }

  lemma RemoveTable(t: Table, i: nat)
    requires Shaped(t) && i < t.num
    ensures OneLess(t, Remove(t, i), i)
  {
    var v, u := DisableIfEnabled(t, i), Remove(t, i);
    assert v.slots[i] == t.slots[i].(flags := t.slots[i].flags - {ENABLED}) by {
      if ENABLED !in t.slots[i].flags { assert t.slots[i].flags - {ENABLED} == t.slots[i].flags; }
    }
    assert forall j :: 0 <= j < MAX_NUMBER && j != i ==> v.slots[j] == t.slots[j];
    forall j | 0 <= j < u.num ensures u.slots[..u.num][j] == Without(t.slots[..t.num], i)[j] {
      ShiftAt(v.slots, i, v.num, j);
    }
  }

  /** Every command leaves the table it should, for ranges that wrap too. */
  lemma ApplyTable(t: Table, c: Command)
    requires Shaped(t) && Indexed(t, c)
    ensures Edited(t, c, Apply(t, c))
  {
    match c
    case CmdAddAddr(a) =>
      if t.num < MAX_NUMBER {
        assert t.slots[t.num].flags + {EXEC} + {ENABLED} == t.slots[t.num].flags + {ENABLED, EXEC};
      }
    case CmdAddStruct(b) => if t.num < MAX_NUMBER { PutTable(t, t.num, b); }
    case CmdReplace(i, b) => PutTable(DisableIfEnabled(t, i), i, b);
    case CmdRemoveAddr(a) =>
      var i := Lookup(t, a, 1, {});
      if i != -1 {
        assert forall j :: 0 <= j <= i ==> (Hit(t.slots[j], a, a, {}) <==> Overlaps(t.slots[j], a, a));
        RemoveTable(t, i);
      } else {
        assert forall j :: 0 <= j < t.num ==> (Hit(t.slots[j], a, a, {}) <==> Overlaps(t.slots[j], a, a));
      }
    case CmdRemoveIdx(i) => RemoveTable(t, i);
    case CmdEnable(i) =>
    case CmdDisable(i) =>
    case CmdCheck(_) =>
  }

  // ----- what stops the program --------------------------------------------------------

  predicate CaughtBy(b: Breakpoint, kind: nat, x: Address) { {ENABLED, kind} <= b.flags && Overlaps(b, x, x) }

  /** Some breakpoint in use other than slot `i` catches that kind of access to the address. */
  ghost predicate CaughtBut(t: Table, i: int, kind: nat, x: Address)
    requires Shaped(t)
  {
    exists j :: 0 <= j < t.num && j != i && CaughtBy(t.slots[j], kind, x)
  }

  ghost predicate Caught(t: Table, kind: nat, x: Address)
    requires Shaped(t)
  {
    CaughtBut(t, -1, kind, x)
  }

  /** check_breakpoints finds something exactly if the address is caught. */
  lemma CaughtIsLookup(t: Table, kind: nat, x: Address)
    requires Shaped(t)
    ensures Lookup(t, x, 1, {ENABLED, kind}) != -1 <==> Caught(t, kind, x)
  {
    var r := Lookup(t, x, 1, {ENABLED, kind});
    if r != -1 { assert Hit(t.slots[r], x, x, {ENABLED, kind}) && CaughtBy(t.slots[r], kind, x); }
    if Caught(t, kind, x) {
      var j :| 0 <= j < t.num && CaughtBy(t.slots[j], kind, x);
      assert Hit(t.slots[j], x, x, {ENABLED, kind});
    }
  }

  /** With slot `i` set to `b`, an address is caught by the others or by `b`. */
  lemma CaughtWith(t: Table, u: Table, i: nat, b: Breakpoint, kind: nat, x: Address)
    requires Shaped(t) && Shaped(u) && i < MAX_NUMBER && OneSlot(t, u, i, b)
    requires i < u.num && (u.num == t.num || (u.num == t.num + 1 && i == t.num))
    ensures Caught(u, kind, x) <==> CaughtBut(t, i, kind, x) || CaughtBy(b, kind, x)
  {
    if Caught(u, kind, x) {
      var j :| 0 <= j < u.num && CaughtBy(u.slots[j], kind, x);
      if j != i { assert CaughtBy(t.slots[j], kind, x); }
    }
    if CaughtBut(t, i, kind, x) {
      var j :| 0 <= j < t.num && j != i && CaughtBy(t.slots[j], kind, x);
      assert CaughtBy(u.slots[j], kind, x);
    }
    if CaughtBy(b, kind, x) { assert CaughtBy(u.slots[i], kind, x); }
  }

  lemma CaughtWithout(t: Table, u: Table, i: nat, kind: nat, x: Address)
    requires Shaped(t) && Shaped(u) && i < t.num && OneLess(t, u, i)
    ensures Caught(u, kind, x) <==> CaughtBut(t, i, kind, x)
  {
    var l := Without(t.slots[..t.num], i);
    if Caught(u, kind, x) {
      var j :| 0 <= j < u.num && CaughtBy(u.slots[j], kind, x);
      assert u.slots[..u.num][j] == l[j];
      assert CaughtBy(t.slots[if j < i then j else j + 1], kind, x);
    }
    if CaughtBut(t, i, kind, x) {
      var j :| 0 <= j < t.num && j != i && CaughtBy(t.slots[j], kind, x);
      var j' := if j < i then j else j - 1;
      assert u.slots[..u.num][j'] == l[j'];
      assert CaughtBy(u.slots[j'], kind, x);
    }
  }

  lemma CaughtSplit(t: Table, i: nat, kind: nat, x: Address)
    requires Shaped(t) && i < t.num
    ensures Caught(t, kind, x) <==> CaughtBut(t, i, kind, x) || CaughtBy(t.slots[i], kind, x)
  {
    if CaughtBut(t, i, kind, x) {
      var j :| 0 <= j < t.num && j != i && CaughtBy(t.slots[j], kind, x);
    }
    if CaughtBy(t.slots[i], kind, x) { assert 0 <= i < t.num; }
  }

  lemma AddAddressCaught(t: Table, a: Address, kind: nat, x: Address)
    requires Shaped(t) && t.num < MAX_NUMBER && kind != ENABLED
    ensures Caught(AddAddress(t, a), kind, x) <==>
            Caught(t, kind, x) || (x == a && kind in t.slots[t.num].flags + {EXEC})
  {
    var b, u := Breakpoint(a, a, t.slots[t.num].flags + {ENABLED, EXEC}), AddAddress(t, a);
    ApplyTable(t, CmdAddAddr(a));
    CaughtWith(t, u, t.num, b, kind, x);
    assert CaughtBut(t, t.num, kind, x) <==> Caught(t, kind, x);
    assert CaughtBy(b, kind, x) <==> x == a && kind in t.slots[t.num].flags + {EXEC};
  }

  /** An execution breakpoint added by address stops the program there and nowhere else that it
      did not stop before. */
  lemma AddAddressCatches(t: Table, a: Address, x: Address)
    requires Shaped(t) && t.num < MAX_NUMBER
    ensures Lookup(AddAddress(t, a), x, 1, {ENABLED, EXEC}) != -1 <==>
            x == a || Lookup(t, x, 1, {ENABLED, EXEC}) != -1
  {
    AddAddressCaught(t, a, EXEC, x);
    CaughtIsLookup(t, EXEC, x);
    CaughtIsLookup(AddAddress(t, a), EXEC, x);
  }

  /** What every command changes about the addresses that are caught. */
  lemma ApplyCatches(t: Table, c: Command, kind: nat, x: Address)
    requires Shaped(t) && Indexed(t, c) && kind != ENABLED
    ensures var u := Apply(t, c);
      match c
      case CmdAddAddr(a) =>
        t.num < MAX_NUMBER ==>
          (Caught(u, kind, x) <==> Caught(t, kind, x) || (x == a && kind in t.slots[t.num].flags + {EXEC}))
      case CmdAddStruct(b) =>
        t.num < MAX_NUMBER ==> (Caught(u, kind, x) <==> Caught(t, kind, x) || CaughtBy(b, kind, x))
      case CmdReplace(i, b) => Caught(u, kind, x) <==> CaughtBut(t, i, kind, x) || CaughtBy(b, kind, x)
      case CmdRemoveAddr(a) =>
        (exists i :: 0 <= i < t.num && FirstAt(t, i, a) && (Caught(u, kind, x) <==> CaughtBut(t, i, kind, x))) ||
        (u == t && forall j :: 0 <= j < t.num ==> !Overlaps(t.slots[j], a, a))
      case CmdRemoveIdx(i) => Caught(u, kind, x) <==> CaughtBut(t, i, kind, x)
      case CmdEnable(i) =>
        Caught(u, kind, x) <==> Caught(t, kind, x) || (kind in t.slots[i].flags && Overlaps(t.slots[i], x, x))
      case CmdDisable(i) => Caught(u, kind, x) <==> CaughtBut(t, i, kind, x)
      case CmdCheck(_) => Caught(u, kind, x) <==> Caught(t, kind, x)
  {
    var u := Apply(t, c);
    ApplyTable(t, c);
    match c
    case CmdAddAddr(a) =>
      if t.num < MAX_NUMBER { AddAddressCaught(t, a, kind, x); }
    case CmdAddStruct(b) =>
      if t.num < MAX_NUMBER {
        CaughtWith(t, u, t.num, b, kind, x);
        assert CaughtBut(t, t.num, kind, x) <==> Caught(t, kind, x);
      }
    case CmdReplace(i, b) => CaughtWith(t, u, i, b, kind, x);
    case CmdRemoveAddr(a) =>
      if !(u == t && forall j :: 0 <= j < t.num ==> !Overlaps(t.slots[j], a, a)) {
        var i :| 0 <= i < t.num && FirstAt(t, i, a) && OneLess(t, u, i);
        CaughtWithout(t, u, i, kind, x);
      }
    case CmdRemoveIdx(i) => CaughtWithout(t, u, i, kind, x);
    case CmdEnable(i) =>
      var b := t.slots[i].(flags := t.slots[i].flags + {ENABLED});
      CaughtWith(t, u, i, b, kind, x);
      CaughtSplit(t, i, kind, x);
      assert CaughtBy(b, kind, x) <==> kind in t.slots[i].flags && Overlaps(t.slots[i], x, x);
    case CmdDisable(i) =>
      var b := t.slots[i].(flags := t.slots[i].flags - {ENABLED});
      CaughtWith(t, u, i, b, kind, x);
      assert ENABLED !in b.flags;
    case CmdCheck(_) =>
  }

  ghost predicate Run(ts: seq<Table>, cs: seq<Command>) {
    && |ts| == |cs| + 1
    && Shaped(ts[0]) && ts[0].num == 0 && ts[0].readHooks == {} && ts[0].writeHooks == {}
    && forall k :: 0 <= k < |cs| ==> Shaped(ts[k]) && Proper(ts[k], cs[k]) && ts[k + 1] == Apply(ts[k], cs[k])
  }

  /** After any sequence of commands, whatever the unused slots held at the start, a page is
      hooked exactly when an enabled breakpoint of that kind touches it. */
  lemma {:induction false} HooksAgreeInEveryRun(ts: seq<Table>, cs: seq<Command>, k: nat)
    requires Run(ts, cs) && k < |ts|
    ensures Sound(ts[k])
    decreases k
  {
    if k > 0 {
      HooksAgreeInEveryRun(ts, cs, k - 1);
      ApplySound(ts[k - 1], cs[k - 1]);
    }
  }

  /** So no access that an enabled breakpoint would catch happens on an unhooked page. */
  lemma NoAccessMissed(t: Table, kind: nat, address: Address, size: nat)
    requires Sound(t) && size > 0 && address % PAGE + size <= PAGE && (kind == READ || kind == WRITE)
    requires Lookup(t, address, size, {ENABLED, kind}) != -1
    ensures address / PAGE in if kind == READ then t.readHooks else t.writeHooks
  {
    var r := Lookup(t, address, size, {ENABLED, kind});
    var p: Page := address / PAGE;
    assert Hit(t.slots[r], address, address + size - 1, {ENABLED, kind});
    assert p * PAGE <= address && address + size - 1 <= p * PAGE + PAGE - 1;
    assert TouchesPage(t.slots[r], p);
    assert Covered(t, kind, p);
  }

  /** With a wrapped range the promise fails: this read breakpoint covers page 0, and enabling
      it in an empty table hooks nothing. */
  lemma WrappedRangeIsNotHooked(slots: seq<Breakpoint>)
    requires |slots| == MAX_NUMBER
    ensures var t := AddStruct(Table(slots, 0, {}, {}), Breakpoint(0xFFFF_0000, 0x10, {ENABLED, READ}));
            Covered(t, READ, 0) && t.readHooks == {}
  {
    var b := Breakpoint(0xFFFF_0000, 0x10, {ENABLED, READ});
    var t := AddStruct(Table(slots, 0, {}, {}), b);
    assert t.slots[0].flags == {ENABLED, READ};
    assert TouchesPage(t.slots[0], 0);
    assert Exposed(Table(slots[0 := Cleared(b)], 0, {}, {}), READ, Cleared(b)) == {};
  }
}
