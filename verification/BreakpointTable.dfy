/** The code of src/debugger/dbg_breakpoints.c, proved against module Breakpoints. */
module BreakpointTable {
  import opened Breakpoints

  class Debugger {
    const g_Breakpoints: array<Breakpoint>
    var g_NumBreakpoints: nat
    /** The pages that activate_memory_break_read/write have hooked. */
    var readHooks: set<Page>
    var writeHooks: set<Page>

    ghost predicate Valid()
      reads this
    {
      g_Breakpoints.Length == MAX_NUMBER && g_NumBreakpoints <= MAX_NUMBER
    }

    ghost function View(): (t: Table)
      requires Valid()
      reads this, g_Breakpoints
      ensures Shaped(t)
    {
      Table(g_Breakpoints[..], g_NumBreakpoints, readHooks, writeHooks)
    }

    constructor (slots: seq<Breakpoint>)
      requires |slots| == MAX_NUMBER
      ensures Valid() && View() == Table(slots, 0, {}, {})
    {
      g_Breakpoints := new Breakpoint[MAX_NUMBER](i requires 0 <= i < MAX_NUMBER => slots[i]);
      g_NumBreakpoints, readHooks, writeHooks := 0, {}, {};
    }

    /** lookup_breakpoint */
    method LookupBreakpoint(address: Address, size: nat, flags: Flags) returns (r: int)
      requires Valid() && size > 0
      ensures r == Lookup(View(), address, size, flags)
    {
      var endaddr := address + size - 1;
      var i := 0;
      while i < g_NumBreakpoints
        invariant i <= g_NumBreakpoints
        invariant LookupFrom(View(), i, address, endaddr, flags) == Lookup(View(), address, size, flags)
      {
        var b := g_Breakpoints[i];
        if flags <= b.flags {
          if b.endaddr < b.address {
            if endaddr >= b.address || address <= b.endaddr { return i; }
          } else {
            if endaddr >= b.address && address <= b.endaddr { return i; }
          }
        }
        i := i + 1;
      }
      return -1;
    }

    /** The page loop that enable_breakpoint and disable_breakpoint run once for each kind:
        collect the pages of the range on which no enabled breakpoint of that kind is found. */
    method WalkPages(b: Breakpoint, kind: nat) returns (pages: set<Page>)
      requires Valid() && kind in b.flags
      ensures pages == Exposed(View(), kind, b)
    {
      pages := {};
      var last := b.endaddr / PAGE * PAGE + 0xFFFF;
      var bptAddr: nat := b.address;
      ghost var steps := 0;
      while bptAddr <= last
        invariant bptAddr == b.address + steps * PAGE
        invariant pages ==
                  set p: Page | b.address / PAGE <= p < bptAddr / PAGE && Walks(b, p) && !Covered(View(), kind, p)
        decreases last + PAGE - bptAddr
      {
        var p: Page := bptAddr / PAGE;
        var r := LookupBreakpoint(p * PAGE, 0x10000, {ENABLED, kind});
        CoveredIsLookup(View(), kind, p);
        if r == -1 { pages := pages + {p}; }
        bptAddr := bptAddr + 0x10000;
        steps := steps + 1;
      }
    }

    /** enable_breakpoint */
    method EnableBreakpoint(bpt: nat)
      requires Valid() && bpt < MAX_NUMBER
      modifies this, g_Breakpoints
      ensures Valid() && View() == Enable(old(View()), bpt)
    {
      var curBpt := g_Breakpoints[bpt];
      ghost var t := View();
      if READ in curBpt.flags {
        var pages := WalkPages(curBpt, READ);
        readHooks := readHooks + pages;
      }
      assert readHooks == t.readHooks + Exposed(t, READ, curBpt);
      OnlySlotsMatter(t, View(), WRITE, curBpt);
      if WRITE in curBpt.flags {
        var pages := WalkPages(curBpt, WRITE);
        writeHooks := writeHooks + pages;
      }
      assert writeHooks == t.writeHooks + Exposed(t, WRITE, curBpt);
      g_Breakpoints[bpt] := curBpt.(flags := curBpt.flags + {ENABLED});
    }

    /** disable_breakpoint */
    method DisableBreakpoint(bpt: nat)
      requires Valid() && bpt < MAX_NUMBER
      modifies this, g_Breakpoints
      ensures Valid() && View() == Disable(old(View()), bpt)
    {
      var curBpt := Cleared(g_Breakpoints[bpt]);
      g_Breakpoints[bpt] := curBpt;
      ghost var t := View();
      assert t == old(View()).(slots := old(View()).slots[bpt := curBpt]);
      if READ in curBpt.flags {
        var pages := WalkPages(curBpt, READ);
        readHooks := readHooks - pages;
      }
      assert readHooks == t.readHooks - Exposed(t, READ, curBpt);
      OnlySlotsMatter(t, View(), WRITE, curBpt);
      if WRITE in curBpt.flags {
        var pages := WalkPages(curBpt, WRITE);
        writeHooks := writeHooks - pages;
      }
      assert writeHooks == t.writeHooks - Exposed(t, WRITE, curBpt);
    }

    /** add_breakpoint */
    method AddBreakpoint(address: Address) returns (r: int)
      requires Valid()
      modifies this, g_Breakpoints
      ensures Valid() && View() == AddAddress(old(View()), address)
      ensures r == if old(g_NumBreakpoints) == MAX_NUMBER then -1 else old(g_NumBreakpoints)
    {
      if g_NumBreakpoints == MAX_NUMBER { return -1; }
      var n := g_NumBreakpoints;
      g_Breakpoints[n] := Breakpoint(address, address, g_Breakpoints[n].flags + {EXEC});
      assert g_Breakpoints[..] == old(g_Breakpoints[..])[n := g_Breakpoints[n]];
      EnableBreakpoint(n);
      g_NumBreakpoints := n + 1;
      return n;
    }

    /** The part shared by add_breakpoint_struct and replace_breakpoint_num: copy the record
        into the slot and enable it anew if it is flagged as enabled. */
    method PutBreakpoint(bpt: nat, b: Breakpoint)
      requires Valid() && bpt < MAX_NUMBER
      modifies this, g_Breakpoints
      ensures Valid() && View() == Put(old(View()), bpt, b)
    {
      g_Breakpoints[bpt] := b;
      if ENABLED in b.flags {
        g_Breakpoints[bpt] := Cleared(b);
        assert g_Breakpoints[..] == old(g_Breakpoints[..])[bpt := Cleared(b)];
        EnableBreakpoint(bpt);
      }
    }

    /** add_breakpoint_struct */
    method AddBreakpointStruct(newbp: Breakpoint) returns (r: int)
      requires Valid()
      modifies this, g_Breakpoints
      ensures Valid() && View() == AddStruct(old(View()), newbp)
      ensures r == if old(g_NumBreakpoints) == MAX_NUMBER then -1 else old(g_NumBreakpoints)
    {
      if g_NumBreakpoints == MAX_NUMBER { return -1; }
      r := g_NumBreakpoints;
      PutBreakpoint(g_NumBreakpoints, newbp);
      g_NumBreakpoints := g_NumBreakpoints + 1;
    }

    /** The shifting loop of remove_breakpoint_by_num. */
    method ShiftDown(bpt: nat)
      requires Valid() && bpt < g_NumBreakpoints
      modifies g_Breakpoints
      ensures g_Breakpoints[..] == Shift(old(g_Breakpoints[..]), bpt, g_NumBreakpoints)
    {
      ghost var s := g_Breakpoints[..];
      var curBpt := bpt + 1;
      assert s == Shift(s, bpt, curBpt);
      while curBpt < g_NumBreakpoints
        invariant bpt < curBpt <= g_NumBreakpoints
        invariant g_Breakpoints[..] == Shift(s, bpt, curBpt)
      {
        ghost var before := g_Breakpoints[..];
        ShiftStep(s, bpt, curBpt);
        g_Breakpoints[curBpt - 1] := g_Breakpoints[curBpt];
        assert g_Breakpoints[..] == before[curBpt - 1 := before[curBpt]];
        curBpt := curBpt + 1;
      }
    }

    /** remove_breakpoint_by_num */
    method RemoveBreakpoint(bpt: nat)
      requires Valid() && bpt < g_NumBreakpoints
      modifies this, g_Breakpoints
      ensures Valid() && View() == Remove(old(View()), bpt)
    {
      if ENABLED in g_Breakpoints[bpt].flags { DisableBreakpoint(bpt); }
      ShiftDown(bpt);
      g_NumBreakpoints := g_NumBreakpoints - 1;
    }

    /** remove_breakpoint_by_address */
    method RemoveBreakpointByAddress(address: Address)
      requires Valid()
      modifies this, g_Breakpoints
      ensures Valid() && View() == RemoveAddress(old(View()), address)
    {
      var bpt := LookupBreakpoint(address, 1, {});
      if bpt != -1 { RemoveBreakpoint(bpt); }
    }

    /** replace_breakpoint_num */
    method ReplaceBreakpoint(bpt: nat, copyofnew: Breakpoint)
      requires Valid() && bpt < g_NumBreakpoints
      modifies this, g_Breakpoints
      ensures Valid() && View() == Replace(old(View()), bpt, copyofnew)
    {
      if ENABLED in g_Breakpoints[bpt].flags { DisableBreakpoint(bpt); }
      PutBreakpoint(bpt, copyofnew);
    }

    /** DebugBreakpointCommand of src/api/debugger.c: every proper command keeps the hooks and
        the table in agreement. */
    method Command(c: Command) returns (r: int)
      requires Valid() && Indexed(View(), c)
      modifies this, g_Breakpoints
      ensures Valid() && View() == Apply(old(View()), c)
      ensures Sound(old(View())) && Proper(old(View()), c) ==> Sound(View())
      ensures r == if c.CmdCheck? then Lookup(old(View()), c.address, 1, {ENABLED, EXEC})
                   else if c.CmdAddAddr? || c.CmdAddStruct? then
                     (if old(g_NumBreakpoints) == MAX_NUMBER then -1 else old(g_NumBreakpoints))
                   else 0
    {
      r := 0;
      ghost var t := View();
      match c {
        case CmdAddAddr(a) => r := AddBreakpoint(a);
        case CmdAddStruct(b) => r := AddBreakpointStruct(b);
        case CmdReplace(i, b) => ReplaceBreakpoint(i, b);
        case CmdRemoveAddr(a) => RemoveBreakpointByAddress(a);
        case CmdRemoveIdx(i) => RemoveBreakpoint(i);
        case CmdEnable(i) => EnableBreakpoint(i);
        case CmdDisable(i) => DisableBreakpoint(i);
        case CmdCheck(a) => r := LookupBreakpoint(a, 1, {ENABLED, EXEC});
      }
      if Sound(t) && Proper(t, c) { ApplySound(t, c); }
    }
  }

  /** One turn of the shifting loop of remove_breakpoint_by_num. */
  lemma ShiftStep(s: seq<Breakpoint>, i: nat, c: nat)
    requires i < c < |s|
    ensures Shift(s, i, c)[c] == s[c]
    ensures Shift(s, i, c)[c - 1 := s[c]] == Shift(s, i, c + 1)
  {
  }

  /** Coverage reads only the slots in use. */
  lemma OnlySlotsMatter(t: Table, u: Table, kind: nat, b: Breakpoint)
    requires Shaped(t) && Shaped(u) && t.slots == u.slots && t.num == u.num
    ensures Exposed(t, kind, b) == Exposed(u, kind, b)
  {
    forall p: Page ensures Covered(t, kind, p) <==> Covered(u, kind, p) { SameSlotsSameCover(t, u, kind, p); }
  }
}
