/** The code of src/main/cheat.c, proved against module Cheats. */
module CheatEngine {
  import opened Common
  import opened Cheats
  import opened LinkedRing

  /** execute_cheat. The pointer to the old value is passed as its value and whether there is
      one; the new old value is returned. */
  method ExecuteCheat(mem: array<Byte>, address: U32, value: U32, has_old: bool, old_value: U32)
    returns (r: bool, new_old: U32)
    requires mem.Length == 0x100_0001
    modifies mem
    ensures mem[..] == Executed(old(mem[..]), address, value)
    ensures r == Passes(old(mem[..]), address, value)
    ensures new_old == if has_old then Remembered(old(mem[..]), address, old_value) else old_value
    decreases Kind(address) == 0xEE
  {
    r, new_old := true, old_value;
    var kind := Kind(address);
    if kind in {0x80, 0x88, 0xA0, 0xA8, 0xF0} {
      if has_old && old_value == MAGIC { new_old := mem[Host8(address)]; }
      mem[Host8(address)] := value % 256;
    } else if kind in {0x81, 0x89, 0xA1, 0xA9, 0xF1} {
      if has_old && old_value == MAGIC { new_old := Read16(mem[..], address); }
      mem[Host16(address)] := value % 256;
      mem[Host16(address) + 1] := value / 256 % 256;
    } else if kind in {0xD0, 0xD8} {
      r := mem[Host8(address)] == value % 256;
    } else if kind in {0xD1, 0xD9} {
      r := Read16(mem[..], address) == value % 0x1_0000;
    } else if kind in {0xD2, 0xDB} {
      r := mem[Host8(address)] != value % 256;
    } else if kind in {0xD3, 0xDA} {
      r := Read16(mem[..], address) != value % 0x1_0000;
    } else if kind == 0xEE {
      var _, _ := ExecuteCheat(mem, 0xF100_0318, 0x0040, false, MAGIC);
      var _, _ := ExecuteCheat(mem, 0xF100_031A, 0x0000, false, MAGIC);
    }
  }

  ghost function CodesOf(nodes: seq<Node<Code>>): (r: seq<Code>)
    reads nodes
    ensures |r| == |nodes| && forall i :: 0 <= i < |r| ==> r[i] == nodes[i].data
  {
    seq(|nodes|, i requires 0 <= i < |nodes| reads nodes => nodes[i].data)
  }

  /** struct cheat */
  class CheatRecord {
    const name: string
    var enabled: bool
    var was_enabled: bool
    const cheat_codes: Node<Code>
    ghost var nodes: seq<Node<Code>>
    /** The head and the codes. */
    ghost var repr: set<Node<Code>>

    ghost predicate Valid()
      reads this, repr
    {
      && cheat_codes in repr && (forall n :: n in nodes ==> n in repr)
      && (forall n :: n in repr ==> n.home == cheat_codes)
      && Ring(cheat_codes, nodes)
    }

    ghost function View(): Cheat
      reads this, nodes
    {
      Cheat(name, enabled, was_enabled, CodesOf(nodes))
    }

    constructor (name: string)
      ensures Valid() && View() == Cheat(name, false, false, []) && nodes == [] && fresh(repr)
    {
      this.name, enabled, was_enabled, nodes := name, false, false, [];
      var head := new Node<Code>.Head(Code(0, 0, 0));
      cheat_codes, repr := head, {head};
    }

    /** Append one code, as cheat_add_new does for each. */
    method AddCode(address: U32, value: U32)
      requires Valid()
      modifies this`nodes, this`repr, repr
      ensures Valid() && CodesOf(nodes) == old(CodesOf(nodes)) + [Code(address, value, MAGIC)]
      ensures fresh(repr - old(repr))
    {
      var code := new Node<Code>.Item(Code(address, value, MAGIC), cheat_codes);
      ghost var before := CodesOf(nodes);
      AddTail(code, cheat_codes, nodes);
      nodes, repr := nodes + [code], repr + {code};
      assert CodesOf(nodes) == before + [code.data];
    }

    /** A cheat that nothing touched is as it was. */
    twostate lemma Kept()
      requires old(Valid()) && unchanged(this) && forall n :: n in repr ==> unchanged(n)
      ensures Valid() && View() == old(View()) && repr == old(repr)
    {
      assert forall i :: 0 <= i < |nodes| ==> nodes[i] in repr;
      assert CodesOf(nodes) == old(CodesOf(nodes));
      assert Ring(cheat_codes, nodes) by { assert old(Ring(cheat_codes, nodes)); }
    }

    /** The part of find_or_create_cheat for a cheat that exists: delete its codes. */
    method Reset()
      requires Valid()
      modifies this, repr
      ensures Valid() && View() == Cheat(name, false, false, []) && repr == old(repr)
    {
      DeleteAll(cheat_codes, nodes);
      nodes := [];
      enabled, was_enabled := false, false;
    }

    /** The inner loop of cheat_delete_all. */
    method DeleteCodes()
      requires Valid()
      modifies this`nodes, repr
      ensures Valid() && View() == old(View()).(codes := []) && repr == old(repr) && nodes == []
    {
      DeleteAll(cheat_codes, nodes);
      nodes := [];
    }

    method SetEnabled(on: bool)
      requires Valid()
      modifies this`enabled
      ensures Valid() && View() == old(View()).(enabled := on)
    {
      enabled := on;
    }

    /** cheat_add_new for a cheat that exists. */
    method Remake(lines: seq<Line>)
      requires Valid()
      modifies this, repr
      ensures Valid() && View() == Cheat(name, true, false, Expand(lines)) && fresh(repr - old(repr))
    {
      Reset();
      SetEnabled(true);
      assert CodesOf(nodes) == [];
      AddLines(lines);
      NothingBefore(Expand(lines));
    }

    /** The loop of cheat_add_new over its input lines. */
    method AddLines(lines: seq<Line>)
      requires Valid()
      modifies this`nodes, this`repr, repr
      ensures Valid() && CodesOf(nodes) == old(CodesOf(nodes)) + Expand(lines)
      ensures fresh(repr - old(repr))
    {
      var i := 0;
      while i < |lines|
        invariant i <= |lines| && Valid()
        invariant CodesOf(nodes) + Expand(lines[i..]) == old(CodesOf(nodes)) + Expand(lines)
        invariant fresh(repr - old(repr))
      {
        i := AddLine(lines, i);
      }
      assert lines[i..] == [];
    }

    /** The body of that loop; returns where to go on. */
    method AddLine(lines: seq<Line>, i: nat) returns (next: nat)
      requires Valid() && i < |lines|
      modifies this`nodes, this`repr, repr
      ensures Valid() && i < next <= |lines|
      ensures CodesOf(nodes) + Expand(lines[next..]) == old(CodesOf(nodes)) + Expand(lines[i..])
      ensures fresh(repr - old(repr))
    {
      ghost var before, lead := CodesOf(nodes), Lead(lines, i);
      if IsPatch(lines[i].address) && i < |lines| - 1 {
        AddPatch(lines[i], lines[i + 1]);
        next := i + 2;
      } else {
        AddCode(lines[i].address, lines[i].value);
        next := i + 1;
      }
      assert (before + lead) + Expand(lines[next..]) == before + (lead + Expand(lines[next..]));
    }

    /** The codes that the line at `i` (with the next, if it is a patch) stands for. */
    ghost function Lead(lines: seq<Line>, i: nat): (r: seq<Code>)
      requires i < |lines|
      ensures var patch := IsPatch(lines[i].address) && i < |lines| - 1;
              && r == (if patch then Progression(lines[i], lines[i + 1], PatchCount(lines[i].address))
                       else [AsCode(lines[i])])
              && Expand(lines[i..]) == r + Expand(lines[if patch then i + 2 else i + 1..])
    {
      var rest := lines[i..];
      assert rest[1..] == lines[i + 1..];
      if IsPatch(lines[i].address) && i < |lines| - 1 then
        assert rest[2..] == lines[i + 2..];
        ProgressionIs(lines[i], lines[i + 1], PatchCount(lines[i].address));
        Progression(lines[i], lines[i + 1], PatchCount(lines[i].address))
      else [AsCode(lines[i])]
    }

    /** The inner loop for a patch line. */
    method AddPatch(patch: Line, base: Line)
      requires Valid()
      modifies this`nodes, this`repr, repr
      ensures Valid() && CodesOf(nodes) == old(CodesOf(nodes)) + Progression(patch, base, PatchCount(patch.address))
      ensures fresh(repr - old(repr))
    {
      var code_count := PatchCount(patch.address);
      var cur := base;
      var j := 0;
      while j < code_count
        invariant j <= code_count && Valid()
        invariant cur == Advanced(patch, base, j)
        invariant CodesOf(nodes) == old(CodesOf(nodes)) + Progression(patch, base, j)
        invariant fresh(repr - old(repr))
      {
        AddCode(cur.address, cur.value);
        cur := Advance(patch, cur);
        j := j + 1;
      }
    }

    /** Change what code `k` remembers. */
    method SetOld(code: Node<Code>, v: U32, ghost k: nat)
      requires Valid() && k < |nodes| && nodes[k] == code
      modifies code`data
      ensures Valid() && code.next == old(code.next)
      ensures CodesOf(nodes) == old(CodesOf(nodes))[k := old(CodesOf(nodes))[k].(old_value := v)]
    {
      Others(nodes, k);
      code.data := code.data.(old_value := v);
    }

    /** The ENTRY_VI loop. */
    method ApplyVi(mem: array<Byte>, button: bool)
      requires Valid() && mem.Length == 0x100_0001
      modifies mem, nodes`data
      ensures Valid()
      ensures Pass(CodesOf(nodes), mem[..]) == ViLoop(old(CodesOf(nodes)), 0, false, old(mem[..]), button)
    {
      ghost var want := ViLoop(CodesOf(nodes), 0, false, mem[..], button);
      ghost var p := (k: nat, failed: bool, cs: seq<Code>, m: Memory) =>
        k <= |cs| && ViLoop(cs, k, failed, m, button) == want;
      ghost var failed := ViAll(mem, button, want, p);
      assert ViLoop(CodesOf(nodes), |nodes|, failed, mem[..], button) == want;
    }

    /** `p` says that the pass from code `k` on comes to `want`. */
    ghost predicate Completes(p: (nat, bool, seq<Code>, Memory) -> bool, button: bool, want: Pass) {
      forall k: nat, failed, cs, m {:trigger ViLoop(cs, k, failed, m, button)} ::
        k <= |cs| ==> (p(k, failed, cs, m) <==> ViLoop(cs, k, failed, m, button) == want)
    }

    /** The loop itself, with its `cond_failed`. */
    method ViAll(mem: array<Byte>, button: bool, ghost want: Pass, ghost p: (nat, bool, seq<Code>, Memory) -> bool)
      returns (ghost failed: bool)
      requires Valid() && mem.Length == 0x100_0001
      requires Completes(p, button, want) && p(0, false, CodesOf(nodes), mem[..])
      modifies mem, nodes`data
      ensures Valid() && p(|nodes|, failed, CodesOf(nodes), mem[..])
    {
      var cond_failed := false;
      var code := cheat_codes.next;
      ghost var i := 0;
      while code != cheat_codes
        invariant i <= |nodes| && Valid() && code == At(cheat_codes, nodes, i + 1)
        invariant p(i, cond_failed, CodesOf(nodes), mem[..])
        decreases |nodes| - i
      {
        assert code == nodes[i];
        cond_failed := ViStep(code, mem, button, cond_failed, i, want, p);
        code := code.next;
        i := i + 1;
      }
      failed := cond_failed;
    }

    /** The body of that loop. */
    method ViStep(code: Node<Code>, mem: array<Byte>, button: bool, cond_failed: bool, ghost i: nat, ghost want: Pass,
                  ghost p: (nat, bool, seq<Code>, Memory) -> bool)
      returns (failed: bool)
      requires Valid() && mem.Length == 0x100_0001 && i < |nodes| && code == nodes[i]
      requires Completes(p, button, want) && p(i, cond_failed, CodesOf(nodes), mem[..])
      modifies mem, code`data
      ensures Valid() && code.next == old(code.next)
      ensures p(i + 1, failed, CodesOf(nodes), mem[..])
    {
      assert ViLoop(CodesOf(nodes), i, cond_failed, mem[..], button) == want;
      var a, v, o := code.data.address, code.data.value, code.data.old_value;
      failed := cond_failed;
      if IsTest(a) {
        failed := ViTest(code.data, mem, button, cond_failed);
      } else if failed {
        failed := false;
      } else if ButtonWrite(a) {
        assert CodesOf(nodes)[i := CodesOf(nodes)[i]] == CodesOf(nodes);
        if button { var _, _ := ExecuteCheat(mem, a, v, false, MAGIC); }
      } else if !IsBoot(a) {
        var _, o' := ExecuteCheat(mem, a, v, true, o);
        SetOld(code, o', i);
      } else {
        assert CodesOf(nodes)[i := CodesOf(nodes)[i]] == CodesOf(nodes);
      }
      assert ViLoop(CodesOf(nodes), i + 1, failed, mem[..], button) == want;
    }

    /** A test code: the button it may need, and the comparison. */
    method ViTest(c: Code, mem: array<Byte>, button: bool, cond_failed: bool) returns (failed: bool)
      requires IsTest(c.address) && mem.Length == 0x100_0001
      modifies mem
      ensures mem[..] == old(mem[..]) && failed == (cond_failed || !TestHolds(mem[..], c, button))
    {
      failed := cond_failed;
      if NeedsButton(c.address) && !button { failed := true; }
      var r, _ := ExecuteCheat(mem, c.address, c.value, false, MAGIC);
      if !r { failed := true; }
    }

    /** The ENTRY_BOOT loop. */
    method ApplyBoot(mem: array<Byte>)
      requires Valid() && mem.Length == 0x100_0001
      modifies mem, nodes`data
      ensures Valid() && Pass(CodesOf(nodes), mem[..]) == BootLoop(old(CodesOf(nodes)), 0, old(mem[..]))
    {
      ghost var want := BootLoop(CodesOf(nodes), 0, mem[..]);
      ghost var p := (k: nat, cs: seq<Code>, m: Memory) => k <= |cs| && BootLoop(cs, k, m) == want;
      BootAll(mem, want, p);
      assert BootLoop(CodesOf(nodes), |nodes|, mem[..]) == want;
    }

    ghost predicate Boots(p: (nat, seq<Code>, Memory) -> bool, want: Pass) {
      forall k: nat, cs, m {:trigger BootLoop(cs, k, m)} ::
        k <= |cs| ==> (p(k, cs, m) <==> BootLoop(cs, k, m) == want)
    }

    method BootAll(mem: array<Byte>, ghost want: Pass, ghost p: (nat, seq<Code>, Memory) -> bool)
      requires Valid() && mem.Length == 0x100_0001 && Boots(p, want) && p(0, CodesOf(nodes), mem[..])
      modifies mem, nodes`data
      ensures Valid() && p(|nodes|, CodesOf(nodes), mem[..])
    {
      var code := cheat_codes.next;
      ghost var i := 0;
      while code != cheat_codes
        invariant i <= |nodes| && Valid() && code == At(cheat_codes, nodes, i + 1)
        invariant p(i, CodesOf(nodes), mem[..])
        decreases |nodes| - i
      {
        assert code == nodes[i];
        BootStep(code, mem, i, want, p);
        code := code.next;
        i := i + 1;
      }
    }

    method BootStep(code: Node<Code>, mem: array<Byte>, ghost i: nat, ghost want: Pass,
                    ghost p: (nat, seq<Code>, Memory) -> bool)
      requires Valid() && mem.Length == 0x100_0001 && i < |nodes| && code == nodes[i]
      requires Boots(p, want) && p(i, CodesOf(nodes), mem[..])
      modifies mem, code`data
      ensures Valid() && code.next == old(code.next)
      ensures p(i + 1, CodesOf(nodes), mem[..])
    {
      assert BootLoop(CodesOf(nodes), i, mem[..]) == want;
      var a, v, o := code.data.address, code.data.value, code.data.old_value;
      if IsBoot(a) {
        var _, o' := ExecuteCheat(mem, a, v, true, o);
        SetOld(code, o', i);
      }
      assert BootLoop(CodesOf(nodes), i + 1, mem[..]) == want;
    }

    /** The loop that writes the old values back. */
    method Restore(mem: array<Byte>)
      requires Valid() && mem.Length == 0x100_0001
      modifies mem, nodes`data
      ensures Valid() && Pass(CodesOf(nodes), mem[..]) == RestoreLoop(old(CodesOf(nodes)), 0, old(mem[..]))
    {
      ghost var want := RestoreLoop(CodesOf(nodes), 0, mem[..]);
      ghost var p := (k: nat, cs: seq<Code>, m: Memory) => k <= |cs| && RestoreLoop(cs, k, m) == want;
      RestoreAll(mem, want, p);
      assert RestoreLoop(CodesOf(nodes), |nodes|, mem[..]) == want;
    }

    /** `p` says that restoring from code `k` on comes to `want`. */
    ghost predicate Restores(p: (nat, seq<Code>, Memory) -> bool, want: Pass) {
      forall k: nat, cs, m {:trigger RestoreLoop(cs, k, m)} ::
        k <= |cs| ==> (p(k, cs, m) <==> RestoreLoop(cs, k, m) == want)
    }

    method RestoreAll(mem: array<Byte>, ghost want: Pass, ghost p: (nat, seq<Code>, Memory) -> bool)
      requires Valid() && mem.Length == 0x100_0001 && Restores(p, want) && p(0, CodesOf(nodes), mem[..])
      modifies mem, nodes`data
      ensures Valid() && p(|nodes|, CodesOf(nodes), mem[..])
    {
      var code := cheat_codes.next;
      ghost var i := 0;
      while code != cheat_codes
        invariant i <= |nodes| && Valid() && code == At(cheat_codes, nodes, i + 1)
        invariant p(i, CodesOf(nodes), mem[..])
        decreases |nodes| - i
      {
        assert code == nodes[i];
        RestoreStep(code, mem, i, want, p);
        code := code.next;
        i := i + 1;
      }
    }

    method RestoreStep(code: Node<Code>, mem: array<Byte>, ghost i: nat, ghost want: Pass,
                       ghost p: (nat, seq<Code>, Memory) -> bool)
      requires Valid() && mem.Length == 0x100_0001 && i < |nodes| && code == nodes[i]
      requires Restores(p, want) && p(i, CodesOf(nodes), mem[..])
      modifies mem, code`data
      ensures Valid() && code.next == old(code.next)
      ensures p(i + 1, CodesOf(nodes), mem[..])
    {
      assert RestoreLoop(CodesOf(nodes), i, mem[..]) == want;
      var a, o := code.data.address, code.data.old_value;
      if o != MAGIC {
        var _, _ := ExecuteCheat(mem, a, o, false, MAGIC);
        SetOld(code, MAGIC, i);
      }
      assert RestoreLoop(CodesOf(nodes), i + 1, mem[..]) == want;
    }

    /** cheat_apply_cheats, for this cheat. */
    method Apply(mem: array<Byte>, entry: Entry, button: bool)
      requires Valid() && mem.Length == 0x100_0001
      modifies this`was_enabled, mem, nodes`data
      ensures Valid() && (View(), mem[..]) == Tick(old(View()), old(mem[..]), entry, button)
    {
      if enabled {
        was_enabled := true;
        if entry == Boot { ApplyBoot(mem); } else { ApplyVi(mem, button); }
      } else if was_enabled {
        was_enabled := false;
        if entry == Vi { Restore(mem); }
      }
    }
  }

  /** Cheats that own what they are made of. */
  ghost predicate AllValid(cs: seq<CheatRecord>, repr: set<object>)
    reads repr
  {
    && (forall c :: c in cs ==> c in repr && c.repr <= repr && c.Valid())
    && (forall i, j {:trigger cs[i].cheat_codes, cs[j].cheat_codes} ::
          0 <= i < j < |cs| ==> cs[i].cheat_codes != cs[j].cheat_codes)
  }

  ghost function ViewsOf(cs: seq<CheatRecord>, repr: set<object>): (r: seq<Cheat>)
    requires AllValid(cs, repr)
    reads repr
    ensures |r| == |cs| && forall i :: 0 <= i < |r| ==> r[i] == cs[i].View()
  {
    assert forall i :: 0 <= i < |cs| ==> cs[i] in cs && cs[i].Valid() && cs[i].repr <= repr;
    assert forall i, n :: 0 <= i < |cs| && n in cs[i].nodes ==> n in cs[i].repr;
    seq(|cs|, i requires 0 <= i < |cs| && cs[i] in repr && (forall n :: n in cs[i].nodes ==> n in repr) reads repr =>
      cs[i].View())
  }

  /** struct cheat_ctx, with the mutex left out. The list of cheats is a ring whose head carries
      no cheat. */
  class CheatCtx {
    const active_cheats: Node<CheatRecord?>
    ghost var links: seq<Node<CheatRecord?>>
    ghost var cheats: seq<CheatRecord>
    /** The cheats and all their codes. */
    ghost var repr: set<object>

    /** The ring holds the cheats in order. */
    ghost predicate Linked()
      reads this, active_cheats, links
    {
      && Ring(active_cheats, links) && |links| == |cheats|
      && (forall i {:trigger links[i].data} :: 0 <= i < |links| ==> links[i].data == cheats[i])
    }

    ghost predicate Owned()
      reads this, repr
    {
      && this !in repr && active_cheats !in repr && (forall n :: n in links ==> n !in repr)
      && AllValid(cheats, repr)
    }

    ghost predicate Valid()
      reads this, active_cheats, links, repr
    {
      Linked() && Owned()
    }

    ghost function View(): seq<Cheat>
      requires Owned()
      reads this, repr
    {
      ViewsOf(cheats, repr)
    }

    /** cheat_init */
    constructor ()
      ensures Valid() && View() == []
    {
      var head := new Node<CheatRecord?>.Head(null);
      active_cheats, links, cheats, repr := head, [], [], {};
    }

    /** cheat_apply_cheats */
    method ApplyCheats(mem: array<Byte>, entry: Entry, button: bool)
      requires Valid() && mem.Length == 0x100_0001 && mem !in repr
      modifies repr, mem
      ensures Valid() && (View(), mem[..]) == TickAll(old(View()), |old(View())|, old(mem[..]), entry, button)
    {
      ghost var was, before := View(), mem[..];
      ghost var f := (k: nat) => if k <= |was| then TickAll(was, k, before, entry, button) else (was, before);
      assert f(0) == (was, before);
      ApplyAll(mem, entry, button, was, before, f);
      assert f(|was|) == TickAll(was, |was|, before, entry, button);
    }

    /** `f` is the list and the memory after the first `k` cheats. */
    ghost predicate Ticks(f: nat -> (seq<Cheat>, Memory), was: seq<Cheat>, before: Memory, entry: Entry, button: bool) {
      forall k: nat {:trigger TickAll(was, k, before, entry, button)} ::
        k <= |was| ==> f(k) == TickAll(was, k, before, entry, button)
    }

    /** The loop over the ring. */
    method ApplyAll(mem: array<Byte>, entry: Entry, button: bool, ghost was: seq<Cheat>, ghost before: Memory,
                    ghost f: nat -> (seq<Cheat>, Memory))
      requires Valid() && mem.Length == 0x100_0001 && mem !in repr && |was| == |cheats|
      requires Ticks(f, was, before, entry, button) && (View(), mem[..]) == f(0)
      modifies repr, mem
      ensures Valid() && |cheats| == |was| && (View(), mem[..]) == f(|was|)
    {
      var node := active_cheats.next;
      ghost var i := 0;
      while node != active_cheats
        invariant i <= |links| && Valid() && node == At(active_cheats, links, i + 1)
        invariant (View(), mem[..]) == f(i)
        decreases |links| - i
      {
        assert node == links[i] && node.data == cheats[i];
        ApplyNext(node.data, i, mem, entry, button, was, before, f);
        node := node.next;
        i := i + 1;
      }
    }

    method ApplyNext(c: CheatRecord, ghost i: nat, mem: array<Byte>, entry: Entry, button: bool,
                     ghost was: seq<Cheat>, ghost before: Memory, ghost f: nat -> (seq<Cheat>, Memory))
      requires Owned() && i < |cheats| == |was| && c == cheats[i] && mem.Length == 0x100_0001 && mem !in repr
      requires Ticks(f, was, before, entry, button) && (View(), mem[..]) == f(i)
      modifies repr, mem
      ensures Owned() && (View(), mem[..]) == f(i + 1)
    {
      assert (View(), mem[..]) == TickAll(was, i, before, entry, button);
      ApplyOne(c, i, mem, entry, button);
      assert (View(), mem[..]) == TickAll(was, i + 1, before, entry, button);
    }

    method ApplyOne(c: CheatRecord, ghost i: nat, mem: array<Byte>, entry: Entry, button: bool)
      requires Owned() && i < |cheats| && c == cheats[i] && mem.Length == 0x100_0001 && mem !in repr
      modifies repr, mem
      ensures Owned()
      ensures (View(), mem[..]) ==
              var (d, m) := Tick(old(View())[i], old(mem[..]), entry, button); (old(View())[i := d], m)
    {
      assert c in cheats;
      assert forall n :: n in c.nodes ==> n in c.repr && n in repr;
      c.Apply(mem, entry, button);
      RestKept(i);
      OneReplaced(cheats, repr, i, old(View()));
    }

    /** The search by name of find_or_create_cheat and cheat_set_enabled; null if there is none. */
    method Find(name: string) returns (c: CheatRecord?, ghost i: nat)
      requires Valid()
      ensures c == null <==> FindCheat(View(), name) == |View()|
      ensures c != null ==> c == cheats[FindCheat(View(), name)]
      ensures i == FindCheat(View(), name)
    {
      var node := active_cheats.next;
      i := 0;
      while node != active_cheats
        invariant i <= |links| && node == At(active_cheats, links, i + 1)
        invariant forall j :: 0 <= j < i ==> cheats[j].name != name
        decreases |links| - i
      {
        assert node == links[i] && node.data == cheats[i];
        if node.data.name == name {
          FindCheatIs(View(), name, i);
          return node.data, i;
        }
        node := node.next;
        i := i + 1;
      }
      FindCheatIs(View(), name, i);
      c := null;
    }

    /** cheat_set_enabled, for the cheat that the search has found. */
    method SetEnabledAt(c: CheatRecord, ghost i: nat, on: bool)
      requires Owned() && i < |cheats| && c == cheats[i]
      modifies repr
      ensures Owned() && View() == old(View())[i := old(View())[i].(enabled := on)]
    {
      assert c in cheats;
      c.SetEnabled(on);
      RestKept(i);
      OneReplaced(cheats, repr, i, old(View()));
    }

    /** cheat_add_new, when find_or_create_cheat finds the cheat. */
    method Renew(c: CheatRecord, ghost i: nat, lines: seq<Line>)
      requires Owned() && i < |cheats| && c == cheats[i]
      modifies this`repr, repr
      ensures Owned() && View() == old(View())[i := Cheat(old(View())[i].name, true, false, Expand(lines))]
      ensures fresh(repr - old(repr))
    {
      assert c in cheats;
      ghost var was := View();
      c.Remake(lines);
      RestKept(i);
      forall d | d in cheats ensures d.Valid() && d.repr <= repr + c.repr {
        var j :| 0 <= j < |cheats| && cheats[j] == d;
      }
      repr := repr + c.repr;
      OneReplaced(cheats, repr, i, was);
    }

    /** cheat_add_new, when find_or_create_cheat makes a new cheat: it goes to the end of the ring. */
    method Append(name: string, lines: seq<Line>)
      requires Valid()
      modifies this, active_cheats, links
      ensures Valid() && View() == old(View()) + [Cheat(name, true, false, Expand(lines))]
      ensures fresh(repr - old(repr))
    {
      var c := NewCheat(name, lines);
      AppendCheat(c);
    }

    method AppendCheat(c: CheatRecord)
      requires Valid() && c.Valid() && c !in repr && c.cheat_codes !in repr
      modifies this, active_cheats, links
      ensures Valid() && View() == old(View()) + [old(c.View())] && repr == old(repr) + {c} + c.repr
    {
      ghost var was, v := View(), c.View();
      var node := new Node<CheatRecord?>.Item(c, active_cheats);
      assert View() == was && c.View() == v;
      Adopt(c);
      assert View() == was + [v];
      Link(node);
    }

    /** The cheat becomes one of the list's, not linked yet. */
    ghost method Adopt(c: CheatRecord)
      requires Owned() && c.Valid() && c !in repr && c.cheat_codes !in repr
      modifies this`cheats, this`repr
      ensures Owned() && View() == old(View()) + [c.View()]
      ensures cheats == old(cheats) + [c] && repr == old(repr) + {c} + c.repr
    {
      GrowValid(cheats, repr, c, repr + {c} + c.repr);
      repr := repr + {c} + c.repr;
      cheats := cheats + [c];
    }

    method Link(node: Node<CheatRecord?>)
      requires Owned() && Ring(active_cheats, links) && |cheats| == |links| + 1
      requires forall i {:trigger links[i].data} :: 0 <= i < |links| ==> links[i].data == cheats[i]
      requires node.data == cheats[|links|] && node != active_cheats && node !in links && node !in repr
      modifies this`links, node`prev, node`next, active_cheats`prev, links`next, active_cheats`next
      ensures Valid() && View() == old(View())
    {
      assert active_cheats.prev == active_cheats || active_cheats.prev in links;
      AddTail(node, active_cheats, links);
      links := links + [node];
    }

    /** cheat_add_new */
    method AddNew(name: string, lines: seq<Line>)
      requires Valid()
      modifies this, active_cheats, links, repr
      ensures Valid() && View() == Cheats.AddNew(old(View()), name, lines)
    {
      var c; ghost var i;
      c, i := Find(name);
      if c != null { Renew(c, i, lines); } else { Append(name, lines); }
    }

    /** cheat_set_enabled */
    method SetEnabled(name: string, on: bool) returns (found: bool)
      requires Valid()
      modifies repr
      ensures Valid() && found == (FindCheat(old(View()), name) < |old(View())|)
      ensures found ==>
                var i := FindCheat(old(View()), name); View() == old(View())[i := old(View())[i].(enabled := on)]
      ensures !found ==> View() == old(View())
    {
      var c; ghost var i;
      c, i := Find(name);
      found := c != null;
      if found { SetEnabledAt(c, i, on); }
    }

    /** cheat_delete_all: two nested safe traversals. Each cheat loses its codes one by one and is
        then unlinked, while `safe` already knows the next one. */
    method DeleteEverything()
      requires Valid()
      modifies this, active_cheats, links, repr
      ensures Valid() && View() == []
      ensures forall c :: c in old(cheats) ==> Ring(c.cheat_codes, [])
    {
      var none := Empty(active_cheats, links);
      if none { return; }
      ghost var left := links;
      var pos := active_cheats.next;
      var safe := pos.next;
      while pos != active_cheats
        invariant Cut(left) && Emptied(|links| - |left|)
        invariant Ring(active_cheats, left) && pos == At(active_cheats, left, 1)
        invariant left != [] ==> safe == At(active_cheats, left, 2)
        decreases |left|
        modifies active_cheats`next, active_cheats`prev, links`next, links`prev, repr
      {
        assert pos == left[0];
        DeleteFirst(pos, left);
        left := left[1..];
        pos := safe;
        safe := safe.next;
      }
      AllEmptied();
      links, cheats, repr := [], [], {};
    }

    /** `left` is the rest of the list, and the links still carry their cheats. */
    ghost predicate Cut(left: seq<Node<CheatRecord?>>)
      reads this, links
    {
      && |left| <= |links| == |cheats| && left == links[|links| - |left|..]
      && (forall i {:trigger links[i].data} :: 0 <= i < |links| ==> links[i].data == cheats[i])
    }

    /** The first `n` cheats have no codes. */
    ghost predicate Emptied(n: nat)
      reads this, repr
    {
      Owned() && n <= |cheats| && forall i :: 0 <= i < n ==> cheats[i].nodes == []
    }

    lemma AllEmptied()
      requires Emptied(|cheats|)
      ensures forall c :: c in cheats ==> Ring(c.cheat_codes, [])
    {
      forall c | c in cheats ensures Ring(c.cheat_codes, []) {
        var i :| 0 <= i < |cheats| && cheats[i] == c;
        assert c.Valid() && c.nodes == [];
      }
    }

    /** The body of the outer loop. */
    method DeleteFirst(pos: Node<CheatRecord?>, ghost left: seq<Node<CheatRecord?>>)
      requires left != [] && pos == left[0] && Ring(active_cheats, left) && Cut(left) && Emptied(|links| - |left|)
      modifies active_cheats`next, active_cheats`prev, links`next, links`prev, repr
      ensures Ring(active_cheats, left[1..]) && Cut(left[1..]) && Emptied(|links| - |left| + 1)
      ensures forall n :: n in left[1..] ==> n.next == old(n.next)
    {
      ghost var k := |links| - |left|;
      assert pos == links[k] && pos.data == cheats[k];
      EmptyCheat(pos.data, k);
      Unlink(pos, left);
    }

    method EmptyCheat(c: CheatRecord, ghost k: nat)
      requires Emptied(k) && k < |cheats| && c == cheats[k]
      modifies repr
      ensures Emptied(k + 1)
    {
      c.DeleteCodes();
      RestKept(k);
    }

    method Unlink(pos: Node<CheatRecord?>, ghost left: seq<Node<CheatRecord?>>)
      requires left != [] && pos == left[0] && Ring(active_cheats, left)
      modifies active_cheats`next, active_cheats`prev, left`next, left`prev
      ensures Ring(active_cheats, left[1..]) && forall n :: n in left[1..] ==> n.next == old(n.next)
    {
      assert left[0].next == At(active_cheats, left, 2) && left[0].prev == At(active_cheats, left, 0);
      assert pos.next == active_cheats || pos.next in left;
      Del(pos, active_cheats, left, 0);
      assert Without(left, 0) == left[1..];
    }

    /** All cheats but one were left alone. */
    twostate lemma RestKept(k: nat)
      requires old(Owned()) && unchanged(this) && k < |cheats|
      requires forall j :: 0 <= j < |cheats| && j != k ==> unchanged(cheats[j])
      requires forall j, n :: 0 <= j < |cheats| && j != k && n in old(cheats[j].repr) ==> unchanged(n)
      ensures forall j :: 0 <= j < |cheats| && j != k ==>
                var d := cheats[j]; d.Valid() && d.View() == old(d.View()) && d.repr == old(d.repr)
    {
      forall j | 0 <= j < |cheats| && j != k
        ensures var d := cheats[j]; d.Valid() && d.View() == old(d.View()) && d.repr == old(d.repr)
      {
        cheats[j].Kept();
      }
    }
  }

  lemma {:induction false} FindCheatIs(cs: seq<Cheat>, name: string, i: nat)
    requires i <= |cs| && (i < |cs| ==> cs[i].name == name) && forall j :: 0 <= j < i ==> cs[j].name != name
    ensures FindCheat(cs, name) == i
  {
  }

  lemma NothingBefore<T>(s: seq<T>)
    ensures [] + s == s
  {
  }

  method NewCheat(name: string, lines: seq<Line>) returns (c: CheatRecord)
    ensures fresh(c) && fresh(c.repr) && c.Valid() && c.View() == Cheat(name, true, false, Expand(lines))
  {
    c := new CheatRecord(name);
    c.SetEnabled(true);
    assert CodesOf(c.nodes) == [];
    c.AddLines(lines);
    NothingBefore(Expand(lines));
  }

  /** The views of a list in which one cheat has changed. */
  lemma OneReplaced(cs: seq<CheatRecord>, repr: set<object>, k: nat, before: seq<Cheat>)
    requires AllValid(cs, repr) && k < |cs| == |before|
    requires forall i :: 0 <= i < |cs| && i != k ==> cs[i].View() == before[i]
    ensures ViewsOf(cs, repr) == before[k := cs[k].View()]
  {
  }

  lemma GrowValid(cs: seq<CheatRecord>, repr: set<object>, c: CheatRecord, more: set<object>)
    requires AllValid(cs, repr) && c.Valid() && c !in repr && c.cheat_codes !in repr && more == repr + {c} + c.repr
    ensures AllValid(cs + [c], more) && ViewsOf(cs + [c], more) == ViewsOf(cs, repr) + [c.View()]
  {
    var all := cs + [c];
    forall i, j {:trigger all[i].cheat_codes, all[j].cheat_codes} | 0 <= i < j < |all|
      ensures all[i].cheat_codes != all[j].cheat_codes
    {
      assert all[i] in cs;
      assert all[i].cheat_codes in all[i].repr;
      if j < |cs| { assert all[i] == cs[i] && all[j] == cs[j]; }
    }
  }
}
