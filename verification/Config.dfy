/** The configuration store of src/api/config.c, on values.

    Two lists of named sections: Active is what programs read and change, Saved is what was
    last written to the file. Section and parameter names are matched without regard to case. */
module Config {
  import opened Common

  // ----- names ---------------------------------------------------------------------

  function Lower(c: char): char { if 'A' <= c <= 'Z' then ((c as int) + 32) as char else c }

  /** osal_insensitive_strcmp: lexicographic on lower-cased characters. */
  function Compare(a: string, b: string): int {
    if a == [] then (if b == [] then 0 else -1)
    else if b == [] then 1
    else if Lower(a[0]) < Lower(b[0]) then -1
    else if Lower(a[0]) > Lower(b[0]) then 1
    else Compare(a[1..], b[1..])
  }

  /** The name with its case removed: two names are the same exactly if these are equal. */
  function Fold(s: string): string { if s == [] then [] else [Lower(s[0])] + Fold(s[1..]) }

  lemma {:induction false} CompareZero(a: string, b: string)
    ensures Compare(a, b) == 0 <==> Fold(a) == Fold(b)
  {
    if a != [] && b != [] {
      CompareZero(a[1..], b[1..]);
      assert Fold(a)[1..] == Fold(a[1..]) && Fold(b)[1..] == Fold(b[1..]);
    }
  }

  lemma {:induction false} CompareFlip(a: string, b: string)
    ensures Compare(a, b) == -Compare(b, a)
  {
    if a != [] && b != [] { CompareFlip(a[1..], b[1..]); }
  }

  lemma {:induction false} CompareChain(a: string, b: string, c: string)
    requires Compare(a, b) <= 0 && Compare(b, c) <= 0
    ensures Compare(a, c) <= 0
    ensures Compare(a, b) < 0 || Compare(b, c) < 0 ==> Compare(a, c) < 0
  {
    if a != [] && b != [] && c != [] && Lower(a[0]) == Lower(b[0]) == Lower(c[0]) {
      CompareChain(a[1..], b[1..], c[1..]);
    }
  }

  // ----- data ----------------------------------------------------------------------

  /** A float as far as comparison goes: NaN is unequal to everything, itself included. */
  datatype Float = NaN | Number(r: real)

  /** `type` and `val` of a config_var. */
  datatype Value = Int(i: int) | Real(f: Float) | Bool(b: int) | Str(s: Option<string>)

  datatype Var = Var(name: string, value: Value, comment: Option<string>)

  datatype Section = Section(name: string, vars: seq<Var>)

  datatype Store = Store(active: seq<Section>, saved: seq<Section>)

  /** Strictly increasing, hence no name twice. */
  ghost predicate Sorted(l: seq<Section>) {
    forall i, j :: 0 <= i < j < |l| ==> Compare(l[i].name, l[j].name) < 0
  }

  // ----- searching -----------------------------------------------------------------

  /** find_section_link: first section of that name, or the end. */
  function Find(l: seq<Section>, name: string): (i: nat)
    ensures i <= |l| && (i < |l| ==> Compare(name, l[i].name) == 0)
    ensures forall j :: 0 <= j < i ==> Compare(name, l[j].name) != 0
  {
    if l == [] || Compare(name, l[0].name) == 0 then 0 else 1 + Find(l[1..], name)
  }

  /** find_alpha_section_link: first section not below the name, or the end. */
  function FindAlpha(l: seq<Section>, name: string): (i: nat)
    ensures i <= |l| && (i < |l| ==> Compare(l[i].name, name) >= 0)
    ensures forall j :: 0 <= j < i ==> Compare(l[j].name, name) < 0
  {
    if l == [] || Compare(l[0].name, name) >= 0 then 0 else 1 + FindAlpha(l[1..], name)
  }

  /** On a sorted list the alphabetical search followed by a test for equality finds what the
      linear search finds. */
  lemma AlphaSearchFinds(l: seq<Section>, name: string)
    requires Sorted(l)
    ensures Find(l, name) < |l| ==> FindAlpha(l, name) == Find(l, name)
    ensures Find(l, name) == |l| ==> FindAlpha(l, name) < |l| ==> Compare(name, l[FindAlpha(l, name)].name) != 0
  {
    var i, a := Find(l, name), FindAlpha(l, name);
    if i < |l| {
      CompareFlip(name, l[i].name);
      if a < i {
        CompareChain(name, l[a].name, l[i].name) by { CompareFlip(name, l[a].name); }
        assert false;
      }
    }
  }

  /** Relinking: what was between positions `i` and `j` is replaced by `mid`. */
  function Splice<T>(l: seq<T>, i: nat, mid: seq<T>, j: nat): seq<T>
    requires i <= j <= |l|
  {
    l[..i] + mid + l[j..]
  }

  lemma SpliceIndex<T>(l: seq<T>, i: nat, mid: seq<T>, j: nat, k: nat)
    requires i <= j <= |l| && k < i + |mid| + |l| - j
    ensures Splice(l, i, mid, j)[k] ==
            if k < i then l[k] else if k < i + |mid| then mid[k - i] else l[k - i - |mid| + j]
  {
  }

  lemma MemberReplaced<T>(l: seq<T>, i: nat, s: T, t: T)
    requires i < |l| && t != s && t != l[i]
    ensures t in l <==> t in l[i := s]
  {
    if t in l { var k :| 0 <= k < |l| && l[k] == t; assert l[i := s][k] == t; }
  }

  lemma MemberInserted<T>(l: seq<T>, i: nat, s: T, t: T)
    requires i <= |l| && t != s
    ensures t in l <==> t in Splice(l, i, [s], i)
  {
    assert l == l[..i] + l[i..];
  }

  lemma SpliceReplaces<T>(l: seq<T>, i: nat, s: T)
    requires i < |l|
    ensures Splice(l, i, [s], i + 1) == l[i := s]
  {
  }

  function Insert(l: seq<Section>, i: nat, s: Section): seq<Section>
    requires i <= |l|
  {
    Splice(l, i, [s], i)
  }

  lemma InsertIndex(l: seq<Section>, i: nat, s: Section, k: nat)
    requires i <= |l| && k <= |l|
    ensures |Insert(l, i, s)| == |l| + 1
    ensures Insert(l, i, s)[k] == if k < i then l[k] else if k == i then s else l[k - 1]
  {
  }

  /** Inserting a new name where the alphabetical search stops keeps the list sorted. */
  lemma InsertSorted(l: seq<Section>, s: Section)
    requires Sorted(l) && Find(l, s.name) == |l|
    ensures Sorted(Insert(l, FindAlpha(l, s.name), s))
  {
    var i := FindAlpha(l, s.name);
    AlphaSearchFinds(l, s.name);
    forall j | i <= j < |l| ensures Compare(s.name, l[j].name) < 0 {
      CompareFlip(s.name, l[i].name);
      if i < j { CompareChain(s.name, l[i].name, l[j].name); }
    }
    var r := Insert(l, i, s);
    forall j, k | 0 <= j < k < |r| ensures Compare(r[j].name, r[k].name) < 0 {
      InsertIndex(l, i, s, j);
      InsertIndex(l, i, s, k);
    }
  }

  lemma ReplaceSorted(l: seq<Section>, i: nat, s: Section)
    requires Sorted(l) && i < |l| && Fold(s.name) == Fold(l[i].name)
    ensures Sorted(l[i := s])
  {
    CompareZero(s.name, l[i].name);
    CompareFlip(s.name, l[i].name);
    var r := l[i := s];
    forall j, k | 0 <= j < k < |r| ensures Compare(r[j].name, r[k].name) < 0 {
      if j == i { CompareChain(s.name, l[i].name, l[k].name); }
      else if k == i { CompareChain(l[j].name, l[i].name, s.name); }
    }
  }

  // ----- operations ----------------------------------------------------------------

  /** ConfigOpenSection: the list afterwards and the position of the section. */
  function Open(l: seq<Section>, name: string): (r: (seq<Section>, nat))
    ensures r.1 < |r.0| && Compare(name, r.0[r.1].name) == 0
  {
    var i := FindAlpha(l, name);
    if i < |l| && Compare(name, l[i].name) == 0 then (l, i)
    else
      CompareZero(name, name);
      (Insert(l, i, Section(name, [])), i)
  }

  /** ConfigDeleteSection */
  function Delete(l: seq<Section>, name: string): seq<Section> {
    var i := Find(l, name);
    if i == |l| then l else Splice(l, i, [], i + 1)
  }

  /** The update of the Saved list in ConfigSaveSection. */
  function SavedWith(l: seq<Section>, name: string, s: Section): seq<Section> {
    var i := FindAlpha(l, name);
    Splice(l, i, [s], if i < |l| && Compare(l[i].name, name) == 0 then i + 1 else i)
  }

  /** ConfigSaveSection refuses an empty name and a name that Active does not have. */
  predicate Savable(c: Store, name: string) { name != "" && Find(c.active, name) < |c.active| }

  function SaveSection(c: Store, name: string): Store {
    if Savable(c, name) then c.(saved := SavedWith(c.saved, name, c.active[Find(c.active, name)])) else c
  }

  function SaveFile(c: Store): Store { c.(saved := c.active) }

  function Revert(c: Store, name: string): Store {
    var i, j := Find(c.active, name), Find(c.saved, name);
    if i == |c.active| || j == |c.saved| then c else c.(active := c.active[i := c.saved[j]])
  }

  /** The same with the searches done. */
  lemma RevertIs(c: Store, name: string, i: nat, j: nat)
    requires i == Find(c.active, name) < |c.active| && j == Find(c.saved, name) < |c.saved|
    ensures Revert(c, name) == c.(active := c.active[i := c.saved[j]])
  {
  }

  lemma SavedWithIs(l: seq<Section>, name: string, s: Section, i: nat, j: nat)
    requires i == FindAlpha(l, name) && j == if i < |l| && Compare(l[i].name, name) == 0 then i + 1 else i
    ensures SavedWith(l, name, s) == Splice(l, i, [s], j)
  {
  }

  lemma Snoc<T>(l: seq<T>, i: nat)
    requires i < |l|
    ensures l[..i] + [l[i]] == l[..i + 1]
  {
  }

  lemma Whole<T>(l: seq<T>)
    ensures l[..|l|] == l
  {
  }

  // ----- parameters ----------------------------------------------------------------

  /** find_section_var */
  function FindVar(vars: seq<Var>, name: string): (i: nat)
    ensures i <= |vars| && (i < |vars| ==> Compare(name, vars[i].name) == 0)
    ensures forall j :: 0 <= j < i ==> Compare(name, vars[j].name) != 0
  {
    if vars == [] || Compare(name, vars[0].name) == 0 then 0 else 1 + FindVar(vars[1..], name)
  }

  /** Booleans are stored as 0 or 1. */
  function Normal(v: Value): Value { if v.Bool? then Bool(if v.b != 0 then 1 else 0) else v }

  /** ConfigSetParameter */
  function SetVar(vars: seq<Var>, name: string, v: Value): seq<Var> {
    var i := FindVar(vars, name);
    if i < |vars| then vars[i := vars[i].(value := Normal(v))] else vars + [Var(name, Normal(v), None)]
  }

  /** ConfigSetDefaultInt, Float, Bool and String */
  function SetDefault(vars: seq<Var>, name: string, v: Value, help: Option<string>): seq<Var> {
    var i := FindVar(vars, name);
    if i == |vars| then vars + [Var(name, Normal(v), help)]
    else if help.Some? && vars[i].comment.None? then vars[i := vars[i].(comment := help)]
    else vars
  }

  // ----- change detection ------------------------------------------------------------

  predicate ValueDiffers(a: Value, s: Value) {
    match (a, s)
    case (Int(x), Int(y)) => x != y
    case (Real(x), Real(y)) => x.NaN? || y.NaN? || x != y
    case (Bool(x), Bool(y)) => (x != 0) != (y != 0)
    case (Str(x), Str(y)) => x.None? || y.None? || x != y
    case _ => true
  }

  predicate VarDiffers(a: Var, s: Var) {
    || a.name != s.name || ValueDiffers(a.value, s.value)
    || (a.comment.Some? && s.comment.Some? && a.comment != s.comment)
  }

  predicate VarsMatch(a: seq<Var>, s: seq<Var>) {
    |a| == |s| && forall i :: 0 <= i < |a| ==> !VarDiffers(a[i], s[i])
  }

  /** ConfigHasUnsavedChanges for one named section. */
  predicate SectionChanged(c: Store, name: string) {
    var i, j := Find(c.active, name), Find(c.saved, name);
    i < |c.active| && (j == |c.saved| || !VarsMatch(c.active[i].vars, c.saved[j].vars))
  }

  /** ConfigHasUnsavedChanges for everything: some Active section has changed, or the two
      lists differ in length. */
  predicate AnyChanged(c: Store) {
    (exists i :: 0 <= i < |c.active| && SectionChanged(c, c.active[i].name)) || |c.active| != |c.saved|
  }

  /** The two lists have the same names, and sections of the same name match. */
  ghost predicate SameSections(c: Store) {
    && (forall n :: Find(c.active, n) < |c.active| <==> Find(c.saved, n) < |c.saved|)
    && (forall i, j :: 0 <= i < |c.active| && 0 <= j < |c.saved| && Fold(c.active[i].name) == Fold(c.saved[j].name) ==>
          VarsMatch(c.active[i].vars, c.saved[j].vars))
  }

  ghost predicate WellKept(c: Store) { Sorted(c.active) && Sorted(c.saved) }

  ghost function Names(l: seq<Section>): set<string> { set s | s in l :: Fold(s.name) }

  /** In a sorted list the last name is a new one. */
  lemma LastNameNew(l: seq<Section>, n: nat)
    requires Sorted(l) && |l| == n + 1
    ensures Names(l) == Names(l[..n]) + {Fold(l[n].name)} && Fold(l[n].name) !in Names(l[..n])
  {
    assert l == l[..n] + [l[n]];
    if Fold(l[n].name) in Names(l[..n]) {
      var s :| s in l[..n] && Fold(s.name) == Fold(l[n].name);
      var i :| 0 <= i < n && l[i] == s;
      CompareZero(l[i].name, l[n].name);
    }
  }

  /** In a sorted list there are as many different names as sections. */
  lemma {:induction false} NamesCount(l: seq<Section>)
    requires Sorted(l)
    ensures |Names(l)| == |l|
    decreases |l|
  {
    if l != [] {
      NamesCount(l[..|l| - 1]);
      LastNameNew(l, |l| - 1);
    }
  }

  lemma FindIsName(l: seq<Section>, n: string)
    ensures Find(l, n) < |l| <==> Fold(n) in Names(l)
  {
    var i := Find(l, n);
    if i < |l| { CompareZero(n, l[i].name); assert l[i] in l; }
    if Fold(n) in Names(l) {
      var s :| s in l && Fold(s.name) == Fold(n);
      var j :| 0 <= j < |l| && l[j] == s;
      CompareZero(n, l[j].name);
    }
  }

  /** In a sorted list the search for a section's own name finds that section. */
  lemma FindOwn(l: seq<Section>, i: nat, name: string)
    requires Sorted(l) && i < |l| && Fold(name) == Fold(l[i].name)
    ensures Find(l, name) == i
  {
    CompareZero(name, l[i].name);
    var f := Find(l, name);
    if f < i {
      CompareFlip(name, l[f].name);
      CompareChain(l[i].name, name, l[f].name) by { CompareFlip(name, l[i].name); }
      CompareFlip(l[i].name, l[f].name);
      assert false;
    }
  }

  lemma SubsetSize<T>(q: set<T>, p: set<T>)
    requires q <= p
    ensures |q| <= |p| && (|q| == |p| ==> q == p)
  {
    assert p == q + (p - q);
    assert |p| == |q| + |p - q|;
  }

  /** No changes are reported exactly when the lists have the same sections. A deleted section
      is found by counting: Active names inject into Saved names, so equal counts leave no
      Saved name over. */
  lemma ChangesDetected(c: Store)
    requires WellKept(c)
    ensures !AnyChanged(c) <==> SameSections(c)
  {
    NamesCount(c.active);
    NamesCount(c.saved);
    if !AnyChanged(c) { UnchangedIsSame(c); }
    if SameSections(c) {
      assert Names(c.active) == Names(c.saved) by {
        forall s | s in c.active ensures Fold(s.name) in Names(c.saved) {
          FindIsName(c.active, s.name);
          FindIsName(c.saved, s.name);
        }
        forall s | s in c.saved ensures Fold(s.name) in Names(c.active) {
          FindIsName(c.active, s.name);
          FindIsName(c.saved, s.name);
        }
      }
      forall i | 0 <= i < |c.active| ensures !SectionChanged(c, c.active[i].name) {
        FindOwn(c.active, i, c.active[i].name);
        CompareZero(c.active[i].name, c.active[i].name);
        var j := Find(c.saved, c.active[i].name);
        assert Find(c.active, c.active[i].name) < |c.active|;
        CompareZero(c.active[i].name, c.saved[j].name);
      }
    }
  }

  /** Without changes every Active section has its match in Saved. */
  lemma UnchangedHasMatch(c: Store, i: nat)
    requires WellKept(c) && !AnyChanged(c) && i < |c.active|
    ensures Fold(c.active[i].name) in Names(c.saved)
    ensures var j := Find(c.saved, c.active[i].name);
            j < |c.saved| && VarsMatch(c.active[i].vars, c.saved[j].vars)
  {
    assert !SectionChanged(c, c.active[i].name);
    FindOwn(c.active, i, c.active[i].name);
    FindIsName(c.saved, c.active[i].name);
  }

  lemma UnchangedIsSame(c: Store)
    requires WellKept(c) && !AnyChanged(c)
    requires |Names(c.active)| == |c.active| && |Names(c.saved)| == |c.saved|
    ensures SameSections(c)
  {
    forall n | n in Names(c.active) ensures n in Names(c.saved) {
      var s :| s in c.active && Fold(s.name) == n;
      var i :| 0 <= i < |c.active| && c.active[i] == s;
      UnchangedHasMatch(c, i);
    }
    SubsetSize(Names(c.active), Names(c.saved));
    forall n ensures Find(c.active, n) < |c.active| <==> Find(c.saved, n) < |c.saved| {
      FindIsName(c.active, n);
      FindIsName(c.saved, n);
    }
    forall i, j | 0 <= i < |c.active| && 0 <= j < |c.saved| && Fold(c.active[i].name) == Fold(c.saved[j].name)
      ensures VarsMatch(c.active[i].vars, c.saved[j].vars)
    {
      UnchangedHasMatch(c, i);
      FindOwn(c.saved, j, c.active[i].name);
    }
  }

  // ----- saving and reverting --------------------------------------------------------

  /** A variable that compares equal to a copy of itself. */
  predicate Settles(v: Var) { !(v.value.Real? && v.value.f.NaN?) && !(v.value.Str? && v.value.s.None?) }

  lemma MatchesItselfIff(vars: seq<Var>)
    ensures VarsMatch(vars, vars) <==> forall i :: 0 <= i < |vars| ==> Settles(vars[i])
  {
    forall i | 0 <= i < |vars| ensures !VarDiffers(vars[i], vars[i]) <==> Settles(vars[i]) {
    }
  }

  /** After ConfigSaveFile no changes are reported, exactly if no parameter is a NaN (or a null
      string). */
  lemma SaveFileClearsIff(c: Store)
    requires WellKept(c)
    ensures WellKept(SaveFile(c))
    ensures !AnyChanged(SaveFile(c)) <==>
            forall i, k :: 0 <= i < |c.active| && 0 <= k < |c.active[i].vars| ==> Settles(c.active[i].vars[k])
  {
    var d := SaveFile(c);
    forall i | 0 <= i < |c.active|
      ensures !SectionChanged(d, d.active[i].name) <==>
              forall k :: 0 <= k < |c.active[i].vars| ==> Settles(c.active[i].vars[k])
    {
      FindOwn(d.active, i, d.active[i].name);
      MatchesItselfIff(c.active[i].vars);
    }
  }

  /** A NaN is reported as changed right after saving. */
  lemma NanStaysUnsaved(c: Store, i: nat, k: nat)
    requires WellKept(c) && i < |c.active| && k < |c.active[i].vars| && c.active[i].vars[k].value == Real(NaN)
    ensures AnyChanged(SaveFile(c))
  {
    SaveFileClearsIff(c);
    assert !Settles(c.active[i].vars[k]);
  }

  lemma SavedWithFinds(l: seq<Section>, name: string, s: Section)
    requires Sorted(l) && Fold(s.name) == Fold(name)
    ensures Sorted(SavedWith(l, name, s))
    ensures Find(SavedWith(l, name, s), name) == FindAlpha(l, name) < |SavedWith(l, name, s)|
    ensures SavedWith(l, name, s)[FindAlpha(l, name)] == s
  {
    var i := FindAlpha(l, name);
    AlphaSearchFinds(l, name);
    SameNameSameSearch(l, name, s.name);
    if i < |l| && Compare(l[i].name, name) == 0 {
      CompareZero(l[i].name, name);
      ReplaceSorted(l, i, s);
      SpliceReplaces(l, i, s);
    } else {
      if i < |l| { CompareFlip(l[i].name, name); }
      InsertSorted(l, s);
    }
    FindOwn(SavedWith(l, name, s), i, name);
  }

  /** Searches do not depend on the case of the name asked for. */
  lemma {:induction false} SameNameSameSearch(l: seq<Section>, a: string, b: string)
    requires Fold(a) == Fold(b)
    ensures Find(l, a) == Find(l, b) && FindAlpha(l, a) == FindAlpha(l, b)
    decreases |l|
  {
    if l != [] {
      SameNameSameSearch(l[1..], a, b);
      CompareZero(a, l[0].name);
      CompareZero(b, l[0].name);
      CompareZero(a, b);
      CompareFlip(a, b);
      CompareFlip(l[0].name, a);
      CompareFlip(l[0].name, b);
      if Compare(l[0].name, a) < 0 { CompareChain(l[0].name, a, b); }
      if Compare(l[0].name, b) < 0 { CompareChain(l[0].name, b, a); }
    }
  }

  /** The section of a given name, if any. */
  function Get(l: seq<Section>, name: string): Option<Section> {
    var i := Find(l, name);
    if i < |l| then Some(l[i]) else None
  }

  lemma GetMember(l: seq<Section>, name: string, i: nat)
    requires Sorted(l) && i < |l| && Fold(name) == Fold(l[i].name)
    ensures Get(l, name) == Some(l[i])
  {
    FindOwn(l, i, name);
  }

  /** Two sorted lists answer a search alike if they hold the same sections of that name. */
  lemma GetSame(l: seq<Section>, m: seq<Section>, name: string)
    requires Sorted(l) && Sorted(m)
    requires forall s: Section :: Fold(s.name) == Fold(name) ==> (s in l <==> s in m)
    ensures Get(l, name) == Get(m, name)
  {
    var i, j := Find(l, name), Find(m, name);
    if i < |l| {
      CompareZero(name, l[i].name);
      assert l[i] in m;
      var k :| 0 <= k < |m| && m[k] == l[i];
      GetMember(m, name, k);
    }
    if j < |m| {
      CompareZero(name, m[j].name);
      assert m[j] in l;
      var k :| 0 <= k < |l| && l[k] == m[j];
      GetMember(l, name, k);
    }
  }

  /** ConfigSaveSection: a refused call changes nothing; otherwise the section is no longer
      reported as changed, exactly if it holds no NaN, and Active and every other Saved section
      are untouched. */
  lemma SaveSectionClearsIff(c: Store, name: string)
    requires WellKept(c)
    ensures WellKept(SaveSection(c, name)) && SaveSection(c, name).active == c.active
    ensures !Savable(c, name) ==> SaveSection(c, name).saved == c.saved
    ensures Savable(c, name) ==>
              var d, vars := SaveSection(c, name), c.active[Find(c.active, name)].vars;
              && Get(d.saved, name) == Get(c.active, name)
              && (!SectionChanged(d, name) <==> forall k :: 0 <= k < |vars| ==> Settles(vars[k]))
    ensures forall other :: Fold(other) != Fold(name) ==> Get(SaveSection(c, name).saved, other) == Get(c.saved, other)
  {
    if Savable(c, name) { SaveSectionSettles(c, name); }
    forall other | Fold(other) != Fold(name) ensures Get(SaveSection(c, name).saved, other) == Get(c.saved, other) {
      SaveSectionKeeps(c, name, other);
    }
  }

  lemma SaveSectionSettles(c: Store, name: string)
    requires WellKept(c) && Savable(c, name)
    ensures var d, vars := SaveSection(c, name), c.active[Find(c.active, name)].vars;
            && WellKept(d) && Get(d.saved, name) == Get(c.active, name)
            && (!SectionChanged(d, name) <==> forall k :: 0 <= k < |vars| ==> Settles(vars[k]))
  {
    var s := c.active[Find(c.active, name)];
    var d := SaveSection(c, name);
    CompareZero(name, s.name);
    SavedWithFinds(c.saved, name, s);
    assert d.active == c.active && d.saved == SavedWith(c.saved, name, s);
    assert Get(d.saved, name) == Some(s) == Get(c.active, name);
    assert SectionChanged(d, name) <==> !VarsMatch(s.vars, s.vars);
    MatchesItselfIff(s.vars);
  }

  lemma SaveSectionKeeps(c: Store, name: string, other: string)
    requires WellKept(c) && Fold(other) != Fold(name)
    ensures Get(SaveSection(c, name).saved, other) == Get(c.saved, other)
  {
    if Savable(c, name) {
      var s := c.active[Find(c.active, name)];
      CompareZero(name, s.name);
      SavedWithKeeps(c.saved, name, s, other);
    }
  }

  lemma SavedWithKeeps(l: seq<Section>, name: string, s: Section, other: string)
    requires Sorted(l) && Fold(s.name) == Fold(name) && Fold(other) != Fold(name)
    ensures Sorted(SavedWith(l, name, s)) && Get(SavedWith(l, name, s), other) == Get(l, other)
  {
    SavedWithFinds(l, name, s);
    var i, m := FindAlpha(l, name), SavedWith(l, name, s);
    forall t: Section | Fold(t.name) == Fold(other) ensures t in l <==> t in m {
      if i < |l| && Compare(l[i].name, name) == 0 {
        CompareZero(l[i].name, name);
        SpliceReplaces(l, i, s);
        MemberReplaced(l, i, s, t);
      } else {
        MemberInserted(l, i, s, t);
      }
    }
    GetSame(m, l, other);
  }

  /** ConfigRevertChanges: the section is what was saved, Saved and every other Active section
      are untouched; again it is reported unchanged exactly if it holds no NaN. */
  lemma RevertClearsIff(c: Store, name: string)
    requires WellKept(c) && Find(c.active, name) < |c.active| && Find(c.saved, name) < |c.saved|
    ensures var d, vars := Revert(c, name), c.saved[Find(c.saved, name)].vars;
            && WellKept(d) && d.saved == c.saved
            && Get(d.active, name) == Get(c.saved, name)
            && (!SectionChanged(d, name) <==> forall k :: 0 <= k < |vars| ==> Settles(vars[k]))
            && (forall other :: Fold(other) != Fold(name) ==> Get(d.active, other) == Get(c.active, other))
  {
    RevertSettles(c, name);
    forall other | Fold(other) != Fold(name) ensures Get(Revert(c, name).active, other) == Get(c.active, other) {
      RevertKeeps(c, name, other);
    }
  }

  lemma RevertSettles(c: Store, name: string)
    requires WellKept(c) && Find(c.active, name) < |c.active| && Find(c.saved, name) < |c.saved|
    ensures var d, vars := Revert(c, name), c.saved[Find(c.saved, name)].vars;
            && WellKept(d) && d.saved == c.saved
            && Get(d.active, name) == Get(c.saved, name)
            && (!SectionChanged(d, name) <==> forall k :: 0 <= k < |vars| ==> Settles(vars[k]))
  {
    var i, j := Find(c.active, name), Find(c.saved, name);
    var d, s := Revert(c, name), c.saved[j];
    CompareZero(name, c.active[i].name);
    CompareZero(name, s.name);
    ReplaceSorted(c.active, i, s);
    FindOwn(d.active, i, name);
    assert SectionChanged(d, name) <==> !VarsMatch(s.vars, s.vars);
    MatchesItselfIff(s.vars);
  }

  lemma RevertKeeps(c: Store, name: string, other: string)
    requires WellKept(c) && Find(c.active, name) < |c.active| && Find(c.saved, name) < |c.saved|
    requires Fold(other) != Fold(name)
    ensures Get(Revert(c, name).active, other) == Get(c.active, other)
  {
    var i, j := Find(c.active, name), Find(c.saved, name);
    CompareZero(name, c.active[i].name);
    CompareZero(name, c.saved[j].name);
    ReplaceSorted(c.active, i, c.saved[j]);
    forall t: Section | Fold(t.name) == Fold(other) ensures t in c.active <==> t in Revert(c, name).active {
      MemberReplaced(c.active, i, c.saved[j], t);
    }
    GetSame(Revert(c, name).active, c.active, other);
  }

  // ----- runs ------------------------------------------------------------------------

  datatype Command =
    | OpenSection(name: string)
    | DeleteSection(name: string)
    | SaveAll
    | Save(name: string)
    | RevertChanges(name: string)
    | SetParameter(name: string, param: string, value: Value)
    | SetDefaultValue(name: string, param: string, value: Value, help: Option<string>)

  function WithVars(l: seq<Section>, i: nat, vars: seq<Var>): seq<Section>
    requires i < |l|
  {
    l[i := l[i].(vars := vars)]
  }

  /** Parameters are set through the handle of a section that has been opened. */
  function Apply(c: Store, x: Command): Store {
    match x
    case OpenSection(n) => c.(active := Open(c.active, n).0)
    case DeleteSection(n) => c.(active := Delete(c.active, n))
    case SaveAll => SaveFile(c)
    case Save(n) => SaveSection(c, n)
    case RevertChanges(n) => Revert(c, n)
    case SetParameter(n, p, v) =>
      var i := Find(c.active, n);
      if i == |c.active| then c else c.(active := WithVars(c.active, i, SetVar(c.active[i].vars, p, v)))
    case SetDefaultValue(n, p, v, h) =>
      var i := Find(c.active, n);
      if i == |c.active| then c else c.(active := WithVars(c.active, i, SetDefault(c.active[i].vars, p, v, h)))
  }

  function ApplyAll(c: Store, xs: seq<Command>): Store
    decreases |xs|
  {
    if xs == [] then c else ApplyAll(Apply(c, xs[0]), xs[1..])
  }

  lemma OpenSorted(l: seq<Section>, name: string)
    requires Sorted(l)
    ensures Sorted(Open(l, name).0) && Get(Open(l, name).0, name) == Some(Open(l, name).0[Open(l, name).1])
  {
    AlphaSearchFinds(l, name);
    var i := FindAlpha(l, name);
    if !(i < |l| && Compare(name, l[i].name) == 0) { InsertSorted(l, Section(name, [])); }
    var (m, k) := Open(l, name);
    CompareZero(name, m[k].name);
    GetMember(m, name, k);
  }

  lemma DeleteSorted(l: seq<Section>, name: string)
    requires Sorted(l)
    ensures Sorted(Delete(l, name))
  {
    var i, r := Find(l, name), Delete(l, name);
    if i < |l| {
      forall j, k | 0 <= j < k < |r| ensures Compare(r[j].name, r[k].name) < 0 {
        SpliceIndex(l, i, [], i + 1, j);
        SpliceIndex(l, i, [], i + 1, k);
      }
    }
  }

  lemma ApplyKeeps(c: Store, x: Command)
    requires WellKept(c)
    ensures WellKept(Apply(c, x))
    ensures !x.SaveAll? && !x.Save? ==> Apply(c, x).saved == c.saved
  {
    match x
    case OpenSection(n) => OpenSorted(c.active, n);
    case DeleteSection(n) => DeleteSorted(c.active, n);
    case SaveAll =>
    case Save(n) => SaveSectionClearsIff(c, n);
    case RevertChanges(n) =>
      if Find(c.active, n) < |c.active| && Find(c.saved, n) < |c.saved| { RevertClearsIff(c, n); }
    case SetParameter(_, _, _) =>
    case SetDefaultValue(_, _, _, _) =>
  }

  /** Any run keeps both lists sorted and free of duplicate names, and only saving touches the
      Saved list. */
  lemma {:induction false} EveryRunWellKept(c: Store, xs: seq<Command>)
    requires WellKept(c)
    ensures WellKept(ApplyAll(c, xs))
    ensures (forall x :: x in xs ==> !x.SaveAll? && !x.Save?) ==> ApplyAll(c, xs).saved == c.saved
    decreases |xs|
  {
    if xs != [] {
      ApplyKeeps(c, xs[0]);
      EveryRunWellKept(Apply(c, xs[0]), xs[1..]);
      assert xs[0] in xs && forall x :: x in xs[1..] ==> x in xs;
    }
  }

  /** Whatever was done to Active, saving and then reverting any section is the same as saving. */
  lemma RevertAfterSave(c: Store, name: string)
    requires WellKept(c)
    ensures Revert(SaveFile(c), name) == SaveFile(c)
  {
  }

  // ----- the recursive form of the whole-store check ------------------------------------

  /** ConfigHasUnsavedChanges as written: the whole-store check calls itself with each
      section's name, and an empty name means the whole store again. `depth` is how many calls
      may be nested; None says that was not enough. */
  function Check(c: Store, name: string, depth: nat): Option<bool>
    decreases depth, 1
  {
    if depth == 0 then None
    else if name == "" then CheckAll(c, 0, depth - 1)
    else Some(SectionChanged(c, name))
  }

  function CheckAll(c: Store, i: nat, depth: nat): Option<bool>
    requires i <= |c.active|
    decreases depth, 2, |c.active| - i
  {
    if i == |c.active| then Some(|c.active| != |c.saved|)
    else
      match Check(c, c.active[i].name, depth)
      case None => None
      case Some(b) => if b then Some(true) else CheckAll(c, i + 1, depth)
  }

  ghost predicate ChangedFrom(c: Store, i: nat) {
    exists k :: i <= k < |c.active| && SectionChanged(c, c.active[k].name)
  }

  lemma ChangedFromStep(c: Store, i: nat)
    requires i < |c.active|
    ensures ChangedFrom(c, i) <==> SectionChanged(c, c.active[i].name) || ChangedFrom(c, i + 1)
  {
  }

  lemma {:induction false} CheckAllPlain(c: Store, i: nat, depth: nat)
    requires i <= |c.active| && depth > 0 && forall k :: i <= k < |c.active| ==> c.active[k].name != ""
    ensures CheckAll(c, i, depth) == Some(ChangedFrom(c, i) || |c.active| != |c.saved|)
    decreases |c.active| - i
  {
    if i < |c.active| {
      ChangedFromStep(c, i);
      CheckAllPlain(c, i + 1, depth);
    }
  }

  lemma NothingBelowEmpty(a: string)
    ensures Compare(a, "") >= 0
  {
  }

  lemma {:induction false} EmptyNameRecurses(c: Store, depth: nat)
    requires WellKept(c) && exists i :: 0 <= i < |c.active| && c.active[i].name == ""
    ensures Check(c, "", depth) == None
    decreases depth
  {
    var i :| 0 <= i < |c.active| && c.active[i].name == "";
    assert i == 0 by { NothingBelowEmpty(c.active[0].name); }
    if depth > 0 { EmptyNameRecurses(c, depth - 1); }
  }

  predicate Answers(c: Store, depth: nat) { Check(c, "", depth).Some? }

  /** The whole-store check returns, with the answer of AnyChanged, exactly if no Active section
      has an empty name; otherwise it calls itself without end. */
  lemma CheckReturnsIff(c: Store)
    requires WellKept(c)
    ensures (exists depth: nat :: Answers(c, depth)) <==> forall i :: 0 <= i < |c.active| ==> c.active[i].name != ""
    ensures forall depth: nat :: Answers(c, depth) ==> Check(c, "", depth) == Some(AnyChanged(c))
  {
    if i :| 0 <= i < |c.active| && c.active[i].name == "" {
      forall depth: nat ensures !Answers(c, depth) { EmptyNameRecurses(c, depth); }
    } else {
      CheckAllPlain(c, 0, 1);
      assert Answers(c, 2);
      forall depth: nat | Answers(c, depth) ensures Check(c, "", depth) == Some(AnyChanged(c)) {
        if depth > 1 { CheckAllPlain(c, 0, depth - 1); } else { CheckShallow(c); }
      }
    }
  }

  /** With one call only, nothing but an empty Active list gets an answer. */
  lemma CheckShallow(c: Store)
    ensures Check(c, "", 1).Some? ==> c.active == [] && Check(c, "", 1) == Some(AnyChanged(c))
  {
    if c.active != [] { assert Check(c, c.active[0].name, 0) == None; }
  }
}
