/** What the calls of src/api/config.c do to the store, told through lookups alone, and the
    result that the sorted lists behave as two maps from names to sections. */
module ConfigLaws {
  import opened Common
  import opened Config

  /** Names are the same exactly if they are so letter by letter, upper and lower case alike. */
  lemma {:induction false} SameNameIff(a: string, b: string)
    ensures Compare(a, b) == 0 <==> |a| == |b| && forall i :: 0 <= i < |a| ==> SameLetter(a[i], b[i])
  {
    if a != [] && b != [] {
      SameNameIff(a[1..], b[1..]);
      LettersSplit(a, b);
      LowerSame(a[0], b[0]);
    }
  }

  lemma LettersSplit(a: string, b: string)
    requires a != [] && b != []
    ensures (|a| == |b| && forall i :: 0 <= i < |a| ==> SameLetter(a[i], b[i])) <==>
            (SameLetter(a[0], b[0]) && |a[1..]| == |b[1..]|
             && forall i :: 0 <= i < |a[1..]| ==> SameLetter(a[1..][i], b[1..][i]))
  {
    if |a| == |b| && forall i :: 0 <= i < |a[1..]| ==> SameLetter(a[1..][i], b[1..][i]) {
      forall i | 0 < i < |a| ensures SameLetter(a[i], b[i]) {
        assert SameLetter(a[1..][i - 1], b[1..][i - 1]);
      }
    }
  }

  lemma LowerSame(c: char, d: char)
    ensures Lower(c) == Lower(d) <==> SameLetter(c, d)
  {
  }

  predicate SameLetter(c: char, d: char) {
    || c == d
    || (65 <= c as int <= 90 && d as int == c as int + 32)
    || (65 <= d as int <= 90 && c as int == d as int + 32)
  }

  // ----- one call on a list of sections ------------------------------------------------

  lemma MemberRemoved<T>(l: seq<T>, i: nat, t: T)
    requires i < |l| && t != l[i]
    ensures t in l <==> t in Splice(l, i, [], i + 1)
  {
    assert l == l[..i] + [l[i]] + l[i + 1..];
  }

  lemma DeletedIsGone(l: seq<Section>, name: string)
    requires Sorted(l)
    ensures Get(Delete(l, name), name) == None
  {
    var i, r := Find(l, name), Delete(l, name);
    var k := Find(r, name);
    if i < |l| && k < |r| {
      SpliceIndex(l, i, [], i + 1, k);
      var j := if k < i then k else k + 1;
      CompareZero(name, l[j].name);
      FindOwn(l, j, name);
      assert false;
    }
  }

  /** ConfigDeleteSection takes out the section of that name and no other. */
  lemma DeleteEffect(l: seq<Section>, name: string)
    requires Sorted(l)
    ensures Get(Delete(l, name), name) == None
    ensures forall other :: Fold(other) != Fold(name) ==> Get(Delete(l, name), other) == Get(l, other)
    ensures if Get(l, name).Some? then |Delete(l, name)| == |l| - 1 else Delete(l, name) == l
  {
    var i, r := Find(l, name), Delete(l, name);
    DeletedIsGone(l, name);
    DeleteSorted(l, name);
    if i < |l| {
      CompareZero(name, l[i].name);
      forall other | Fold(other) != Fold(name) ensures Get(r, other) == Get(l, other) {
        forall t: Section | Fold(t.name) == Fold(other) ensures t in r <==> t in l { MemberRemoved(l, i, t); }
        GetSame(r, l, other);
      }
    }
  }

  /** ConfigOpenSection changes nothing if the section exists; otherwise it adds an empty one of
      that name. */
  lemma OpenEffect(l: seq<Section>, name: string)
    requires Sorted(l)
    ensures Get(l, name).Some? ==> Open(l, name) == (l, Find(l, name))
    ensures Get(l, name).None? ==>
              |Open(l, name).0| == |l| + 1 && Get(Open(l, name).0, name) == Some(Section(name, []))
    ensures forall other :: Fold(other) != Fold(name) ==> Get(Open(l, name).0, other) == Get(l, other)
  {
    var i, m := FindAlpha(l, name), Open(l, name).0;
    AlphaSearchFinds(l, name);
    OpenSorted(l, name);
    if Get(l, name).None? {
      InsertIndex(l, i, Section(name, []), i);
      forall other | Fold(other) != Fold(name) ensures Get(m, other) == Get(l, other) {
        forall t: Section | Fold(t.name) == Fold(other) ensures t in m <==> t in l {
          MemberInserted(l, i, Section(name, []), t);
        }
        GetSame(m, l, other);
      }
    }
  }

  /** A sorted list is determined by what it answers to searches. */
  lemma {:induction false} SearchesDecide(l: seq<Section>, m: seq<Section>)
    requires Sorted(l) && Sorted(m) && forall n :: Get(l, n) == Get(m, n)
    ensures l == m
    decreases |l|
  {
    if l == [] {
      if m != [] { FirstIsFirst(m, l); }
    } else {
      FirstIsFirst(l, m);
      FirstIsFirst(m, l);
      var a, b := l[0].name, m[0].name;
      CompareFlip(a, b);
      CompareZero(a, b);
      FindOwn(l, 0, a);
      FindOwn(m, 0, a);
      assert Get(l, a) == Get(m, a) && l[0] == m[0];
      forall n ensures Get(l[1..], n) == Get(m[1..], n) {
        assert Get(l, n) == Get(m, n);
        TailSearch(l, n);
        TailSearch(m, n);
      }
      SearchesDecide(l[1..], m[1..]);
    }
  }

  lemma FirstIsFirst(l: seq<Section>, m: seq<Section>)
    requires Sorted(l) && Sorted(m) && l != [] && forall n :: Get(l, n) == Get(m, n)
    ensures m != [] && Compare(m[0].name, l[0].name) <= 0
  {
    FindOwn(l, 0, l[0].name);
    var k := Find(m, l[0].name);
    assert Get(l, l[0].name) == Get(m, l[0].name);
    assert k < |m| && m[k] == l[0];
    if k == 0 { CompareZero(l[0].name, l[0].name); } else { assert Compare(m[0].name, m[k].name) < 0; }
  }

  lemma TailSearch(l: seq<Section>, n: string)
    requires Sorted(l) && l != []
    ensures Get(l[1..], n) == if Fold(n) == Fold(l[0].name) then None else Get(l, n)
  {
    CompareZero(n, l[0].name);
    var k := Find(l[1..], n);
    if Fold(n) == Fold(l[0].name) && k < |l[1..]| {
      CompareZero(n, l[k + 1].name);
      FindOwn(l, k + 1, n);
      assert false;
    }
  }

  // ----- one call on the variables of a section ------------------------------------------

  /** The first variable of a name. */
  function GetVar(vars: seq<Var>, name: string): Option<Var> {
    var i := FindVar(vars, name);
    if i < |vars| then Some(vars[i]) else None
  }

  lemma FoundAt(vars: seq<Var>, name: string, i: nat)
    requires i < |vars| && Fold(vars[i].name) == Fold(name)
    requires forall j :: 0 <= j < i ==> Compare(name, vars[j].name) != 0
    ensures FindVar(vars, name) == i
  {
    CompareZero(name, vars[i].name);
  }

  /** `r` is the list with the first variable of that name, or a new last one, being `x`, and
      says so to every search. */
  ghost predicate OneVar(vars: seq<Var>, r: seq<Var>, name: string, x: Var) {
    && GetVar(r, name) == Some(x)
    && |r| == |vars| + (if GetVar(vars, name).Some? then 0 else 1)
    && (forall j :: 0 <= j < |vars| && j != FindVar(vars, name) ==> r[j] == vars[j])
    && (forall other :: Fold(other) != Fold(name) ==> GetVar(r, other) == GetVar(vars, other))
  }

  lemma OthersKept(vars: seq<Var>, r: seq<Var>, i: nat, other: string)
    requires i <= |vars| && i < |r| && |r| == (if i < |vars| then |vars| else i + 1)
    requires Fold(r[i].name) != Fold(other) && (i < |vars| ==> Fold(vars[i].name) != Fold(other))
    requires forall j :: 0 <= j < |vars| && j != i ==> r[j] == vars[j]
    ensures GetVar(r, other) == GetVar(vars, other)
  {
    CompareZero(other, r[i].name);
    if i < |vars| { CompareZero(other, vars[i].name); }
    SameSearch(vars, r, other);
  }

  lemma SameSearch(vars: seq<Var>, r: seq<Var>, name: string)
    requires |vars| <= |r| && forall j :: |vars| <= j < |r| ==> Compare(name, r[j].name) != 0
    requires forall j {:trigger r[j]} :: 0 <= j < |vars| ==>
               r[j] == vars[j] || (Compare(name, r[j].name) != 0 && Compare(name, vars[j].name) != 0)
    ensures GetVar(r, name) == GetVar(vars, name)
  {
    var f, g := FindVar(vars, name), FindVar(r, name);
    if f < |vars| { assert r[f] == vars[f]; }
  }

  lemma OneVarChanged(vars: seq<Var>, r: seq<Var>, name: string, x: Var)
    requires Fold(x.name) == Fold(name)
    requires var i := FindVar(vars, name);
             if i < |vars| then r == vars[i := x] && x.name == vars[i].name else r == vars + [x]
    ensures OneVar(vars, r, name, x)
  {
    var i := FindVar(vars, name);
    assert forall j :: 0 <= j < i ==> r[j] == vars[j];
    FoundAt(r, name, i);
    forall other | Fold(other) != Fold(name) ensures GetVar(r, other) == GetVar(vars, other) {
      OthersKept(vars, r, i, other);
    }
  }

  /** ConfigSetParameter: the first variable of that name has the value, a missing one is added
      at the end, and every other variable stays. */
  lemma SetVarEffect(vars: seq<Var>, name: string, v: Value)
    ensures OneVar(vars, SetVar(vars, name, v), name,
                   match GetVar(vars, name)
                   case Some(x) => Var(x.name, Normal(v), x.comment)
                   case None => Var(name, Normal(v), None))
  {
    var i, r := FindVar(vars, name), SetVar(vars, name, v);
    if i < |vars| { CompareZero(name, vars[i].name); }
    OneVarChanged(vars, r, name, r[i]);
  }

  /** ConfigSetDefault...: a value that is there stays, with the help added if it had none; a
      missing one is created with the default. */
  lemma SetDefaultEffect(vars: seq<Var>, name: string, v: Value, help: Option<string>)
    ensures OneVar(vars, SetDefault(vars, name, v, help), name,
                   match GetVar(vars, name)
                   case Some(x) => Var(x.name, x.value, if x.comment.Some? then x.comment else help)
                   case None => Var(name, Normal(v), help))
  {
    var i, r := FindVar(vars, name), SetDefault(vars, name, v, help);
    if i < |vars| { CompareZero(name, vars[i].name); }
    OneVarChanged(vars, r, name, r[i]);
  }

  // ----- what counts as a change --------------------------------------------------------

  /** Values compare as unchanged exactly if they have one type and one value, booleans up to
      truth, and are neither a NaN nor a null string. */
  lemma ValueDiffersIff(a: Value, s: Value)
    ensures !ValueDiffers(a, s) <==> Normal(a) == Normal(s) && a != Real(NaN) && a != Str(None)
  {
  }

  /** Variables compare as unchanged exactly with the same name, an unchanged value and no two
      different comments. */
  lemma VarDiffersIff(a: Var, s: Var)
    ensures !VarDiffers(a, s) <==>
            && a.name == s.name && Normal(a.value) == Normal(s.value) && Settles(a)
            && (a.comment == s.comment || a.comment == None || s.comment == None)
  {
    ValueDiffersIff(a.value, s.value);
  }

  /** Setting a parameter of an unchanged section is reported exactly if the saved section has no
      such parameter or another value. */
  lemma SetIsReportedIff(c: Store, name: string, param: string, v: Value)
    requires WellKept(c) && Get(c.active, name).Some? && !SectionChanged(c, name)
    ensures Get(c.saved, name).Some?
    ensures SectionChanged(Apply(c, SetParameter(name, param, v)), name) <==>
            match GetVar(Get(c.saved, name).value.vars, param)
            case None => true
            case Some(x) => Normal(v) != Normal(x.value) || v == Real(NaN) || v == Str(None)
  {
    var i, j := Find(c.active, name), Find(c.saved, name);
    var a, s, d := c.active[i].vars, c.saved[j].vars, Apply(c, SetParameter(name, param, v));
    CompareZero(name, c.active[i].name);
    ReplaceSorted(c.active, i, c.active[i].(vars := SetVar(a, param, v)));
    FindOwn(d.active, i, name);
    assert d.active[i].vars == SetVar(a, param, v) && d.saved == c.saved;
    SetMatchesIff(a, s, param, v);
  }

  lemma SetMatchesIff(a: seq<Var>, s: seq<Var>, param: string, v: Value)
    requires VarsMatch(a, s)
    ensures VarsMatch(SetVar(a, param, v), s) <==>
            match GetVar(s, param)
            case None => false
            case Some(x) => Normal(v) == Normal(x.value) && v != Real(NaN) && v != Str(None)
  {
    assert forall k :: 0 <= k < |a| ==> !VarDiffers(a[k], s[k]) && a[k].name == s[k].name;
    var k, r := FindVar(a, param), SetVar(a, param, v);
    assert FindVar(s, param) == k;
    if k < |a| {
      ValueDiffersIff(Normal(v), s[k].value);
      assert forall n :: 0 <= n < |a| && n != k ==> r[n] == a[n];
      assert VarsMatch(r, s) <==> !VarDiffers(r[k], s[k]);
    }
  }

  // ----- the store is two maps ----------------------------------------------------------

  type Sections = map<string, Section>

  datatype Maps = Maps(active: Sections, saved: Sections)

  /** The sections by their names without case. */
  ghost function AsMap(l: seq<Section>): Sections {
    map k | k in Names(l) && Get(l, k).Some? :: Get(l, k).value
  }

  ghost function AsMaps(c: Store): Maps { Maps(AsMap(c.active), AsMap(c.saved)) }

  /** The calls on maps. */
  ghost function MapApply(s: Maps, x: Command): Maps {
    match x
    case OpenSection(n) =>
      if Fold(n) in s.active then s else s.(active := s.active[Fold(n) := Section(n, [])])
    case DeleteSection(n) => s.(active := s.active - {Fold(n)})
    case SaveAll => Maps(s.active, s.active)
    case Save(n) =>
      if n != "" && Fold(n) in s.active then s.(saved := s.saved[Fold(n) := s.active[Fold(n)]]) else s
    case RevertChanges(n) =>
      if Fold(n) in s.active && Fold(n) in s.saved then s.(active := s.active[Fold(n) := s.saved[Fold(n)]]) else s
    case SetParameter(n, p, v) => Edit(s, n, (vars: seq<Var>) => SetVar(vars, p, v))
    case SetDefaultValue(n, p, v, h) => Edit(s, n, (vars: seq<Var>) => SetDefault(vars, p, v, h))
  }

  ghost function Edit(s: Maps, n: string, f: seq<Var> -> seq<Var>): Maps {
    if Fold(n) in s.active then
      var x := s.active[Fold(n)];
      s.(active := s.active[Fold(n) := x.(vars := f(x.vars))])
    else s
  }

  ghost function MapApplyAll(s: Maps, xs: seq<Command>): Maps
    decreases |xs|
  {
    if xs == [] then s else MapApplyAll(MapApply(s, xs[0]), xs[1..])
  }

  lemma {:induction false} FoldTwice(s: string)
    ensures Fold(Fold(s)) == Fold(s)
  {
    if s != [] {
      FoldTwice(s[1..]);
      assert Fold(s)[1..] == Fold(s[1..]);
    }
  }

  lemma AsMapIs(l: seq<Section>, n: string)
    ensures Fold(n) in AsMap(l) <==> Get(l, n).Some?
    ensures Fold(n) in AsMap(l) ==> AsMap(l)[Fold(n)] == Get(l, n).value
  {
    FoldTwice(n);
    SameNameSameSearch(l, n, Fold(n));
    FindIsName(l, n);
  }

  lemma KeyIsFolded(l: seq<Section>, k: string)
    requires k in AsMap(l)
    ensures Fold(k) == k
  {
    var s :| s in l && Fold(s.name) == k;
    FoldTwice(s.name);
  }

  lemma SameAtKey(l: seq<Section>, m: seq<Section>, k: string)
    requires k in AsMap(m) && Get(m, k) == Get(l, k)
    ensures k in AsMap(l) && AsMap(m)[k] == AsMap(l)[k]
  {
    KeyIsFolded(m, k);
    AsMapIs(m, k);
    AsMapIs(l, k);
  }

  lemma SameButKey<V>(a: map<string, V>, b: map<string, V>, key: string)
    requires forall k :: k in a && k != key ==> k in b && a[k] == b[k]
    requires forall k :: k in b && k != key ==> k in a
    ensures b == if key in b then a[key := b[key]] else a - {key}
  {
  }

  /** Two lists that differ in one name differ as maps in its key. */
  lemma MapUpdated(l: seq<Section>, m: seq<Section>, name: string)
    requires forall other :: Fold(other) != Fold(name) ==> Get(m, other) == Get(l, other)
    ensures AsMap(m) == match Get(m, name)
                        case Some(s) => AsMap(l)[Fold(name) := s]
                        case None => AsMap(l) - {Fold(name)}
  {
    var a, b := AsMap(l), AsMap(m);
    AsMapIs(m, name);
    forall k | k in a && k != Fold(name) ensures k in b && a[k] == b[k] { KeyIsFolded(l, k); SameAtKey(m, l, k); }
    forall k | k in b && k != Fold(name) ensures k in a { KeyIsFolded(m, k); SameAtKey(l, m, k); }
    SameButKey(a, b, Fold(name));
  }

  lemma EditKeeps(l: seq<Section>, name: string, vars: seq<Var>)
    requires Sorted(l) && Find(l, name) < |l|
    ensures var i := Find(l, name);
      && Get(WithVars(l, i, vars), name) == Some(l[i].(vars := vars))
      && forall other :: Fold(other) != Fold(name) ==> Get(WithVars(l, i, vars), other) == Get(l, other)
  {
    var i := Find(l, name);
    var s, m := l[i].(vars := vars), WithVars(l, i, vars);
    CompareZero(name, l[i].name);
    ReplaceSorted(l, i, s);
    FindOwn(m, i, name);
    forall other | Fold(other) != Fold(name) ensures Get(m, other) == Get(l, other) {
      forall t: Section | Fold(t.name) == Fold(other) ensures t in m <==> t in l { MemberReplaced(l, i, s, t); }
      GetSame(m, l, other);
    }
  }

  /** The name a call is about. */
  function Subject(x: Command): string { if x.SaveAll? then "" else x.name }

  lemma ApplyIsMapApply(c: Store, x: Command)
    requires WellKept(c)
    ensures AsMaps(Apply(c, x)) == MapApply(AsMaps(c), x)
  {
    var n, d := Subject(x), Apply(c, x);
    AsMapIs(c.active, n);
    AsMapIs(c.saved, n);
    match x
    case OpenSection(_) =>
      OpenEffect(c.active, n);
      MapUpdated(c.active, d.active, n);
    case DeleteSection(_) =>
      DeleteEffect(c.active, n);
      MapUpdated(c.active, d.active, n);
    case SaveAll =>
    case Save(_) =>
      SaveSectionClearsIff(c, n);
      MapUpdated(c.saved, d.saved, n);
    case RevertChanges(_) =>
      if Get(c.active, n).Some? && Get(c.saved, n).Some? {
        RevertClearsIff(c, n);
        MapUpdated(c.active, d.active, n);
      }
    case SetParameter(_, p, v) =>
      if Get(c.active, n).Some? {
        EditKeeps(c.active, n, SetVar(c.active[Find(c.active, n)].vars, p, v));
        MapUpdated(c.active, d.active, n);
      }
    case SetDefaultValue(_, p, v, h) =>
      if Get(c.active, n).Some? {
        EditKeeps(c.active, n, SetDefault(c.active[Find(c.active, n)].vars, p, v, h));
        MapUpdated(c.active, d.active, n);
      }
  }

  /** Any run of calls does to the lists what it does to the maps. */
  lemma {:induction false} RunIsMapRun(c: Store, xs: seq<Command>)
    requires WellKept(c)
    ensures AsMaps(ApplyAll(c, xs)) == MapApplyAll(AsMaps(c), xs)
    decreases |xs|
  {
    if xs != [] {
      ApplyIsMapApply(c, xs[0]);
      ApplyKeeps(c, xs[0]);
      RunIsMapRun(Apply(c, xs[0]), xs[1..]);
    }
  }

  /** And the maps leave the sorted lists no choice. */
  lemma MapsDecide(c: Store, d: Store)
    requires WellKept(c) && WellKept(d) && AsMaps(c) == AsMaps(d)
    ensures c == d
  {
    forall n ensures Get(c.active, n) == Get(d.active, n) && Get(c.saved, n) == Get(d.saved, n) {
      AsMapIs(c.active, n);
      AsMapIs(d.active, n);
      AsMapIs(c.saved, n);
      AsMapIs(d.saved, n);
    }
    SearchesDecide(c.active, d.active);
    SearchesDecide(c.saved, d.saved);
  }
}
