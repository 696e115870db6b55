/** The code of src/api/config.c that changes the two section lists, proved against module
    Config. Sections and variables are objects, as in the source: what a handle points to is
    changed in place, and a copy must not share anything with its original. */
module ConfigStore {
  import opened Common
  import opened Config

  /** config_var; `owner` is the section whose list the variable is on. */
  class ConfigVar {
    const name: string
    var value: Value
    var comment: Option<string>
    ghost const owner: ConfigSection

    constructor (name: string, value: Value, comment: Option<string>, ghost owner: ConfigSection)
      ensures View() == Var(name, value, comment) && this.owner == owner
    {
      this.name, this.value, this.comment, this.owner := name, value, comment, owner;
    }

    ghost function View(): Var
      reads this
    {
      Var(name, value, comment)
    }
  }

  ghost function VarViews(vars: seq<ConfigVar>): (r: seq<Var>)
    reads vars
    ensures |r| == |vars| && forall i :: 0 <= i < |r| ==> r[i] == vars[i].View()
  {
    seq(|vars|, i requires 0 <= i < |vars| reads vars => vars[i].View())
  }

  /** config_section; `onSaved` says which of the two lists it belongs to. */
  class ConfigSection {
    const name: string
    var vars: seq<ConfigVar>
    ghost const onSaved: bool

    constructor (name: string, ghost onSaved: bool)
      ensures this.name == name && vars == [] && this.onSaved == onSaved
    {
      this.name, this.onSaved, vars := name, onSaved, [];
    }

    ghost predicate Valid()
      reads this
    {
      && (forall i, j :: 0 <= i < j < |vars| ==> vars[i] != vars[j])
      && (forall v :: v in vars ==> v.owner == this)
    }

    ghost function View(): Section
      reads this, vars
    {
      Section(name, VarViews(vars))
    }

    /** A section of which nothing was touched is as it was. */
    twostate lemma Kept()
      requires old(Valid()) && unchanged(this) && forall v :: v in vars ==> unchanged(v)
      ensures Valid() && vars == old(vars) && View() == old(View())
    {
      forall i | 0 <= i < |vars| ensures VarViews(vars)[i] == old(VarViews(vars))[i] {
        assert vars[i] in vars;
      }
    }

    /** find_section_var */
    method FindSectionVar(param: string) returns (i: nat)
      ensures i == FindVar(View().vars, param)
    {
      i := 0;
      while i < |vars| && Compare(param, vars[i].name) != 0
        invariant i <= |vars|
        invariant forall j :: 0 <= j < i ==> Compare(param, vars[j].name) != 0
      {
        i := i + 1;
      }
      FindVarIs(View().vars, param, i);
    }

    /** config_var_create and append_var_to_section */
    method AppendVar(param: string, v: Value, help: Option<string>)
      requires Valid()
      modifies this
      ensures Valid() && |vars| == |old(vars)| + 1 && vars[..|old(vars)|] == old(vars) && fresh(vars[|old(vars)|])
      ensures VarViews(vars) == old(VarViews(vars)) + [Var(param, v, help)]
    {
      var x := new ConfigVar(param, v, help, this);
      vars := vars + [x];
    }

    /** ConfigSetParameter, behind the checks of its arguments. */
    method SetParameter(param: string, v: Value)
      requires Valid()
      modifies this, vars
      ensures Valid() && View().vars == SetVar(old(View()).vars, param, v)
      ensures forall x :: x in vars ==> x in old(vars) || fresh(x)
    {
      var i := FindSectionVar(param);
      if i == |vars| {
        AppendVar(param, Int(0), None);
      }
      SetValueAt(i, Normal(v));
    }

    method SetValueAt(i: nat, v: Value)
      requires Valid() && i < |vars|
      modifies vars[i]
      ensures VarViews(vars) == old(VarViews(vars))[i := old(VarViews(vars))[i].(value := v)]
    {
      vars[i].value := v;
    }

    /** ConfigSetDefaultInt, Float, Bool and String. */
    method SetDefaultValue(param: string, v: Value, help: Option<string>)
      requires Valid()
      modifies this, vars
      ensures Valid() && View().vars == SetDefault(old(View()).vars, param, v, help)
      ensures forall x :: x in vars ==> x in old(vars) || fresh(x)
    {
      var i := FindSectionVar(param);
      if i < |vars| {
        assert View().vars[i].comment == vars[i].comment;
        if help.Some? && vars[i].comment.None? { SetCommentAt(i, help); }
      } else {
        AppendVar(param, Normal(v), help);
      }
    }

    method SetCommentAt(i: nat, help: Option<string>)
      requires Valid() && i < |vars|
      modifies vars[i]
      ensures VarViews(vars) == old(VarViews(vars))[i := old(VarViews(vars))[i].(comment := help)]
    {
      vars[i].comment := help;
    }
  }

  /** section_deepcopy */
  method DeepCopy(orig: ConfigSection, ghost onSaved: bool) returns (copy: ConfigSection)
    ensures fresh(copy) && copy.Valid() && copy.onSaved == onSaved && fresh(copy.vars)
    ensures copy.View() == orig.View()
  {
    ghost var want := VarViews(orig.vars);
    copy := new ConfigSection(orig.name, onSaved);
    var i := 0;
    while i < |orig.vars|
      invariant i <= |orig.vars| == |want| && VarViews(orig.vars) == want
      invariant fresh(copy) && copy.Valid() && fresh(copy.vars) && copy.onSaved == onSaved && copy.name == orig.name
      invariant VarViews(copy.vars) == want[..i]
      modifies copy
    {
      var o := orig.vars[i];
      assert want[i] == o.View();
      copy.AppendVar(o.name, o.value, o.comment);
      Snoc(want, i);
      i := i + 1;
    }
    Whole(want);
  }

  /** The file's statics. */
  class ConfigLists {
    var l_ConfigInit: bool
    var active: seq<ConfigSection>
    var saved: seq<ConfigSection>
    /** Every variable of both lists. */
    ghost var repr: set<ConfigVar>

    ghost predicate Valid()
      reads this, active, saved
    {
      && ListValid(active, false, repr) && ListValid(saved, true, repr)
    }

    ghost function View(): Store
      requires Valid()
      reads this, active, saved, repr
    {
      Store(Views(active, repr), Views(saved, repr))
    }

    constructor ()
      ensures Valid() && View() == Store([], []) && l_ConfigInit
    {
      l_ConfigInit, active, saved, repr := true, [], [], {};
    }

    method SetActive(l: seq<ConfigSection>)
      requires Valid() && ListValid(l, false, repr)
      modifies this`active
      ensures Valid() && active == l && View() == old(View()).(active := old(Views(l, repr)))
    {
      active := l;
    }

    method SetSaved(l: seq<ConfigSection>)
      requires Valid() && ListValid(l, true, repr)
      modifies this`saved
      ensures Valid() && saved == l && View() == old(View()).(saved := old(Views(l, repr)))
    {
      saved := l;
    }

    /** config_section_create */
    method NewSection(name: string) returns (s: ConfigSection)
      requires Valid()
      modifies this`repr
      ensures Valid() && View() == old(View()) && s !in active && s !in saved
      ensures ListValid([s], false, repr) && Views([s], repr) == [Section(name, [])]
    {
      s := new ConfigSection(name, false);
      Adopt(s);
      assert Views([s], repr) == [Section(name, [])];
    }

    /** The comparison loop of ConfigHasUnsavedChanges. */
    method VarsDiffer(a: ConfigSection, s: ConfigSection, ghost av: seq<Var>, ghost sv: seq<Var>) returns (r: bool)
      requires av == a.View().vars && sv == s.View().vars
      ensures r == !VarsMatch(av, sv)
    {
      var i := 0;
      while i < |a.vars| && i < |s.vars|
        invariant i <= |a.vars| && i <= |s.vars|
        invariant forall j :: 0 <= j < i ==> !VarDiffers(av[j], sv[j])
      {
        var x, y := a.vars[i], s.vars[i];
        assert av[i] == x.View() && sv[i] == y.View();
        if x.name != y.name || ValueDiffers(x.value, y.value) { return true; }
        if x.comment.Some? && y.comment.Some? && x.comment != y.comment { return true; }
        i := i + 1;
      }
      return i < |a.vars| || i < |s.vars|;
    }

    method SectionHasUnsavedChanges(name: string, ghost c: Store) returns (r: bool)
      requires Valid() && c == View()
      ensures r == SectionChanged(c, name)
    {
      var i := FindSectionLink(active, name, c.active, false, repr);
      if i == |active| { return false; }
      var j := FindSectionLink(saved, name, c.saved, true, repr);
      if j == |saved| { return true; }
      r := VarsDiffer(active[i], saved[j], c.active[i].vars, c.saved[j].vars);
    }

    /** ConfigHasUnsavedChanges. No Active section may have an empty name: the call would not
        return. */
    method HasUnsavedChanges(name: string) returns (r: bool)
      requires Valid() && (name == "" ==> forall i :: 0 <= i < |active| ==> active[i].name != "")
      ensures r == (l_ConfigInit && if name == "" then AnyChanged(View()) else SectionChanged(View(), name))
    {
      if !l_ConfigInit { return false; }
      ghost var c := View();
      if name != "" {
        r := SectionHasUnsavedChanges(name, c);
      } else {
        r := AnySectionHasUnsavedChanges(c);
        r := r || |active| != |saved|;
      }
      assert View() == c;
    }

    method AnySectionHasUnsavedChanges(ghost c: Store) returns (r: bool)
      requires Valid() && c == View()
      ensures r <==> exists i :: 0 <= i < |c.active| && SectionChanged(c, c.active[i].name)
    {
      ghost var q := (j: nat) => j < |c.active| && SectionChanged(c, c.active[j].name);
      r := AnySection(c, q);
      if r {
        ghost var i: nat :| i < |active| && q(i);
      } else {
        assert forall i :: 0 <= i < |c.active| ==> !q(i);
      }
    }

    /** `q` says which sections have changed. */
    ghost predicate Tells(q: nat -> bool, c: Store) {
      forall j: nat {:trigger SectionChanged(c, c.active[j].name)} ::
        j < |c.active| ==> (q(j) <==> SectionChanged(c, c.active[j].name))
    }

    /** The loop over Active. */
    method AnySection(ghost c: Store, ghost q: nat -> bool) returns (r: bool)
      requires Valid() && c == View() && Tells(q, c)
      ensures r <==> exists i: nat :: i < |active| && q(i)
    {
      var i := 0;
      while i < |active|
        invariant i <= |active| && View() == c
        invariant forall j: nat :: j < i ==> !q(j)
      {
        r := CheckSection(i, c, q);
        if r { return; }
        i := i + 1;
      }
      return false;
    }

    /** Each section is checked by its name. */
    method CheckSection(i: nat, ghost c: Store, ghost q: nat -> bool) returns (r: bool)
      requires Valid() && c == View() && Tells(q, c) && i < |active|
      ensures r == q(i)
    {
      assert active[i].name == c.active[i].name;
      r := SectionHasUnsavedChanges(active[i].name, c);
      assert r == SectionChanged(c, c.active[i].name);
    }

    /** ConfigOpenSection, behind the checks of its arguments. */
    method OpenSection(name: string) returns (handle: ConfigSection)
      requires Valid()
      modifies this
      ensures Valid() && View() == old(View()).(active := Open(old(View()).active, name).0)
      ensures handle == active[Open(old(View()).active, name).1]
    {
      var i := FindAlphaSectionLink(active, name, View().active, false, repr);
      if i < |active| && Compare(name, active[i].name) == 0 { return active[i]; }
      handle := NewSection(name);
      SpliceViews(active, i, [handle], i, false, repr);
      SetActive(Splice(active, i, [handle], i));
    }

    /** ConfigDeleteSection */
    method DeleteSection(name: string) returns (found: bool)
      requires Valid()
      modifies this
      ensures Valid() && View() == old(View()).(active := Delete(old(View()).active, name))
      ensures found <==> Find(old(View()).active, name) < |old(View()).active|
    {
      var i := FindSectionLink(active, name, View().active, false, repr);
      if i == |active| { return false; }
      SpliceViews(active, i, [], i + 1, false, repr);
      assert Views([], repr) == [];
      SetActive(Splice(active, i, [], i + 1));
      return true;
    }

    /** A copy that shares nothing with either list. */
    method Duplicate(orig: ConfigSection, ghost onSaved: bool) returns (copy: ConfigSection)
      requires Valid() && (orig in active || orig in saved)
      modifies this`repr
      ensures Valid() && View() == old(View()) && copy !in active && copy !in saved
      ensures ListValid([copy], onSaved, repr) && Views([copy], repr) == [old(orig.View())]
    {
      copy := DeepCopy(orig, onSaved);
      Adopt(copy);
      assert Views([copy], repr) == [copy.View()];
    }

    /** Take note of the variables of a fresh section. */
    ghost method Adopt(copy: ConfigSection)
      requires Valid() && copy.Valid() && copy !in active && copy !in saved
      modifies this`repr
      ensures Valid() && View() == old(View()) && ListValid([copy], copy.onSaved, repr)
    {
      ghost var r := repr + set v | v in copy.vars;
      GrowViews(active, false, repr, r);
      GrowViews(saved, true, repr, r);
      repr := r;
    }

    /** copy_configlist_active_to_saved, the part of ConfigSaveFile that changes the lists. */
    method SaveFile()
      requires Valid()
      modifies this`saved, this`repr
      ensures Valid() && View() == Config.SaveFile(old(View()))
    {
      ghost var a := View().active;
      SetSaved([]);
      var i := 0;
      while i < |active|
        invariant i <= |active| == |a|
        invariant Valid() && View() == Store(a, a[..i])
      {
        AppendCopy(i);
        Snoc(a, i);
        i := i + 1;
      }
      Whole(a);
    }

    /** The loop body of copy_configlist_active_to_saved. */
    method AppendCopy(i: nat)
      requires Valid() && i < |active|
      modifies this`saved, this`repr
      ensures Valid()
      ensures View() == Store(old(View()).active, old(View()).saved + [old(View()).active[i]])
    {
      LinkCopy(i, |saved|, |saved|);
      assert View().saved == old(View()).saved + [old(View()).active[i]];
    }

    /** ConfigSaveSection, the part that changes the lists. */
    method SaveSection(name: string) returns (done: bool)
      requires Valid()
      modifies this
      ensures Valid() && View() == Config.SaveSection(old(View()), name)
      ensures done <==> Savable(old(View()), name)
    {
      if name == "" { return false; }
      var k := FindSectionLink(active, name, View().active, false, repr);
      if k == |active| { return false; }
      StoreCopy(k, name);
      return true;
    }

    /** Put a copy of the Active section at `k` into the Saved list. */
    method StoreCopy(k: nat, name: string)
      requires Valid() && k < |active|
      modifies this
      ensures Valid() && View() == old(View()).(saved := SavedWith(old(View()).saved, name, old(View()).active[k]))
    {
      ghost var c := View();
      var i := FindAlphaSectionLink(saved, name, c.saved, true, repr);
      var j := if i < |saved| && Compare(saved[i].name, name) == 0 then i + 1 else i;
      assert View() == c && (i < |saved| ==> saved[i].name == c.saved[i].name);
      SavedWithIs(c.saved, name, c.active[k], i, j);
      LinkCopy(k, i, j);
    }

    method LinkCopy(k: nat, i: nat, j: nat)
      requires Valid() && k < |active| && i <= j <= |saved|
      modifies this`saved, this`repr
      ensures Valid() && View() == old(View()).(saved := Splice(old(View()).saved, i, [old(View()).active[k]], j))
    {
      var copy := Duplicate(active[k], true);
      SpliceViews(saved, i, [copy], j, true, repr);
      SetSaved(Splice(saved, i, [copy], j));
    }

    /** ConfigRevertChanges */
    method RevertChanges(name: string) returns (found: bool)
      requires Valid()
      modifies this
      ensures Valid() && View() == Revert(old(View()), name)
      ensures var c := old(View());
              found <==> Find(c.active, name) < |c.active| && Find(c.saved, name) < |c.saved|
    {
      var i := FindSectionLink(active, name, View().active, false, repr);
      if i == |active| { return false; }
      var j := FindSectionLink(saved, name, View().saved, true, repr);
      if j == |saved| { return false; }
      RevertIs(View(), name, i, j);
      PutBack(i, j);
      return true;
    }

    /** Replace the Active section at `i` by a copy of the Saved section at `j`. */
    method PutBack(i: nat, j: nat)
      requires Valid() && i < |active| && j < |saved|
      modifies this
      ensures Valid() && View() == old(View()).(active := old(View()).active[i := old(View()).saved[j]])
    {
      var copy := Duplicate(saved[j], false);
      SpliceViews(active, i, [copy], i + 1, false, repr);
      ghost var v := View().saved[j];
      SpliceReplaces(View().active, i, v);
      SetActive(Splice(active, i, [copy], i + 1));
    }

    /** When only the Active section at `k` and its variables were touched, the others are as they were. */
    twostate lemma OthersKept(k: nat)
      requires old(Valid()) && active == old(active) && saved == old(saved) && k < |active|
      requires forall s :: (s in active || s in saved) && s != active[k] ==> unchanged(s)
      requires forall s, v :: (s in active || s in saved) && s != active[k] && v in s.vars ==> unchanged(v)
      ensures forall s :: (s in active || s in saved) && s != active[k] ==>
                s.Valid() && s.vars == old(s.vars) && s.View() == old(s.View())
    {
      forall s | (s in active || s in saved) && s != active[k]
        ensures s.Valid() && s.vars == old(s.vars) && s.View() == old(s.View())
      {
        s.Kept();
      }
    }

    /** The variables of both lists once those of the Active section at `k` are counted in. */
    ghost function Wider(k: nat): set<ConfigVar>
      requires k < |active|
      reads this, active
    {
      repr + set x | x in active[k].vars
    }

    ghost method Widen(k: nat)
      requires k < |active| && ListValid(active, false, Wider(k)) && ListValid(saved, true, Wider(k))
      modifies this`repr
      ensures Valid() && View() == Store(old(Views(active, Wider(k))), old(Views(saved, Wider(k))))
    {
      repr := Wider(k);
    }

    /** What holds of the lists when only the Active section at `k` was changed. */
    twostate lemma AfterChange(k: nat)
      requires old(Valid()) && active == old(active) && saved == old(saved) && repr == old(repr) && k < |active|
      requires active[k].Valid()
      requires forall s :: (s in active || s in saved) && s != active[k] ==> unchanged(s)
      requires forall s, v :: (s in active || s in saved) && s != active[k] && v in s.vars ==> unchanged(v)
      ensures ListValid(active, false, Wider(k)) && ListValid(saved, true, Wider(k))
      ensures Views(saved, Wider(k)) == old(View()).saved
      ensures Views(active, Wider(k)) == WithVars(old(View()).active, k, active[k].View().vars)
    {
      OthersKept(k);
      assert forall s :: s in saved ==> s.onSaved && s in old(saved);
      assert active[k] in active && !active[k].onSaved;
      forall i | 0 <= i < |saved| ensures saved[i].View() == old(View()).saved[i] {
        assert saved[i] in saved;
      }
      OneChanged(active, k, Wider(k), old(View()).active);
    }

    /** Setting a parameter through a handle changes that section and nothing else: no other
        section of Active, and nothing in Saved. */
    method SetParameter(k: nat, param: string, v: Value)
      requires Valid() && k < |active|
      modifies this`repr, active[k], active[k].vars
      ensures Valid()
      ensures View() ==
              old(View()).(active := WithVars(old(View()).active, k, SetVar(old(View()).active[k].vars, param, v)))
    {
      var h := active[k];
      h.SetParameter(param, v);
      AfterChange(k);
      Widen(k);
    }

    method SetDefaultValue(k: nat, param: string, v: Value, help: Option<string>)
      requires Valid() && k < |active|
      modifies this`repr, active[k], active[k].vars
      ensures Valid()
      ensures var vars := old(View()).active[k].vars;
              View() == old(View()).(active := WithVars(old(View()).active, k, SetDefault(vars, param, v, help)))
    {
      var h := active[k];
      h.SetDefaultValue(param, v, help);
      AfterChange(k);
      Widen(k);
    }
  }

  /** Views of a list in which one section has other variables. */
  lemma OneChanged(l: seq<ConfigSection>, k: nat, repr: set<ConfigVar>, before: seq<Section>)
    requires forall s, v :: s in l && v in s.vars ==> v in repr
    requires k < |before| == |l| && l[k].name == before[k].name
    requires forall i :: 0 <= i < |l| && i != k ==> l[i].View() == before[i]
    ensures Views(l, repr) == WithVars(before, k, l[k].View().vars)
  {
  }

  lemma SpliceViews(l: seq<ConfigSection>, i: nat, mid: seq<ConfigSection>, j: nat, onSaved: bool, repr: set<ConfigVar>)
    requires i <= j <= |l| && |mid| <= 1 && ListValid(l, onSaved, repr) && ListValid(mid, onSaved, repr)
    requires forall s :: s in mid ==> s !in l
    ensures ListValid(Splice(l, i, mid, j), onSaved, repr)
    ensures Views(Splice(l, i, mid, j), repr) == Splice(Views(l, repr), i, Views(mid, repr), j)
  {
    var r := Splice(l, i, mid, j);
    forall k | 0 <= k < |r| ensures r[k] in l || r[k] in mid { SpliceIndex(l, i, mid, j, k); }
    forall k, m | 0 <= k < m < |r| ensures r[k] != r[m] {
      SpliceIndex(l, i, mid, j, k);
      SpliceIndex(l, i, mid, j, m);
    }
  }

  lemma GrowViews(l: seq<ConfigSection>, onSaved: bool, repr: set<ConfigVar>, more: set<ConfigVar>)
    requires ListValid(l, onSaved, repr) && repr <= more
    ensures ListValid(l, onSaved, more) && Views(l, more) == Views(l, repr)
  {
  }

  ghost predicate ListValid(l: seq<ConfigSection>, onSaved: bool, repr: set<ConfigVar>)
    reads l
  {
    && (forall i, j :: 0 <= i < j < |l| ==> l[i] != l[j])
    && (forall s :: s in l ==> s.onSaved == onSaved && s.Valid())
    && (forall s, v :: s in l && v in s.vars ==> v in repr)
  }

  ghost function Views(l: seq<ConfigSection>, repr: set<ConfigVar>): (r: seq<Section>)
    requires forall s, v :: s in l && v in s.vars ==> v in repr
    reads l, repr
    ensures |r| == |l| && forall i :: 0 <= i < |r| ==> r[i] == l[i].View()
  {
    seq(|l|, i requires 0 <= i < |l| && (forall v :: v in l[i].vars ==> v in repr) reads l, repr => l[i].View())
  }

  /** find_section_link; the link is the position of the section, or the length of the list. */
  method FindSectionLink(l: seq<ConfigSection>, name: string, ghost c: seq<Section>, ghost onSaved: bool,
                         ghost repr: set<ConfigVar>)
    returns (i: nat)
    requires ListValid(l, onSaved, repr) && c == Views(l, repr)
    ensures i == Find(c, name)
  {
    i := 0;
    while i < |l| && Compare(name, l[i].name) != 0
      invariant i <= |l| && forall j :: 0 <= j < i ==> Compare(name, l[j].name) != 0
    {
      i := i + 1;
    }
    FindIs(c, name, i);
  }

  /** find_alpha_section_link */
  method FindAlphaSectionLink(l: seq<ConfigSection>, name: string, ghost c: seq<Section>, ghost onSaved: bool,
                              ghost repr: set<ConfigVar>)
    returns (i: nat)
    requires ListValid(l, onSaved, repr) && c == Views(l, repr)
    ensures i == FindAlpha(c, name)
  {
    i := 0;
    while i < |l| && Compare(l[i].name, name) < 0
      invariant i <= |l| && forall j :: 0 <= j < i ==> Compare(l[j].name, name) < 0
    {
      i := i + 1;
    }
    FindAlphaIs(c, name, i);
  }

  lemma {:induction false} FindVarIs(vars: seq<Var>, name: string, i: nat)
    requires i <= |vars| && (i < |vars| ==> Compare(name, vars[i].name) == 0)
    requires forall j :: 0 <= j < i ==> Compare(name, vars[j].name) != 0
    ensures FindVar(vars, name) == i
  {
  }

  lemma {:induction false} FindIs(l: seq<Section>, name: string, i: nat)
    requires i <= |l| && (i < |l| ==> Compare(name, l[i].name) == 0)
    requires forall j :: 0 <= j < i ==> Compare(name, l[j].name) != 0
    ensures Find(l, name) == i
  {
  }

  lemma {:induction false} FindAlphaIs(l: seq<Section>, name: string, i: nat)
    requires i <= |l| && (i < |l| ==> Compare(l[i].name, name) >= 0)
    requires forall j :: 0 <= j < i ==> Compare(l[j].name, name) < 0
    ensures FindAlpha(l, name) == i
  {
  }
}
