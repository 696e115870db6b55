/** The profile merge of tools/r4300prof.c: samples by host address are attributed to the
    recompiled instruction whose code they fall into. The samples come in any order; the loop
    walks the instruction table forward, starts over when a sample lies behind, and repeats a
    sample (`j--`) each time it has moved. */
module Profiler {

  /** r4300op: an instruction type index and where its code starts. */
  datatype Op = Op(mipsop: int, x86addr: int)

  /** profilehit */
  datatype Hit = Hit(x86addr: int, samples: int)

  /** The table as the merge finds it: sorted, no empty instructions, at least two entries, and
      type indices from the special codes -5..-1 or the 131 instruction types. */
  predicate Ready(table: seq<Op>) {
    && |table| >= 2
    && (forall i, k :: 0 <= i < k < |table| ==> table[i].x86addr < table[k].x86addr)
    && (forall i :: 0 <= i < |table| ==> -5 <= table[i].mipsop <= 130)
  }

  /** Where a sample goes: to an instruction of the table or to the unaccounted ones. */
  datatype Slot = Outside | At(i: nat)

  predicate Covers(table: seq<Op>, i: nat, a: int) { i + 1 < |table| && table[i].x86addr <= a <= table[i + 1].x86addr }

  predicate InRange(table: seq<Op>, a: int)
    requires |table| >= 2
  {
    table[0].x86addr <= a < table[|table| - 1].x86addr
  }

  /** First position from `i` on whose instruction does not end before `a`. */
  function Least(table: seq<Op>, i: nat, a: int): (r: nat)
    requires i + 1 < |table| && a <= table[|table| - 1].x86addr
    ensures i <= r && r + 1 < |table| && a <= table[r + 1].x86addr
    ensures forall k :: i < k <= r ==> table[k].x86addr < a
    decreases |table| - i
  {
    if a <= table[i + 1].x86addr then i else Least(table, i + 1, a)
  }

  /** The rule for one sample when the walk stands at instruction `i`: stay if the sample fits,
      ignore it if no instruction can have it, otherwise take the first fitting instruction,
      counted from here or, if the sample lies behind, from the start. */
  function Place(table: seq<Op>, i: nat, a: int): (nat, Slot)
    requires |table| >= 2 && i + 1 < |table|
  {
    if Covers(table, i, a) then (i, At(i))
    else if !InRange(table, a) then (i, Outside)
    else
      var r := Least(table, if a < table[i].x86addr then 0 else i, a);
      (r, At(r))
  }

  function Stand(table: seq<Op>, prof: seq<Hit>, n: nat): (i: nat)
    requires |table| >= 2 && n <= |prof|
    ensures i + 1 < |table|
  {
    if n == 0 then 0 else Place(table, Stand(table, prof, n - 1), prof[n - 1].x86addr).0
  }

  /** The slot of sample `n`. */
  function SlotOf(table: seq<Op>, prof: seq<Hit>, n: nat): (s: Slot)
    requires |table| >= 2 && n < |prof|
    ensures s.At? ==> s.i < |table|
  {
    Place(table, Stand(table, prof, n), prof[n].x86addr).1
  }

  lemma PlaceFits(table: seq<Op>, i: nat, a: int)
    requires Ready(table) && i + 1 < |table|
    ensures var s := Place(table, i, a).1;
            && (s.At? ==> Covers(table, s.i, a))
            && (s.Outside? <==> !InRange(table, a) && !Covers(table, i, a))
  {
  }

  /** A sample goes to an instruction that covers its address, and is unaccounted exactly if it
      lies outside the table and the instruction at hand does not cover it. */
  lemma SlotFits(table: seq<Op>, prof: seq<Hit>, n: nat)
    requires Ready(table) && n < |prof|
    ensures var a, s := prof[n].x86addr, SlotOf(table, prof, n);
            && (s.At? ==> Covers(table, s.i, a))
            && (s.Outside? <==> !InRange(table, a) && !Covers(table, Stand(table, prof, n), a))
  {
    PlaceFits(table, Stand(table, prof, n), prof[n].x86addr);
  }

  lemma CoversUnique(table: seq<Op>, i: nat, k: nat, a: int)
    requires Ready(table) && i + 1 < |table| && table[i].x86addr < a < table[i + 1].x86addr
    ensures Covers(table, k, a) <==> k == i
    ensures InRange(table, a)
  {
    assert table[0].x86addr <= table[i].x86addr && table[i + 1].x86addr <= table[|table| - 1].x86addr;
  }

  /** An address strictly inside an instruction can only go there, whatever came before. */
  lemma InteriorIsUnique(table: seq<Op>, prof: seq<Hit>, n: nat, i: nat)
    requires Ready(table) && n < |prof| && i + 1 < |table| && table[i].x86addr < prof[n].x86addr < table[i + 1].x86addr
    ensures SlotOf(table, prof, n) == At(i)
  {
    SlotFits(table, prof, n);
    CoversUnique(table, i, i, prof[n].x86addr);
    CoversUnique(table, i, SlotOf(table, prof, n).i, prof[n].x86addr);
  }

  /** Going back to the start, or ahead, does not change where the sample will go. */
  lemma MoveKeepsPlace(table: seq<Op>, i: nat, a: int)
    requires Ready(table) && i + 1 < |table| && !Covers(table, i, a) && InRange(table, a)
    ensures a < table[i].x86addr ==> Place(table, 0, a) == Place(table, i, a)
    ensures a >= table[i].x86addr ==> Place(table, Least(table, i, a), a) == Place(table, i, a)
  {
  }

  /** The same in addresses. A sample on the border of the instruction at hand stays there; any
      other goes to the instruction that starts before it and does not end before it. */
  lemma SlotByAddress(table: seq<Op>, prof: seq<Hit>, n: nat, k: nat)
    requires Ready(table) && n < |prof| && k + 1 < |table|
    ensures var i, a := Stand(table, prof, n), prof[n].x86addr;
            SlotOf(table, prof, n) == At(k) <==>
            if table[i].x86addr <= a <= table[i + 1].x86addr then k == i
            else if a == table[0].x86addr then k == 0
            else a < table[|table| - 1].x86addr && table[k].x86addr < a <= table[k + 1].x86addr
  {
    var i, a := Stand(table, prof, n), prof[n].x86addr;
    if !Covers(table, i, a) {
      if InRange(table, a) {
        LeastByAddress(table, if a < table[i].x86addr then 0 else i, a, k);
      } else {
        assert table[0].x86addr <= table[k].x86addr;
      }
    }
  }

  lemma LeastByAddress(table: seq<Op>, i: nat, a: int, k: nat)
    requires Ready(table) && i + 1 < |table| && k + 1 < |table| && a < table[|table| - 1].x86addr
    requires if i == 0 then table[0].x86addr <= a else table[i].x86addr < a
    ensures Least(table, i, a) == k <==>
            if a == table[0].x86addr then k == 0 else table[k].x86addr < a <= table[k + 1].x86addr
  {
    var r := Least(table, i, a);
    assert r < k ==> table[r + 1].x86addr <= table[k].x86addr;
    assert k < r ==> table[k + 1].x86addr <= table[r].x86addr;
  }

  /** The walk stays with the instruction that had the last sample inside the table. */
  lemma StandFollows(table: seq<Op>, prof: seq<Hit>, n: nat)
    requires Ready(table) && n < |prof|
    ensures Stand(table, prof, 0) == 0
    ensures Stand(table, prof, n + 1) ==
            if SlotOf(table, prof, n).At? then SlotOf(table, prof, n).i else Stand(table, prof, n)
  {
  }

  /** The counter a sample is added to: a special code, or an instruction type. */
  function Bucket(table: seq<Op>, prof: seq<Hit>, n: nat): int
    requires |table| >= 2 && n < |prof|
  {
    match SlotOf(table, prof, n)
    case Outside => -1
    case At(i) => table[i].mipsop
  }

  /** A sample inside an instruction is counted for that instruction's type, one outside the table
      as unaccounted. */
  lemma BucketByAddress(table: seq<Op>, prof: seq<Hit>, n: nat, i: nat)
    requires Ready(table) && n < |prof| && i + 1 < |table|
    ensures table[i].x86addr < prof[n].x86addr < table[i + 1].x86addr ==> Bucket(table, prof, n) == table[i].mipsop
    ensures prof[n].x86addr < table[0].x86addr || prof[n].x86addr > table[|table| - 1].x86addr ==>
              Bucket(table, prof, n) == -1
  {
    if table[i].x86addr < prof[n].x86addr < table[i + 1].x86addr { InteriorIsUnique(table, prof, n, i); }
    SlotFits(table, prof, n);
  }

  /** Samples of the first `n` hits that belong to bucket `b`. */
  function Count(table: seq<Op>, prof: seq<Hit>, n: nat, b: int): int
    requires |table| >= 2 && n <= |prof|
  {
    if n == 0 then 0
    else Count(table, prof, n - 1, b) + if Bucket(table, prof, n - 1) == b then prof[n - 1].samples else 0
  }

  function Total(prof: seq<Hit>, n: nat): int
    requires n <= |prof|
  {
    if n == 0 then 0 else Total(prof, n - 1) + prof[n - 1].samples
  }

  /** All counters from `lo` below `hi` together. */
  function CountRange(table: seq<Op>, prof: seq<Hit>, n: nat, lo: int, hi: int): int
    requires |table| >= 2 && n <= |prof|
    decreases hi - lo
  {
    if lo >= hi then 0 else Count(table, prof, n, lo) + CountRange(table, prof, n, lo + 1, hi)
  }

  lemma {:induction false} CountRangeStep(table: seq<Op>, prof: seq<Hit>, n: nat, lo: int, hi: int)
    requires |table| >= 2 && 0 < n <= |prof|
    ensures CountRange(table, prof, n, lo, hi) == CountRange(table, prof, n - 1, lo, hi) +
            if lo <= Bucket(table, prof, n - 1) < hi then prof[n - 1].samples else 0
    decreases hi - lo
  {
    if lo < hi { CountRangeStep(table, prof, n, lo + 1, hi); }
  }

  lemma {:induction false} CountRangeZero(table: seq<Op>, prof: seq<Hit>, lo: int, hi: int)
    requires |table| >= 2
    ensures CountRange(table, prof, 0, lo, hi) == 0
    decreases hi - lo
  {
    if lo < hi { CountRangeZero(table, prof, lo + 1, hi); }
  }

  lemma {:induction false} CountsAddUp(table: seq<Op>, prof: seq<Hit>, n: nat, lo: int, hi: int)
    requires |table| >= 2 && n <= |prof| && forall k :: 0 <= k < n ==> lo <= Bucket(table, prof, k) < hi
    ensures CountRange(table, prof, n, lo, hi) == Total(prof, n)
    decreases n
  {
    if n == 0 {
      CountRangeZero(table, prof, lo, hi);
    } else {
      CountsAddUp(table, prof, n - 1, lo, hi);
      CountRangeStep(table, prof, n, lo, hi);
    }
  }

  /** No sample is lost and none counted twice: the 136 counters add up to all samples. */
  lemma SamplesConserved(table: seq<Op>, prof: seq<Hit>)
    requires Ready(table)
    ensures CountRange(table, prof, |prof|, -5, 131) == Total(prof, |prof|)
  {
    CountsAddUp(table, prof, |prof|, -5, 131);
  }

  /** The counters of the program. */
  class Counters {
    const instr_samples: array<int>
    var unknown: int
    var notcompiled: int
    var blockend: int
    var wrappers: int
    var flush: int

    constructor ()
      ensures fresh(instr_samples) && instr_samples.Length == 132 && forall b :: -5 <= b <= 130 ==> Value(b) == 0
    {
      instr_samples := new int[132](i => 0);
      unknown, notcompiled, blockend, wrappers, flush := 0, 0, 0, 0, 0;
    }

    /** The counter of a bucket. */
    function Value(b: int): int
      requires instr_samples.Length == 132 && -5 <= b <= 130
      reads this, instr_samples
    {
      if b == -1 then unknown else if b == -2 then notcompiled else if b == -3 then blockend
      else if b == -4 then wrappers else if b == -5 then flush else instr_samples[b]
    }

    method AddTo(instr: int, samples: int)
      requires instr_samples.Length == 132 && -5 <= instr <= 130
      modifies this, instr_samples
      ensures forall b :: -5 <= b <= 130 ==> Value(b) == old(Value(b)) + if b == instr then samples else 0
    {
      if instr == -1 { unknown := unknown + samples; }
      else if instr == -2 { notcompiled := notcompiled + samples; }
      else if instr == -3 { blockend := blockend + samples; }
      else if instr == -4 { wrappers := wrappers + samples; }
      else if instr == -5 { flush := flush + samples; }
      else { instr_samples[instr] := instr_samples[instr] + samples; }
    }
  }

  /** How many more turns a sample can take before it is counted. */
  ghost function TurnsLeft(table: seq<Op>, prof: seq<Hit>, i: nat, j: nat): nat
    requires |table| >= 2 && i + 1 < |table| && j < |prof|
  {
    var a := prof[j].x86addr;
    if Covers(table, i, a) || !InRange(table, a) then 0 else if a < table[i].x86addr then 2 else 1
  }

  /** The counters hold the samples of the first `n` hits. */
  ghost predicate Tallied(c: Counters, table: seq<Op>, prof: seq<Hit>, n: nat)
    requires c.instr_samples.Length == 132 && |table| >= 2 && n <= |prof|
    reads c, c.instr_samples
  {
    forall b :: -5 <= b <= 130 ==> c.Value(b) == Count(table, prof, n, b)
  }

  /** Count hit `j` in bucket `instr`, which is its bucket. */
  method Attribute(c: Counters, table: seq<Op>, prof: seq<Hit>, j: nat, instr: int)
    requires c.instr_samples.Length == 132 && |table| >= 2 && j < |prof|
    requires -5 <= instr <= 130 && instr == Bucket(table, prof, j) && Tallied(c, table, prof, j)
    modifies c, c.instr_samples
    ensures Tallied(c, table, prof, j + 1)
  {
    c.AddTo(instr, prof[j].samples);
  }

  /** The walk stands where it will put hit `j` to the right place. */
  ghost predicate OnTrack(table: seq<Op>, prof: seq<Hit>, i: nat, j: nat)
    requires |table| >= 2
  {
    && i + 1 < |table| && j <= |prof|
    && (j < |prof| ==> Place(table, i, prof[j].x86addr) == Place(table, Stand(table, prof, j), prof[j].x86addr))
  }

  lemma StillOnTrack(table: seq<Op>, prof: seq<Hit>, i: nat, j: nat)
    requires |table| >= 2 && j < |prof| && OnTrack(table, prof, i, j)
    requires Covers(table, i, prof[j].x86addr) || !InRange(table, prof[j].x86addr)
    ensures OnTrack(table, prof, i, j + 1)
  {
    assert Stand(table, prof, j + 1) == i;
  }

  /** The bucket of a hit that the walk will not move for. */
  lemma BucketHere(table: seq<Op>, prof: seq<Hit>, i: nat, j: nat)
    requires Ready(table) && j < |prof| && OnTrack(table, prof, i, j)
    requires Covers(table, i, prof[j].x86addr) || !InRange(table, prof[j].x86addr)
    ensures Bucket(table, prof, j) == if Covers(table, i, prof[j].x86addr) then table[i].mipsop else -1
    ensures -5 <= Bucket(table, prof, j) <= 130
  {
  }

  /** Count a hit that the walk will not move for. */
  method CountHere(c: Counters, table: seq<Op>, prof: seq<Hit>, i: nat, j: nat, instr: int)
    requires Ready(table) && j < |prof| && OnTrack(table, prof, i, j)
    requires Covers(table, i, prof[j].x86addr) || !InRange(table, prof[j].x86addr)
    requires instr == if Covers(table, i, prof[j].x86addr) then table[i].mipsop else -1
    requires c.instr_samples.Length == 132 && Tallied(c, table, prof, j)
    modifies c, c.instr_samples
    ensures OnTrack(table, prof, i, j + 1) && Tallied(c, table, prof, j + 1)
  {
    BucketHere(table, prof, i, j);
    Attribute(c, table, prof, j, instr);
    StillOnTrack(table, prof, i, j);
  }

  /** One turn of the merge loop: hit `j` is counted, or the walk moves and the hit is tried
      again (`j--`), which can happen at most twice. */
  method Turn(c: Counters, table: seq<Op>, prof: seq<Hit>, i: nat, j: nat) returns (i': nat, j': nat, error: bool)
    requires Ready(table) && j < |prof| && OnTrack(table, prof, i, j)
    requires c.instr_samples.Length == 132 && Tallied(c, table, prof, j)
    modifies c, c.instr_samples
    ensures !error && OnTrack(table, prof, i', j') && Tallied(c, table, prof, j')
    ensures j' == j + 1 || (j' == j && TurnsLeft(table, prof, i', j) < TurnsLeft(table, prof, i, j))
  {
    var counted := TryCount(c, table, prof, i, j);
    if counted { return i, j + 1, false; }
    i', error := Move(table, prof, i, j);
    j' := j;
  }

  /** The first two tests of the loop: the hit lies in the instruction at hand, or outside the
      whole table. */
  method TryCount(c: Counters, table: seq<Op>, prof: seq<Hit>, i: nat, j: nat) returns (counted: bool)
    requires Ready(table) && j < |prof| && OnTrack(table, prof, i, j)
    requires c.instr_samples.Length == 132 && Tallied(c, table, prof, j)
    modifies c, c.instr_samples
    ensures counted <==> Covers(table, i, prof[j].x86addr) || !InRange(table, prof[j].x86addr)
    ensures OnTrack(table, prof, i, if counted then j + 1 else j)
    ensures Tallied(c, table, prof, if counted then j + 1 else j)
  {
    var lOpStart, lOpEnd := table[i].x86addr, table[i + 1].x86addr;
    var a := prof[j].x86addr;
    if a >= lOpStart && a <= lOpEnd {
      CountHere(c, table, prof, i, j, table[i].mipsop);
      return true;
    }
    if a < table[0].x86addr || a >= table[|table| - 1].x86addr {
      CountHere(c, table, prof, i, j, -1);
      return true;
    }
    return false;
  }

  /** Hit `j` lies in the table but not at `i`: start over, or race ahead. */
  method Move(table: seq<Op>, prof: seq<Hit>, i: nat, j: nat) returns (i': nat, error: bool)
    requires Ready(table) && j < |prof| && OnTrack(table, prof, i, j)
    requires InRange(table, prof[j].x86addr) && !Covers(table, i, prof[j].x86addr)
    ensures !error && OnTrack(table, prof, i', j)
    ensures TurnsLeft(table, prof, i', j) < TurnsLeft(table, prof, i, j)
  {
    var a := prof[j].x86addr;
    MoveKeepsPlace(table, i, a);
    if a < table[i].x86addr { return 0, false; }
    i' := RaceAhead(table, i, a);
    error := a < table[i'].x86addr || a > table[i' + 1].x86addr;
  }

  /** The merge loop: it ends, never takes the error exit, and every counter holds exactly the
      samples of its bucket. */
  method Merge(table: seq<Op>, prof: seq<Hit>) returns (c: Counters, error: bool)
    requires Ready(table)
    ensures !error && c.instr_samples.Length == 132 && Tallied(c, table, prof, |prof|)
  {
    c := new Counters();
    var i, j := 0, 0;
    error := false;
    while j < |prof|
      invariant OnTrack(table, prof, i, j) && !error
      invariant fresh(c) && fresh(c.instr_samples) && c.instr_samples.Length == 132 && Tallied(c, table, prof, j)
      decreases |prof| - j, if j < |prof| then TurnsLeft(table, prof, i, j) else 0
    {
      i, j, error := Turn(c, table, prof, i, j);
      if error { return; }
    }
  }

  /** The inner do-while. */
  method RaceAhead(table: seq<Op>, i: nat, a: int) returns (k: nat)
    requires Ready(table) && i + 1 < |table| && table[i + 1].x86addr < a < table[|table| - 1].x86addr
    ensures k == Least(table, i, a) && i < k && Covers(table, k, a)
  {
    k := i + 1;
    while k + 1 < |table| && a > table[k + 1].x86addr
      invariant i < k && k + 1 < |table|
      invariant Least(table, k, a) == Least(table, i, a)
      invariant table[k].x86addr < a
    {
      k := k + 1;
    }
  }
}
