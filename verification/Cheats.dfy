/** The cheat engine of src/main/cheat.c, on values: GameShark codes that test and write
    memory on every vertical interrupt, and take their writes back when they are disabled. */
module Cheats {
  import opened Common

  /** The bytes of emulated RAM in the order the host keeps them (32-bit words, little end
      first), as far as a 24-bit address and one more byte reach. */
  type Memory = m: seq<Byte> | |m| == 0x100_0001 witness seq(0x100_0001, i => 0)
  type Cell = n: nat | n < 0x100_0001

  /** CHEAT_CODE_MAGIC_VALUE: no old value has been saved. */
  const MAGIC: U32 := 0xDEAD_0000

  datatype Code = Code(address: U32, value: U32, old_value: U32)

  // ----- addresses and single codes ---------------------------------------------------

  function Low24(a: U32): nat { a % 0x100_0000 }

  /** `(address & 0xFFFFFF) ^ S8` with S8 == 3 */
  function Host8(a: U32): Cell { Low24(a) - Low24(a) % 4 + (3 - Low24(a) % 4) }

  /** `(address & 0xFFFFFF) ^ S16` with S16 == 2 */
  function Host16(a: U32): Cell { Low24(a) - Low24(a) % 4 + (Low24(a) % 4 + 2) % 4 }

  function Read8(m: Memory, a: U32): U32 { m[Host8(a)] }

  function Read16(m: Memory, a: U32): U32 { m[Host16(a)] + 256 * (m[Host16(a) + 1] as int) }

  function Write8(m: Memory, a: U32, v: U32): Memory { m[Host8(a) := v % 256] }

  function Write16(m: Memory, a: U32, v: U32): Memory { m[Host16(a) := v % 256][Host16(a) + 1 := v / 256 % 256] }

  /** The top byte of the address says what a code does. */
  function Kind(a: U32): nat { a / 0x100_0000 }

  predicate Writes8(a: U32) { Kind(a) in {0x80, 0x88, 0xA0, 0xA8, 0xF0} }
  predicate Writes16(a: U32) { Kind(a) in {0x81, 0x89, 0xA1, 0xA9, 0xF1} }

  /** `(address & 0xF0000000) == 0xD0000000` */
  predicate IsTest(a: U32) { 0xD0 <= Kind(a) < 0xE0 }
  predicate IsBoot(a: U32) { 0xF0 <= Kind(a) }
  predicate NeedsButton(a: U32) { Kind(a) in {0xD8, 0xD9, 0xDA, 0xDB} }
  predicate ButtonWrite(a: U32) { Kind(a) in {0x88, 0x89, 0xA8, 0xA9} }

  /** What execute_cheat does to memory. */
  function Executed(m: Memory, a: U32, v: U32): Memory {
    if Writes8(a) then Write8(m, a, v)
    else if Writes16(a) then Write16(m, a, v)
    else if Kind(a) == 0xEE then Write16(Write16(m, 0xF100_0318, 0x0040), 0xF100_031A, 0x0000)
    else m
  }

  /** What execute_cheat returns. */
  predicate Passes(m: Memory, a: U32, v: U32) {
    if Kind(a) in {0xD0, 0xD8} then Read8(m, a) == v % 256
    else if Kind(a) in {0xD1, 0xD9} then Read16(m, a) == v % 0x1_0000
    else if Kind(a) in {0xD2, 0xDB} then Read8(m, a) != v % 256
    else if Kind(a) in {0xD3, 0xDA} then Read16(m, a) != v % 0x1_0000
    else true
  }

  /** The old value after execute_cheat has been given a pointer to it. */
  function Remembered(m: Memory, a: U32, old_value: U32): U32 {
    if old_value != MAGIC then old_value
    else if Writes8(a) then Read8(m, a)
    else if Writes16(a) then Read16(m, a)
    else old_value
  }

  // ----- the vertical interrupt: loop and declarative rule -----------------------------

  predicate TestHolds(m: Memory, c: Code, button: bool) {
    (NeedsButton(c.address) ==> button) && Passes(m, c.address, c.value)
  }

  /** The effect of a non-test code that is reached, on memory and on the code. */
  function ViMemory(m: Memory, c: Code, button: bool): Memory {
    if ButtonWrite(c.address) then (if button then Executed(m, c.address, c.value) else m)
    else if IsBoot(c.address) then m
    else Executed(m, c.address, c.value)
  }

  function ViCode(m: Memory, c: Code): Code {
    if ButtonWrite(c.address) || IsBoot(c.address) then c else c.(old_value := Remembered(m, c.address, c.old_value))
  }

  /** Codes and memory, as a pass over the list leaves them. */
  datatype Pass = Pass(codes: seq<Code>, memory: Memory)

  /** The loop of cheat_apply_cheats for ENTRY_VI from code `i` on, with its `cond_failed`. */
  function ViLoop(codes: seq<Code>, i: nat, failed: bool, m: Memory, button: bool): (p: Pass)
    requires i <= |codes|
    ensures |p.codes| == |codes|
    decreases |codes| - i
  {
    if i == |codes| then Pass(codes, m)
    else
      var c := codes[i];
      if IsTest(c.address) then ViLoop(codes, i + 1, failed || !TestHolds(m, c, button), m, button)
      else if failed then ViLoop(codes, i + 1, false, m, button)
      else ViLoop(codes[i := ViCode(m, c)], i + 1, false, ViMemory(m, c, button), button)
  }

  /** Start of the run of test codes that stands directly before position `i`. */
  function RunStart(codes: seq<Code>, i: nat): (s: nat)
    requires i <= |codes|
    ensures s <= i && forall j :: s <= j < i ==> IsTest(codes[j].address)
    ensures s > 0 ==> !IsTest(codes[s - 1].address)
  {
    if i == 0 || !IsTest(codes[i - 1].address) then i else RunStart(codes, i - 1)
  }

  /** Every test directly before position `i` holds. */
  predicate Reached(codes: seq<Code>, i: nat, m: Memory, button: bool)
    requires i <= |codes|
  {
    forall j :: RunStart(codes, i) <= j < i ==> TestHolds(m, codes[j], button)
  }

  /** The rule: a code that is no test takes effect exactly when it is reached. */
  function ViRule(codes: seq<Code>, i: nat, m: Memory, button: bool): (p: Pass)
    requires i <= |codes|
    ensures |p.codes| == |codes|
    decreases |codes| - i
  {
    if i == |codes| then Pass(codes, m)
    else
      var c := codes[i];
      if !IsTest(c.address) && Reached(codes, i, m, button) then
        ViRule(codes[i := ViCode(m, c)], i + 1, ViMemory(m, c, button), button)
      else ViRule(codes, i + 1, m, button)
  }

  lemma ReachedAfterCode(codes: seq<Code>, i: nat, m: Memory, button: bool)
    requires i < |codes| && !IsTest(codes[i].address)
    ensures Reached(codes, i + 1, m, button)
  {
  }

  lemma ReachedAfterTest(codes: seq<Code>, i: nat, m: Memory, button: bool)
    requires i < |codes| && IsTest(codes[i].address)
    ensures Reached(codes, i + 1, m, button) <==> Reached(codes, i, m, button) && TestHolds(m, codes[i], button)
  {
    assert RunStart(codes, i + 1) == RunStart(codes, i);
  }

  /** The `cond_failed` loop follows the rule, for every list, memory and button state. */
  lemma {:induction false} LoopFollowsRule(codes: seq<Code>, i: nat, failed: bool, m: Memory, button: bool)
    requires i <= |codes| && failed == !Reached(codes, i, m, button)
    ensures ViLoop(codes, i, failed, m, button) == ViRule(codes, i, m, button)
    decreases |codes| - i
  {
    if i < |codes| {
      var c := codes[i];
      if IsTest(c.address) {
        ReachedAfterTest(codes, i, m, button);
        LoopFollowsRule(codes, i + 1, failed || !TestHolds(m, c, button), m, button);
      } else if failed {
        ReachedAfterCode(codes, i, m, button);
        LoopFollowsRule(codes, i + 1, false, m, button);
      } else {
        var codes', m' := codes[i := ViCode(m, c)], ViMemory(m, c, button);
        ReachedAfterCode(codes', i, m', button);
        LoopFollowsRule(codes', i + 1, false, m', button);
      }
    }
  }

  // ----- the other passes ---------------------------------------------------------------

  /** The pass for ENTRY_BOOT: only the F codes, once. */
  function BootLoop(codes: seq<Code>, i: nat, m: Memory): (p: Pass)
    requires i <= |codes|
    ensures |p.codes| == |codes|
    decreases |codes| - i
  {
    if i == |codes| then Pass(codes, m)
    else
      var c := codes[i];
      if IsBoot(c.address) then
        BootLoop(codes[i := c.(old_value := Remembered(m, c.address, c.old_value))], i + 1,
                 Executed(m, c.address, c.value))
      else BootLoop(codes, i + 1, m)
  }

  /** The pass that takes the writes back. */
  function RestoreLoop(codes: seq<Code>, i: nat, m: Memory): (p: Pass)
    requires i <= |codes|
    ensures |p.codes| == |codes|
    decreases |codes| - i
  {
    if i == |codes| then Pass(codes, m)
    else
      var c := codes[i];
      if c.old_value != MAGIC then
        RestoreLoop(codes[i := c.(old_value := MAGIC)], i + 1, Executed(m, c.address, c.old_value))
      else RestoreLoop(codes, i + 1, m)
  }

  datatype Entry = Boot | Vi

  datatype Cheat = Cheat(name: string, enabled: bool, was_enabled: bool, codes: seq<Code>)

  /** cheat_apply_cheats, for one cheat. */
  function Tick(c: Cheat, m: Memory, entry: Entry, button: bool): (Cheat, Memory) {
    if c.enabled then
      var p := if entry == Boot then BootLoop(c.codes, 0, m) else ViLoop(c.codes, 0, false, m, button);
      (c.(was_enabled := true, codes := p.codes), p.memory)
    else if c.was_enabled then
      var p := if entry == Vi then RestoreLoop(c.codes, 0, m) else Pass(c.codes, m);
      (c.(was_enabled := false, codes := p.codes), p.memory)
    else (c, m)
  }

  /** cheat_apply_cheats, once it has dealt with the first `n` cheats. */
  function TickAll(cs: seq<Cheat>, n: nat, m: Memory, entry: Entry, button: bool): (r: (seq<Cheat>, Memory))
    requires n <= |cs|
    ensures |r.0| == |cs|
  {
    if n == 0 then (cs, m)
    else
      var (ds, m') := TickAll(cs, n - 1, m, entry, button);
      var (d, m'') := Tick(ds[n - 1], m', entry, button);
      (ds[n - 1 := d], m'')
  }

  // ----- building a code list ---------------------------------------------------------------

  /** m64p_cheat_code */
  datatype Line = Line(address: U32, value: U32)

  const WORD: nat := 0x1_0000_0000

  /** `(address & 0xFFFF0000) == 0x50000000` */
  predicate IsPatch(a: U32) { a / 0x1_0000 == 0x5000 }

  function PatchCount(a: U32): nat { a / 256 % 256 }
  function PatchStep(a: U32): nat { a % 256 }

  /** The `k`-th line that a patch line makes of the line after it. */
  function PatchLine(patch: Line, base: Line, k: nat): Line {
    Line((base.address + k * PatchStep(patch.address)) % WORD, (base.value + k * patch.value) % WORD)
  }

  function AsCode(l: Line): Code { Code(l.address, l.value, MAGIC) }

  /** What cheat_add_new makes of its input: a patch line and the line after it become an
      arithmetic progression modulo 2^32, every other line stands for itself. */
  function Expand(lines: seq<Line>): seq<Code> {
    if lines == [] then []
    else if IsPatch(lines[0].address) && |lines| > 1 then
      seq(PatchCount(lines[0].address), k requires 0 <= k => AsCode(PatchLine(lines[0], lines[1], k)))
      + Expand(lines[2..])
    else [AsCode(lines[0])] + Expand(lines[1..])
  }

  /** One turn of the inner loop of cheat_add_new. */
  function Advance(patch: Line, l: Line): Line {
    Line((l.address + PatchStep(patch.address)) % WORD, (l.value + patch.value) % WORD)
  }

  function Advanced(patch: Line, base: Line, k: nat): Line {
    if k == 0 then base else Advance(patch, Advanced(patch, base, k - 1))
  }

  function Progression(patch: Line, base: Line, n: nat): (r: seq<Code>)
    ensures |r| == n
  {
    if n == 0 then [] else Progression(patch, base, n - 1) + [AsCode(Advanced(patch, base, n - 1))]
  }

  /** The additions of the inner loop walk along the arithmetic progression. */
  lemma {:induction false} AdvancedIsPatchLine(patch: Line, base: Line, k: nat)
    ensures Advanced(patch, base, k) == PatchLine(patch, base, k)
  {
    if k > 0 {
      AdvancedIsPatchLine(patch, base, k - 1);
      PatchNext(patch, base, k - 1);
    }
  }

  lemma {:induction false} ProgressionIs(patch: Line, base: Line, n: nat)
    ensures Progression(patch, base, n) == seq(n, k requires 0 <= k => AsCode(PatchLine(patch, base, k)))
  {
    if n > 0 {
      ProgressionIs(patch, base, n - 1);
      AdvancedIsPatchLine(patch, base, n - 1);
    }
  }

  lemma AddModulo(x: nat, y: nat)
    ensures (x % WORD + y) % WORD == (x + y) % WORD
  {
    var q := x / WORD;
    assert x + y == q * WORD + (x % WORD + y);
    ModShift(q, x % WORD + y);
  }

  lemma ModShift(q: nat, z: nat)
    ensures (q * WORD + z) % WORD == z % WORD
  {
    var d := (q * WORD + z) / WORD;
    assert z == (d - q) * WORD + (q * WORD + z) % WORD;
    ModUnique(z, d - q, (q * WORD + z) % WORD);
  }

  lemma ModUnique(z: nat, d: int, r: nat)
    requires z == d * WORD + r && r < WORD
    ensures z % WORD == r
  {
  }

  lemma NextTerm(base: nat, step: nat, k: nat)
    ensures ((base + k * step) % WORD + step) % WORD == (base + (k + 1) * step) % WORD
  {
    AddModulo(base + k * step, step);
    assert k * step + step == (k + 1) * step;
  }

  lemma PatchNext(patch: Line, base: Line, k: nat)
    ensures Advance(patch, PatchLine(patch, base, k)) == PatchLine(patch, base, k + 1)
  {
    NextTerm(base.address, PatchStep(patch.address), k);
    NextTerm(base.value, patch.value, k);
  }

  /** Position of the first cheat of that name, or the length of the list. */
  function FindCheat(cs: seq<Cheat>, name: string): (i: nat)
    ensures i <= |cs| && (i < |cs| ==> cs[i].name == name)
    ensures forall j :: 0 <= j < i ==> cs[j].name != name
  {
    if cs == [] || cs[0].name == name then 0 else 1 + FindCheat(cs[1..], name)
  }

  /** cheat_add_new: a cheat of that name is made anew, enabled, with nothing remembered. */
  function AddNew(cs: seq<Cheat>, name: string, lines: seq<Line>): seq<Cheat> {
    var i := FindCheat(cs, name);
    var c := Cheat(name, true, false, Expand(lines));
    if i < |cs| then cs[i := c] else cs + [c]
  }

  /** Adding keeps names unique, so a cheat can be addressed by its name; every other cheat stays
      as it is and where it is. */
  lemma AddNewUnique(cs: seq<Cheat>, name: string, lines: seq<Line>)
    requires forall i, j :: 0 <= i < j < |cs| ==> cs[i].name != cs[j].name
    ensures var ds := AddNew(cs, name, lines);
            && (forall i, j :: 0 <= i < j < |ds| ==> ds[i].name != ds[j].name)
            && FindCheat(ds, name) < |ds| && ds[FindCheat(ds, name)] == Cheat(name, true, false, Expand(lines))
            && |ds| == |cs| + (if FindCheat(cs, name) < |cs| then 0 else 1)
            && (forall j :: 0 <= j < |cs| && cs[j].name != name ==> ds[j] == cs[j])
  {
    var ds, k := AddNew(cs, name, lines), FindCheat(cs, name);
    assert ds[k].name == name;
    var f := FindCheat(ds, name);
    assert f == k;
  }

  // ----- which bytes a code touches -------------------------------------------------------

  function Cells(a: U32): set<Cell> {
    if Writes8(a) then {Host8(a)}
    else if Writes16(a) then {Host16(a), Host16(a) + 1}
    else if Kind(a) == 0xEE then
      {Host16(0xF100_0318), Host16(0xF100_0318) + 1, Host16(0xF100_031A), Host16(0xF100_031A) + 1}
    else {}
  }

  /** Codes that keep the old value: plain writes, and the boot-time ones. */
  predicate Saves(a: U32) { (Writes8(a) || Writes16(a)) && !ButtonWrite(a) }

  lemma OnlyCells(m: Memory, a: U32, v: U32, b: Cell)
    requires b !in Cells(a)
    ensures Executed(m, a, v)[b] == m[b]
  {
  }

  /** Two memories agree on the bytes of an address. */
  predicate SameAt(m: Memory, n: Memory, a: U32) { forall b: Cell :: b in Cells(a) ==> m[b] == n[b] }

  /** The value that a saving code would remember. */
  function ReadAt(m: Memory, a: U32): U32 { Remembered(m, a, MAGIC) }

  lemma NeverMagic(m: Memory, a: U32)
    requires Writes8(a) || Writes16(a)
    ensures ReadAt(m, a) != MAGIC
  {
  }

  lemma ReadSame(m: Memory, n: Memory, a: U32)
    requires SameAt(m, n, a)
    ensures ReadAt(m, a) == ReadAt(n, a)
  {
    if Writes8(a) {
      assert Host8(a) in Cells(a);
    } else if Writes16(a) {
      assert Host16(a) in Cells(a) && Host16(a) + 1 in Cells(a);
    }
  }

  /** Writing back what was read restores the bytes. */
  lemma WriteBack(m: Memory, n: Memory, a: U32)
    requires Writes8(a) || Writes16(a)
    ensures SameAt(Executed(n, a, ReadAt(m, a)), m, a)
  {
    if Writes16(a) {
      var lo, hi: int := m[Host16(a)], m[Host16(a) + 1];
      assert (lo + 256 * hi) % 256 == lo && (lo + 256 * hi) / 256 % 256 == hi;
    }
  }

  // ----- undo --------------------------------------------------------------------------------

  /** No byte of a saving code is written by any other code. */
  ghost predicate Separate(codes: seq<Code>) {
    forall i, j :: 0 <= i < |codes| && 0 <= j < |codes| && i != j && Saves(codes[i].address) ==>
      Cells(codes[i].address) !! Cells(codes[j].address)
  }

  /** The same codes, up to what they remember. */
  ghost predicate Alike(a: seq<Code>, b: seq<Code>) {
    |a| == |b| && forall i :: 0 <= i < |a| ==> a[i].address == b[i].address && a[i].value == b[i].value
  }

  /** Code `c` can still be undone: it remembers the original bytes, or they are still there. */
  ghost predicate Undoable(original: Memory, c: Code, m: Memory) {
    if Saves(c.address) then
      if c.old_value == MAGIC then SameAt(m, original, c.address) else c.old_value == ReadAt(original, c.address)
    else c.old_value == MAGIC
  }

  ghost predicate AllUndoable(original: Memory, codes: seq<Code>, m: Memory) {
    forall i :: 0 <= i < |codes| ==> Undoable(original, codes[i], m)
  }

  /** Executing one code, with its old value kept if it is a saving code, leaves everything
      undoable. */
  lemma WriteKeepsUndoable(original: Memory, codes: seq<Code>, i: nat, m: Memory)
    requires i < |codes| && Separate(codes) && AllUndoable(original, codes, m)
    ensures var c := codes[i];
            var c' := if Saves(c.address) then c.(old_value := Remembered(m, c.address, c.old_value)) else c;
            AllUndoable(original, codes[i := c'], Executed(m, c.address, c.value)) && Separate(codes[i := c'])
  {
    var c := codes[i];
    var c' := if Saves(c.address) then c.(old_value := Remembered(m, c.address, c.old_value)) else c;
    var m', codes' := Executed(m, c.address, c.value), codes[i := c'];
    forall j | 0 <= j < |codes| ensures Undoable(original, codes'[j], m') {
      assert Undoable(original, codes[j], m);
      if j == i {
        if Saves(c.address) {
          NeverMagic(m, c.address);
          if c.old_value == MAGIC { ReadSame(m, original, c.address); }
        }
      } else if Saves(codes[j].address) && codes[j].old_value == MAGIC {
        forall b: Cell | b in Cells(codes[j].address) ensures m'[b] == original[b] {
          OnlyCells(m, c.address, c.value, b);
        }
      }
    }
  }

  /** The same for a code that the pass reaches. */
  lemma ViWriteKeeps(original: Memory, codes: seq<Code>, i: nat, m: Memory, button: bool)
    requires i < |codes| && Separate(codes) && AllUndoable(original, codes, m) && !IsTest(codes[i].address)
    ensures var next := codes[i := ViCode(m, codes[i])];
            && Separate(next) && AllUndoable(original, next, ViMemory(m, codes[i], button)) && Alike(next, codes)
  {
    WriteKeepsUndoable(original, codes, i, m);
    assert codes[i := codes[i]] == codes;
    assert Undoable(original, codes[i], m);
  }

  lemma {:induction false} ViKeepsUndoable(original: Memory, codes: seq<Code>, i: nat, failed: bool, m: Memory,
                                           button: bool)
    requires i <= |codes| && Separate(codes) && AllUndoable(original, codes, m)
    ensures var p := ViLoop(codes, i, failed, m, button);
            Separate(p.codes) && AllUndoable(original, p.codes, p.memory) && Alike(p.codes, codes)
    decreases |codes| - i
  {
    if i < |codes| {
      var c := codes[i];
      if IsTest(c.address) {
        ViKeepsUndoable(original, codes, i + 1, failed || !TestHolds(m, c, button), m, button);
      } else if failed {
        ViKeepsUndoable(original, codes, i + 1, false, m, button);
      } else {
        ViWriteKeeps(original, codes, i, m, button);
        ViKeepsUndoable(original, codes[i := ViCode(m, c)], i + 1, false, ViMemory(m, c, button), button);
      }
    }
  }

  lemma {:induction false} BootKeepsUndoable(original: Memory, codes: seq<Code>, i: nat, m: Memory)
    requires i <= |codes| && Separate(codes) && AllUndoable(original, codes, m)
    ensures var p := BootLoop(codes, i, m);
            Separate(p.codes) && AllUndoable(original, p.codes, p.memory) && Alike(p.codes, codes)
    decreases |codes| - i
  {
    if i < |codes| {
      var c := codes[i];
      if IsBoot(c.address) {
        WriteKeepsUndoable(original, codes, i, m);
        assert Undoable(original, c, m);
        BootKeepsUndoable(original, codes[i := c.(old_value := Remembered(m, c.address, c.old_value))], i + 1,
                          Executed(m, c.address, c.value));
      } else {
        BootKeepsUndoable(original, codes, i + 1, m);
      }
    }
  }

  /** The bytes of the saving codes are as in the original, and nothing is remembered. */
  ghost predicate Undone(original: Memory, codes: seq<Code>, m: Memory) {
    forall i :: 0 <= i < |codes| ==>
      codes[i].old_value == MAGIC && (Saves(codes[i].address) ==> SameAt(m, original, codes[i].address))
  }

  lemma {:induction false} RestoreUndoes(original: Memory, codes: seq<Code>, i: nat, m: Memory)
    requires i <= |codes| && Separate(codes) && AllUndoable(original, codes, m)
    requires forall j :: 0 <= j < i ==> codes[j].old_value == MAGIC
    ensures var p := RestoreLoop(codes, i, m);
            Undone(original, p.codes, p.memory) && Alike(p.codes, codes)
    ensures forall b: Cell ::
              (forall j :: 0 <= j < |codes| && Saves(codes[j].address) ==> b !in Cells(codes[j].address)) ==>
                RestoreLoop(codes, i, m).memory[b] == m[b]
    decreases |codes| - i
  {
    if i == |codes| {
      forall j | 0 <= j < |codes|
        ensures codes[j].old_value == MAGIC && (Saves(codes[j].address) ==> SameAt(m, original, codes[j].address))
      {
        assert Undoable(original, codes[j], m);
      }
    } else {
      var c := codes[i];
      assert Undoable(original, c, m);
      if c.old_value != MAGIC {
        var m', codes' := Executed(m, c.address, c.old_value), codes[i := c.(old_value := MAGIC)];
        WriteBack(original, m, c.address);
        forall j | 0 <= j < |codes| ensures Undoable(original, codes'[j], m') {
          assert Undoable(original, codes[j], m);
          if j != i && Saves(codes[j].address) && codes[j].old_value == MAGIC {
            forall b: Cell | b in Cells(codes[j].address) ensures m'[b] == original[b] {
              OnlyCells(m, c.address, c.old_value, b);
            }
          }
        }
        RestoreUndoes(original, codes', i + 1, m');
        forall b: Cell | forall j :: 0 <= j < |codes| && Saves(codes[j].address) ==> b !in Cells(codes[j].address)
          ensures m'[b] == m[b]
        {
          OnlyCells(m, c.address, c.old_value, b);
        }
      } else {
        RestoreUndoes(original, codes, i + 1, m);
      }
    }
  }

  /** One step of an enabled cheat's life: something else changes memory, then a tick. */
  datatype Step = Step(memory: Memory, entry: Entry, button: bool)

  /** `n` differs from `m` only away from the bytes of the saving codes. */
  ghost predicate HandsOff(codes: seq<Code>, m: Memory, n: Memory) {
    forall i :: 0 <= i < |codes| && Saves(codes[i].address) ==> SameAt(n, m, codes[i].address)
  }

  /** A run of an enabled cheat: state and memory after each tick. */
  ghost predicate EnabledRun(c: Cheat, m: Memory, steps: seq<Step>, cs: seq<Cheat>, ms: seq<Memory>) {
    && |cs| == |ms| == |steps| + 1 && cs[0] == c && ms[0] == m && c.enabled
    && forall k :: 0 <= k < |steps| ==>
         && HandsOff(c.codes, ms[k], steps[k].memory)
         && (cs[k + 1], ms[k + 1]) == Tick(cs[k], steps[k].memory, steps[k].entry, steps[k].button)
  }

  ghost predicate Undamaged(c: Cheat, m: Memory, now: Cheat, n: Memory) {
    && now.enabled && Alike(now.codes, c.codes) && Separate(now.codes) && AllUndoable(m, now.codes, n)
    && (!now.was_enabled ==> forall i :: 0 <= i < |now.codes| ==> now.codes[i].old_value == MAGIC)
  }

  lemma HandsOffKeeps(original: Memory, c: Cheat, now: seq<Code>, m: Memory, n: Memory)
    requires Alike(now, c.codes) && AllUndoable(original, now, m) && HandsOff(c.codes, m, n)
    ensures AllUndoable(original, now, n)
  {
    forall i | 0 <= i < |now| ensures Undoable(original, now[i], n) {
      assert Undoable(original, now[i], m);
      if Saves(now[i].address) { assert SameAt(n, m, c.codes[i].address); }
    }
  }

  /** A tick keeps an enabled cheat's original bytes recoverable. */
  lemma TickKeepsUndamaged(c: Cheat, m: Memory, now: Cheat, n: Memory, entry: Entry, button: bool)
    requires Undamaged(c, m, now, n)
    ensures Undamaged(c, m, Tick(now, n, entry, button).0, Tick(now, n, entry, button).1)
  {
    if entry == Boot {
      BootKeepsUndoable(m, now.codes, 0, n);
    } else {
      ViKeepsUndoable(m, now.codes, 0, false, n, button);
    }
  }

  /** So does a change of memory elsewhere. */
  lemma ElsewhereKeepsUndamaged(c: Cheat, m: Memory, now: Cheat, a: Memory, b: Memory)
    requires Undamaged(c, m, now, a) && HandsOff(c.codes, a, b)
    ensures Undamaged(c, m, now, b)
  {
    HandsOffKeeps(m, c, now.codes, a, b);
  }

  lemma {:induction false} RunKeepsUndoable(c: Cheat, m: Memory, steps: seq<Step>, cs: seq<Cheat>, ms: seq<Memory>,
                                            k: nat)
    requires EnabledRun(c, m, steps, cs, ms) && k < |cs| && Separate(c.codes)
    requires forall i :: 0 <= i < |c.codes| ==> c.codes[i].old_value == MAGIC
    ensures Undamaged(c, m, cs[k], ms[k])
    decreases k
  {
    if k > 0 {
      RunKeepsUndoable(c, m, steps, cs, ms, k - 1);
      var s := steps[k - 1];
      ElsewhereKeepsUndamaged(c, m, cs[k - 1], ms[k - 1], s.memory);
      TickKeepsUndamaged(c, m, cs[k - 1], s.memory, s.entry, s.button);
    }
  }

  /** Disabling an undamaged cheat and one vertical interrupt restore its bytes. */
  lemma DisableRestores(c: Cheat, m: Memory, now: Cheat, n: Memory, button: bool)
    requires Undamaged(c, m, now, n)
    ensures var (c', m') := Tick(now.(enabled := false), n, Vi, button);
            Undone(m, c'.codes, m') && Alike(c'.codes, c.codes) && !c'.was_enabled
    ensures var m' := Tick(now.(enabled := false), n, Vi, button).1;
            forall b: Cell ::
              (forall j :: 0 <= j < |c.codes| && Saves(c.codes[j].address) ==> b !in Cells(c.codes[j].address)) ==>
                m'[b] == n[b]
  {
    if now.was_enabled {
      RestoreUndoes(m, now.codes, 0, n);
    } else {
      forall i | 0 <= i < |now.codes| ensures Saves(now.codes[i].address) ==> SameAt(n, m, now.codes[i].address) {
        assert Undoable(m, now.codes[i], n);
      }
    }
  }

  /** Enable a cheat, let it run through any ticks, disable it, and let one vertical interrupt
      pass: its bytes are what they were before the first tick, and it remembers nothing. */
  lemma UndoRestores(c: Cheat, m: Memory, steps: seq<Step>, cs: seq<Cheat>, ms: seq<Memory>, n: Memory, button: bool)
    requires EnabledRun(c, m, steps, cs, ms) && Separate(c.codes)
    requires forall i :: 0 <= i < |c.codes| ==> c.codes[i].old_value == MAGIC
    requires HandsOff(c.codes, ms[|steps|], n)
    ensures var (c', m') := Tick(cs[|steps|].(enabled := false), n, Vi, button);
            Undone(m, c'.codes, m') && Alike(c'.codes, c.codes) && !c'.was_enabled
    ensures var m' := Tick(cs[|steps|].(enabled := false), n, Vi, button).1;
            forall b: Cell ::
              (forall j :: 0 <= j < |c.codes| && Saves(c.codes[j].address) ==> b !in Cells(c.codes[j].address)) ==>
                m'[b] == n[b]
  {
    var k := |steps|;
    RunKeepsUndoable(c, m, steps, cs, ms, k);
    ElsewhereKeepsUndamaged(c, m, cs[k], ms[k], n);
    DisableRestores(c, m, cs[k], n, button);
  }

  /** The pass that finds the cheat disabled must be one at a vertical interrupt: the pass at boot,
      which a soft reset brings, forgets that the cheat was enabled and restores nothing. */
  lemma DisabledTickIff(c: Cheat, m: Memory, now: Cheat, n: Memory, entry: Entry, button: bool)
    requires Undamaged(c, m, now, n)
    ensures var (d, m') := Tick(now.(enabled := false), n, entry, button);
            Undone(m, d.codes, m') <==>
            entry == Vi || forall i :: 0 <= i < |now.codes| ==> now.codes[i].old_value == MAGIC
  {
    if entry == Vi {
      DisableRestores(c, m, now, n, button);
    } else {
      forall i | 0 <= i < |now.codes| && now.codes[i].old_value == MAGIC && Saves(now.codes[i].address)
        ensures SameAt(n, m, now.codes[i].address)
      {
        assert Undoable(m, now.codes[i], n);
      }
    }
  }

  /** After that no pass of either kind touches memory or the cheat while it stays disabled. */
  lemma ForgottenStays(d: Cheat, n: Memory, entry: Entry, button: bool)
    requires !d.enabled && !d.was_enabled
    ensures Tick(d, n, entry, button) == (d, n)
  {
  }

  /** One pass enabled, disable, a soft reset's pass, one more pass: the write is still there, and
      so is the old value. */
  lemma ResetLosesUndo(name: string, a: U32, v: U32, m: Memory)
    requires Kind(a) == 0x80 && m[Host8(a)] != v % 256
    ensures var (c1, m1) := Tick(Cheat(name, true, false, [Code(a, v, MAGIC)]), m, Vi, false);
            var (c2, m2) := Tick(c1.(enabled := false), m1, Boot, false);
            var (c3, m3) := Tick(c2, m2, Vi, false);
            m3 != m && c3.codes == [Code(a, v, m[Host8(a)])]
  {
    var c := Code(a, v, MAGIC);
    var c' := Code(a, v, m[Host8(a)]);
    var p := ViLoop([c], 0, false, m, false);
    assert p == ViLoop([c][0 := ViCode(m, c)], 1, false, ViMemory(m, c, false), false);
    assert p == Pass([c'], Write8(m, a, v));
    assert p.memory[Host8(a)] != m[Host8(a)];
  }

  // ----- several cheats at once ------------------------------------------------------------------

  /** No code of `d` writes a byte of a saving code of `c`. */
  ghost predicate Apart(c: Cheat, d: Cheat) {
    forall i, j :: 0 <= i < |c.codes| && 0 <= j < |d.codes| && Saves(c.codes[i].address) ==>
      Cells(c.codes[i].address) !! Cells(d.codes[j].address)
  }

  ghost predicate Spared(d: seq<Code>, b: Cell) { forall j :: 0 <= j < |d| ==> b !in Cells(d[j].address) }

  lemma {:induction false} ViSpares(codes: seq<Code>, i: nat, failed: bool, m: Memory, button: bool, b: Cell)
    requires i <= |codes| && Spared(codes, b)
    ensures ViLoop(codes, i, failed, m, button).memory[b] == m[b]
    decreases |codes| - i
  {
    if i < |codes| {
      var c := codes[i];
      if IsTest(c.address) {
        ViSpares(codes, i + 1, failed || !TestHolds(m, c, button), m, button, b);
      } else if failed {
        ViSpares(codes, i + 1, false, m, button, b);
      } else {
        OnlyCells(m, c.address, c.value, b);
        ViSpares(codes[i := ViCode(m, c)], i + 1, false, ViMemory(m, c, button), button, b);
      }
    }
  }

  lemma {:induction false} BootSpares(codes: seq<Code>, i: nat, m: Memory, b: Cell)
    requires i <= |codes| && Spared(codes, b)
    ensures BootLoop(codes, i, m).memory[b] == m[b]
    decreases |codes| - i
  {
    if i < |codes| {
      var c := codes[i];
      if IsBoot(c.address) {
        OnlyCells(m, c.address, c.value, b);
        BootSpares(codes[i := c.(old_value := Remembered(m, c.address, c.old_value))], i + 1,
                   Executed(m, c.address, c.value), b);
      } else {
        BootSpares(codes, i + 1, m, b);
      }
    }
  }

  /** A tick of one cheat leaves alone the bytes of every cheat it is apart from. */
  lemma TickHandsOff(c: Cheat, d: Cheat, m: Memory, entry: Entry, button: bool)
    requires Apart(c, d)
    ensures HandsOff(c.codes, m, Tick(d, m, entry, button).1)
  {
    var n := Tick(d, m, entry, button).1;
    forall i | 0 <= i < |c.codes| && Saves(c.codes[i].address) ensures SameAt(n, m, c.codes[i].address) {
      forall b: Cell | b in Cells(c.codes[i].address) ensures n[b] == m[b] {
        assert Spared(d.codes, b);
        if d.enabled && entry == Boot { BootSpares(d.codes, 0, m, b); }
        else if d.enabled { ViSpares(d.codes, 0, false, m, button, b); }
        else if d.was_enabled && entry == Vi { RestoreRest(d.codes, 0, m, b); }
      }
    }
  }

  lemma HandsOffChain(codes: seq<Code>, a: Memory, b: Memory, c: Memory)
    requires HandsOff(codes, a, b) && HandsOff(codes, b, c)
    ensures HandsOff(codes, a, c)
  {
    forall i | 0 <= i < |codes| && Saves(codes[i].address) ensures SameAt(c, a, codes[i].address) {
      assert SameAt(b, a, codes[i].address) && SameAt(c, b, codes[i].address);
    }
  }

  /** Up to its turn a cheat is untouched, and so are its bytes. */
  lemma {:induction false} BeforeTurn(cs: seq<Cheat>, n: nat, k: nat, m: Memory, entry: Entry, button: bool)
    requires n <= k < |cs| && forall j :: 0 <= j < |cs| && j != k ==> Apart(cs[k], cs[j])
    ensures var (ds, m') := TickAll(cs, n, m, entry, button);
            HandsOff(cs[k].codes, m, m') && forall j :: n <= j < |cs| ==> ds[j] == cs[j]
    decreases n
  {
    if n > 0 {
      BeforeTurn(cs, n - 1, k, m, entry, button);
      var (ds, m1) := TickAll(cs, n - 1, m, entry, button);
      TickHandsOff(cs[k], cs[n - 1], m1, entry, button);
      HandsOffChain(cs[k].codes, m, m1, Tick(ds[n - 1], m1, entry, button).1);
    }
  }

  lemma {:induction false} AfterTurn(cs: seq<Cheat>, n: nat, k: nat, m: Memory, entry: Entry, button: bool)
    requires k < n <= |cs| && forall j :: 0 <= j < |cs| && j != k ==> Apart(cs[k], cs[j])
    ensures var (ds, m') := TickAll(cs, n, m, entry, button);
            var (d, m1) := Tick(cs[k], TickAll(cs, k, m, entry, button).1, entry, button);
            && ds[k] == d && HandsOff(cs[k].codes, m1, m')
            && forall j :: n <= j < |cs| ==> ds[j] == cs[j]
    decreases n
  {
    if n == k + 1 {
      BeforeTurn(cs, k, k, m, entry, button);
    } else {
      AfterTurn(cs, n - 1, k, m, entry, button);
      var (ds, m2) := TickAll(cs, n - 1, m, entry, button);
      var m1 := Tick(cs[k], TickAll(cs, k, m, entry, button).1, entry, button).1;
      TickHandsOff(cs[k], cs[n - 1], m2, entry, button);
      HandsOffChain(cs[k].codes, m1, m2, Tick(ds[n - 1], m2, entry, button).1);
    }
  }

  /** For a cheat that is apart from the others, a pass over all cheats is one tick of its own
      among changes of memory elsewhere. So what is proved of a run of one cheat holds of it in
      any context. */
  lemma PassIsOneTick(cs: seq<Cheat>, k: nat, m: Memory, entry: Entry, button: bool)
    requires k < |cs| && forall j :: 0 <= j < |cs| && j != k ==> Apart(cs[k], cs[j])
    ensures var m0 := TickAll(cs, k, m, entry, button).1;
            var (d, m1) := Tick(cs[k], m0, entry, button);
            var (ds, m2) := TickAll(cs, |cs|, m, entry, button);
            HandsOff(cs[k].codes, m, m0) && ds[k] == d && HandsOff(cs[k].codes, m1, m2)
  {
    BeforeTurn(cs, k, k, m, entry, button);
    AfterTurn(cs, |cs|, k, m, entry, button);
  }

  /** One step of a list's life: between ticks other cheats may come, go and change, and memory
      may change; then comes a pass over the whole list. */
  datatype ListStep = ListStep(cheats: seq<Cheat>, memory: Memory, entry: Entry, button: bool)

  /** Every other cheat of the list is apart from cheat `j`. */
  ghost predicate Alone(cs: seq<Cheat>, j: nat) {
    j < |cs| && forall x :: 0 <= x < |cs| && x != j ==> Apart(cs[j], cs[x])
  }

  /** A run of the whole engine as cheat `j` sees it: at every pass its own state is what the pass
      before left, the others are apart from it, and its bytes were left alone in between. */
  ghost predicate ListRun(c: Cheat, j: nat, m: Memory, steps: seq<ListStep>, css: seq<seq<Cheat>>, ms: seq<Memory>) {
    && |css| == |ms| == |steps| + 1 && j < |css[0]| && css[0][j] == c && ms[0] == m && c.enabled
    && forall k :: 0 <= k < |steps| ==> ListStepOk(c, j, css[k], ms[k], steps[k], css[k + 1], ms[k + 1])
  }

  ghost predicate ListStepOk(c: Cheat, j: nat, cs: seq<Cheat>, m: Memory, s: ListStep, cs': seq<Cheat>, m': Memory) {
    && j < |cs| && Alone(s.cheats, j) && s.cheats[j] == cs[j]
    && HandsOff(c.codes, m, s.memory)
    && (cs', m') == TickAll(s.cheats, |s.cheats|, s.memory, s.entry, s.button)
  }

  lemma HandsOffAlike(a: seq<Code>, b: seq<Code>, m: Memory, n: Memory)
    requires Alike(a, b) && HandsOff(a, m, n)
    ensures HandsOff(b, m, n)
  {
    forall i | 0 <= i < |b| && Saves(b[i].address) ensures SameAt(n, m, b[i].address) {
      assert SameAt(n, m, a[i].address);
    }
  }

  /** A pass over the list keeps the cheat's original bytes recoverable. */
  lemma PassKeepsUndamaged(c: Cheat, m: Memory, cs: seq<Cheat>, j: nat, n: Memory, entry: Entry, button: bool)
    requires Alone(cs, j) && Undamaged(c, m, cs[j], n)
    ensures var (ds, n') := TickAll(cs, |cs|, n, entry, button); Undamaged(c, m, ds[j], n')
  {
    PassIsOneTick(cs, j, n, entry, button);
    var n0 := TickAll(cs, j, n, entry, button).1;
    var (d, n1) := Tick(cs[j], n0, entry, button);
    var n2 := TickAll(cs, |cs|, n, entry, button).1;
    HandsOffAlike(cs[j].codes, c.codes, n, n0);
    ElsewhereKeepsUndamaged(c, m, cs[j], n, n0);
    TickKeepsUndamaged(c, m, cs[j], n0, entry, button);
    HandsOffAlike(cs[j].codes, c.codes, n1, n2);
    ElsewhereKeepsUndamaged(c, m, d, n1, n2);
  }

  lemma {:induction false} ListRunKeepsUndoable(c: Cheat, j: nat, m: Memory, steps: seq<ListStep>,
                                                css: seq<seq<Cheat>>, ms: seq<Memory>, k: nat)
    requires ListRun(c, j, m, steps, css, ms) && k < |css| && Separate(c.codes)
    requires forall i :: 0 <= i < |c.codes| ==> c.codes[i].old_value == MAGIC
    ensures j < |css[k]| && Undamaged(c, m, css[k][j], ms[k])
    decreases k
  {
    if k > 0 {
      ListRunKeepsUndoable(c, j, m, steps, css, ms, k - 1);
      var s := steps[k - 1];
      assert ListStepOk(c, j, css[k - 1], ms[k - 1], s, css[k], ms[k]);
      ElsewhereKeepsUndamaged(c, m, css[k - 1][j], ms[k - 1], s.memory);
      PassKeepsUndamaged(c, m, s.cheats, j, s.memory, s.entry, s.button);
    }
  }

  /** Undo in the whole engine: whatever other cheats that are apart from it do meanwhile, a cheat
      that is disabled has its bytes back after the next vertical interrupt's pass over the list. */
  lemma UndoInList(c: Cheat, j: nat, m: Memory, steps: seq<ListStep>, css: seq<seq<Cheat>>, ms: seq<Memory>,
                   last: seq<Cheat>, n: Memory, button: bool)
    requires ListRun(c, j, m, steps, css, ms) && Separate(c.codes)
    requires forall i :: 0 <= i < |c.codes| ==> c.codes[i].old_value == MAGIC
    requires j < |css[|steps|]| && Alone(last, j) && last[j] == css[|steps|][j].(enabled := false)
    requires HandsOff(c.codes, ms[|steps|], n)
    ensures var (ds, m') := TickAll(last, |last|, n, Vi, button);
            Undone(m, ds[j].codes, m') && Alike(ds[j].codes, c.codes) && !ds[j].was_enabled
  {
    var now := css[|steps|][j];
    ListRunKeepsUndoable(c, j, m, steps, css, ms, |steps|);
    ElsewhereKeepsUndamaged(c, m, now, ms[|steps|], n);
    PassIsOneTick(last, j, n, Vi, button);
    var n0 := TickAll(last, j, n, Vi, button).1;
    var (d, n1) := Tick(last[j], n0, Vi, button);
    var n2 := TickAll(last, |last|, n, Vi, button).1;
    HandsOffAlike(last[j].codes, c.codes, n, n0);
    ElsewhereKeepsUndamaged(c, m, now, n, n0);
    DisableRestores(c, m, now, n0, button);
    HandsOffAlike(last[j].codes, d.codes, n1, n2);
    forall i | 0 <= i < |d.codes| && Saves(d.codes[i].address) ensures SameAt(n2, m, d.codes[i].address) {
      assert SameAt(n1, m, d.codes[i].address) && SameAt(n2, n1, d.codes[i].address);
    }
  }

  // ----- adding a cheat again -------------------------------------------------------------------

  /** A write code reads equal values exactly from memories that agree on its bytes. */
  lemma ReadSameIff(m: Memory, n: Memory, a: U32)
    requires Writes8(a) || Writes16(a)
    ensures ReadAt(m, a) == ReadAt(n, a) <==> SameAt(m, n, a)
  {
    if SameAt(m, n, a) { ReadSame(m, n, a); }
    if ReadAt(m, a) == ReadAt(n, a) && Writes16(a) {
      var p, q: int := m[Host16(a)], m[Host16(a) + 1];
      var r, s: int := n[Host16(a)], n[Host16(a) + 1];
      assert p + 256 * q == r + 256 * s;
    }
  }

  /** What can be seen before a running cheat is added again: every saving code that remembers a
      value finds just that value in memory. */
  ghost predicate NothingToLose(now: Cheat, m: Memory) {
    forall i :: 0 <= i < |now.codes| && Saves(now.codes[i].address) && now.codes[i].old_value != MAGIC ==>
      ReadAt(m, now.codes[i].address) == now.codes[i].old_value
  }

  /** That is, exactly, that the cheat's bytes are the original ones at this moment. */
  lemma NothingToLoseIff(c: Cheat, original: Memory, now: Cheat, m: Memory)
    requires Undamaged(c, original, now, m)
    ensures NothingToLose(now, m) <==>
            forall i :: 0 <= i < |now.codes| && Saves(now.codes[i].address) ==>
              SameAt(m, original, now.codes[i].address)
  {
    forall i | 0 <= i < |now.codes| && Saves(now.codes[i].address)
      ensures SameAt(m, original, now.codes[i].address) <==>
              (now.codes[i].old_value != MAGIC ==> ReadAt(m, now.codes[i].address) == now.codes[i].old_value)
    {
      assert Undoable(original, now.codes[i], m);
      ReadSameIff(m, original, now.codes[i].address);
    }
  }

  lemma SeparateAlike(a: seq<Code>, b: seq<Code>)
    requires Alike(a, b) && Separate(a)
    ensures Separate(b)
  {
    forall i, j | 0 <= i < |b| && 0 <= j < |b| && i != j && Saves(b[i].address)
      ensures Cells(b[i].address) !! Cells(b[j].address)
    {
      assert Cells(a[i].address) !! Cells(a[j].address);
    }
  }

  /** Two lives of one cheat. It has run from `original` and stands as `now` at memory `m`; the
      same codes are added under its name again, which drops what it remembers; the new cheat
      runs, is disabled, and a vertical interrupt passes. The original bytes are back if and only
      if there was nothing to lose when it was added again. */
  lemma ReAddUndoesIff(c: Cheat, original: Memory, now: Cheat, m: Memory, list: seq<Cheat>, lines: seq<Line>,
                       steps: seq<Step>, cs: seq<Cheat>, ms: seq<Memory>, n: Memory, button: bool)
    requires Undamaged(c, original, now, m)
    requires FindCheat(list, now.name) < |list| && list[FindCheat(list, now.name)] == now
    requires Alike(Expand(lines), now.codes)
    requires EnabledRun(AddNew(list, now.name, lines)[FindCheat(list, now.name)], m, steps, cs, ms)
    requires HandsOff(now.codes, ms[|steps|], n)
    ensures var (d, m') := Tick(cs[|steps|].(enabled := false), n, Vi, button);
            Undone(original, d.codes, m') <==> NothingToLose(now, m)
  {
    var again := AddNew(list, now.name, lines)[FindCheat(list, now.name)];
    assert again == Cheat(now.name, true, false, Expand(lines));
    ExpandRemembersNothing(lines);
    SeparateAlike(now.codes, again.codes);
    HandsOffAlike(now.codes, again.codes, ms[|steps|], n);
    UndoRestores(again, m, steps, cs, ms, n, button);
    NothingToLoseIff(c, original, now, m);
    var (d, m') := Tick(cs[|steps|].(enabled := false), n, Vi, button);
    UndoneElsewhere(original, m, now.codes, d.codes, m');
  }

  /** What is undone to `m` is undone to `original` exactly if the two agree on the codes' bytes. */
  lemma UndoneElsewhere(original: Memory, m: Memory, codes: seq<Code>, after: seq<Code>, m': Memory)
    requires Undone(m, after, m') && Alike(after, codes)
    ensures Undone(original, after, m') <==>
            forall i :: 0 <= i < |codes| && Saves(codes[i].address) ==> SameAt(m, original, codes[i].address)
  {
    forall i | 0 <= i < |codes| && Saves(codes[i].address)
      ensures SameAt(m', original, codes[i].address) <==> SameAt(m, original, codes[i].address)
    {
      assert SameAt(m', m, after[i].address);
    }
    if Undone(original, after, m') {
      forall i | 0 <= i < |codes| && Saves(codes[i].address) ensures SameAt(m, original, codes[i].address) {
        assert Saves(after[i].address) && SameAt(m', original, after[i].address);
      }
    }
  }

  lemma {:induction false} ExpandRemembersNothing(lines: seq<Line>)
    ensures forall i :: 0 <= i < |Expand(lines)| ==> Expand(lines)[i].old_value == MAGIC
    decreases |lines|
  {
    if lines != [] {
      if IsPatch(lines[0].address) && |lines| > 1 { ExpandRemembersNothing(lines[2..]); }
      else { ExpandRemembersNothing(lines[1..]); }
    }
  }

  /** A cheat that has written, is added again and is then disabled leaves its write behind. */
  lemma ReAddLosesOriginal(name: string, a: U32, v: U32, m: Memory)
    requires Kind(a) == 0x80 && m[Host8(a)] != v % 256
    ensures var (c1, m1) := Tick(Cheat(name, true, false, [Code(a, v, MAGIC)]), m, Vi, false);
            var again := AddNew([c1], name, [Line(a, v)])[0];
            Tick(again.(enabled := false), m1, Vi, false).1 == m1 && m1 != m
  {
    var c := Code(a, v, MAGIC);
    var p := ViLoop([c], 0, false, m, false);
    assert ViLoop([c], 0, false, m, false) == ViLoop([c][0 := ViCode(m, c)], 1, false, ViMemory(m, c, false), false);
    assert p.memory == Write8(m, a, v);
    assert p.memory[Host8(a)] != m[Host8(a)];
  }

  // ----- undo holds exactly for separate codes ----------------------------------------------

  predicate PlainWrite(a: U32) { Kind(a) in {0x80, 0x81, 0xA0, 0xA1} }

  /** Plain writes only, with nothing remembered yet. */
  predicate PlainList(codes: seq<Code>) {
    forall i :: 0 <= i < |codes| ==> PlainWrite(codes[i].address) && codes[i].old_value == MAGIC
  }

  /** One interrupt with the cheat enabled, one with it disabled again. */
  function Cycle(codes: seq<Code>, m: Memory): Memory {
    var p := ViLoop(codes, 0, false, m, false);
    RestoreLoop(p.codes, 0, p.memory).memory
  }

  /** Memory when the pass reaches code `k`. */
  function Before(codes: seq<Code>, k: nat, m: Memory): Memory
    requires k <= |codes|
  {
    if k == 0 then m else Executed(Before(codes, k - 1, m), codes[k - 1].address, codes[k - 1].value)
  }

  /** The codes after a pass: each remembers what was there when its turn came. */
  function Remembering(codes: seq<Code>, m: Memory, n: nat): (r: seq<Code>)
    requires n <= |codes|
    ensures |r| == |codes|
  {
    seq(|codes|, k requires 0 <= k < |codes| =>
      if k < n then codes[k].(old_value := ReadAt(Before(codes, k, m), codes[k].address)) else codes[k])
  }

  lemma PlainStep(codes: seq<Code>, i: nat, m: Memory)
    requires i < |codes| && PlainWrite(codes[i].address)
    ensures var c := codes[i];
            ViLoop(codes, i, false, m, false) ==
            ViLoop(codes[i := c.(old_value := Remembered(m, c.address, c.old_value))], i + 1, false,
                   Executed(m, c.address, c.value), false)
  {
  }

  lemma RememberingStep(codes: seq<Code>, m: Memory, n: nat)
    requires PlainList(codes) && n < |codes|
    ensures Remembering(codes, m, n)[n] == codes[n]
    ensures Remembering(codes, m, n + 1) ==
            Remembering(codes, m, n)[n := codes[n].(old_value := ReadAt(Before(codes, n, m), codes[n].address))]
  {
  }

  /** A quantity that no step changes is the same at the end. */
  lemma {:induction false} Steady<T>(f: nat -> T, n: nat, end: nat)
    requires n <= end && forall k: nat :: n <= k < end ==> f(k) == f(k + 1)
    ensures f(n) == f(end)
    decreases end - n
  {
    if n < end { Steady(f, n + 1, end); }
  }

  /** What the pass will come to, from code `n` on. */
  function Ahead(codes: seq<Code>, m: Memory, n: nat): Pass {
    if n <= |codes| then ViLoop(Remembering(codes, m, n), n, false, Before(codes, n, m), false) else Pass(codes, m)
  }

  lemma PlainPass(codes: seq<Code>, m: Memory)
    requires PlainList(codes)
    ensures ViLoop(codes, 0, false, m, false) == Pass(Remembering(codes, m, |codes|), Before(codes, |codes|, m))
  {
    var end := |codes|;
    var f := (n: nat) => Ahead(codes, m, n);
    forall k: nat | k < end ensures f(k) == f(k + 1) { PlainPassStep(codes, m, k); }
    Steady(f, 0, end);
    assert f(end) == Pass(Remembering(codes, m, end), Before(codes, end, m));
    assert f(0) == ViLoop(codes, 0, false, m, false) by { assert Remembering(codes, m, 0) == codes; }
  }

  lemma PlainPassStep(codes: seq<Code>, m: Memory, n: nat)
    requires PlainList(codes) && n < |codes|
    ensures ViLoop(Remembering(codes, m, n), n, false, Before(codes, n, m), false) ==
            ViLoop(Remembering(codes, m, n + 1), n + 1, false, Before(codes, n + 1, m), false)
  {
    var r, b, c := Remembering(codes, m, n), Before(codes, n, m), codes[n];
    RememberingStep(codes, m, n);
    assert Remembered(b, c.address, c.old_value) == ReadAt(b, c.address);
    PlainStep(r, n, b);
  }

  /** The byte that executing a write code leaves in one of its cells. */
  function ByteOf(a: U32, v: U32, b: Cell): Byte {
    if Writes16(a) && b == Host16(a) + 1 then v / 256 % 256 else v % 256
  }

  lemma ExecutedByte(m: Memory, a: U32, v: U32, b: Cell)
    requires PlainWrite(a) && b in Cells(a)
    ensures Executed(m, a, v)[b] == ByteOf(a, v, b)
  {
  }

  lemma ReadByte(m: Memory, a: U32, b: Cell)
    requires PlainWrite(a) && b in Cells(a)
    ensures ByteOf(a, ReadAt(m, a), b) == m[b]
  {
    WriteBack(m, m, a);
    ExecutedByte(m, a, ReadAt(m, a), b);
  }

  /** The last code before position `n` that writes byte `b`. */
  ghost predicate LastWriter(codes: seq<Code>, n: nat, b: Cell, k: nat) {
    k < n <= |codes| && b in Cells(codes[k].address) && forall j :: k < j < n ==> b !in Cells(codes[j].address)
  }

  lemma {:induction false} HasLastWriter(codes: seq<Code>, n: nat, b: Cell, i: nat) returns (k: nat)
    requires i < n <= |codes| && b in Cells(codes[i].address)
    ensures LastWriter(codes, n, b, k) && i <= k
  {
    if b in Cells(codes[n - 1].address) { k := n - 1; } else { k := HasLastWriter(codes, n - 1, b, i); }
  }

  /** A byte holds what the last writer before that point put there. */
  lemma {:induction false} BeforeByte(codes: seq<Code>, n: nat, m: Memory, b: Cell, k: nat)
    requires PlainList(codes) && LastWriter(codes, n, b, k)
    ensures Before(codes, n, m)[b] == ByteOf(codes[k].address, codes[k].value, b)
    decreases n
  {
    if k == n - 1 {
      ExecutedByte(Before(codes, k, m), codes[k].address, codes[k].value, b);
    } else {
      BeforeByte(codes, n - 1, m, b, k);
      OnlyCells(Before(codes, n - 1, m), codes[n - 1].address, codes[n - 1].value, b);
    }
  }

  lemma {:induction false} BeforeUntouched(codes: seq<Code>, n: nat, m: Memory, b: Cell)
    requires n <= |codes| && forall j :: 0 <= j < n ==> b !in Cells(codes[j].address)
    ensures Before(codes, n, m)[b] == m[b]
  {
    if n > 0 {
      BeforeUntouched(codes, n - 1, m, b);
      OnlyCells(Before(codes, n - 1, m), codes[n - 1].address, codes[n - 1].value, b);
    }
  }

  /** The restoring pass leaves in a byte what its last writer remembered. */
  lemma {:induction false} RestoreByte(r: seq<Code>, i: nat, m: Memory, b: Cell, k: nat)
    requires i <= |r| && LastWriter(r, |r|, b, k)
    requires forall j :: i <= j < |r| ==> PlainWrite(r[j].address) && r[j].old_value != MAGIC
    requires k < i ==> m[b] == ByteOf(r[k].address, r[k].old_value, b)
    ensures RestoreLoop(r, i, m).memory[b] == ByteOf(r[k].address, r[k].old_value, b)
    decreases |r| - i
  {
    if i < |r| {
      var c := r[i];
      var r', m' := r[i := c.(old_value := MAGIC)], Executed(m, c.address, c.old_value);
      if i == k { ExecutedByte(m, c.address, c.old_value, b); }
      if i > k { OnlyCells(m, c.address, c.old_value, b); }
      if i < k {
        RestoreByte(r', i + 1, m', b, k);
      } else {
        RestoreRest(r', i + 1, m', b);
      }
    }
  }

  lemma {:induction false} RestoreRest(r: seq<Code>, i: nat, m: Memory, b: Cell)
    requires i <= |r| && forall j :: i <= j < |r| ==> b !in Cells(r[j].address)
    ensures RestoreLoop(r, i, m).memory[b] == m[b]
    decreases |r| - i
  {
    if i < |r| {
      var c := r[i];
      if c.old_value != MAGIC {
        OnlyCells(m, c.address, c.old_value, b);
        RestoreRest(r[i := c.(old_value := MAGIC)], i + 1, Executed(m, c.address, c.old_value), b);
      } else {
        RestoreRest(r, i + 1, m, b);
      }
    }
  }

  /** Where two codes write a byte, switching the cheat on and off leaves there what the last
      writer found: the value of the writer before it. */
  lemma CycleByte(codes: seq<Code>, m: Memory, b: Cell, k: nat)
    requires PlainList(codes) && LastWriter(codes, |codes|, b, k)
    ensures Cycle(codes, m)[b] == Before(codes, k, m)[b]
  {
    var n := |codes|;
    PlainPass(codes, m);
    var r := Remembering(codes, m, n);
    forall j | 0 <= j < n ensures PlainWrite(r[j].address) && r[j].old_value != MAGIC {
      NeverMagic(Before(codes, j, m), codes[j].address);
    }
    assert LastWriter(r, n, b, k);
    RestoreByte(r, 0, Before(codes, n, m), b, k);
    ReadByte(Before(codes, k, m), codes[k].address, b);
  }

  lemma CycleElsewhere(codes: seq<Code>, m: Memory, b: Cell)
    requires PlainList(codes) && forall j :: 0 <= j < |codes| ==> b !in Cells(codes[j].address)
    ensures Cycle(codes, m)[b] == m[b]
  {
    var n := |codes|;
    PlainPass(codes, m);
    BeforeUntouched(codes, n, m, b);
    RestoreRest(Remembering(codes, m, n), 0, Before(codes, n, m), b);
  }

  /** If two codes write byte `b`, some memory is not restored. */
  lemma OverlapSpoils(codes: seq<Code>, i: nat, j: nat, b: Cell) returns (m: Memory)
    requires PlainList(codes) && i < j < |codes| && b in Cells(codes[i].address) && b in Cells(codes[j].address)
    ensures Cycle(codes, m) != m
  {
    var k := HasLastWriter(codes, |codes|, b, j);
    var p := HasLastWriter(codes, k, b, i);
    var found := ByteOf(codes[p].address, codes[p].value, b);
    var other: Byte := (found as int + 1) % 256;
    m := seq(0x100_0001, x => other);
    CycleByte(codes, m, b, k);
    BeforeByte(codes, k, m, b, p);
    assert Cycle(codes, m)[b] != m[b];
  }

  /** Switching a cheat of plain writes on and off restores every memory exactly if no two of
      its codes write the same byte. */
  lemma CycleRestoresIff(codes: seq<Code>)
    requires PlainList(codes)
    ensures (forall m: Memory :: Cycle(codes, m) == m) <==> Separate(codes)
  {
    if Separate(codes) {
      forall m: Memory ensures Cycle(codes, m) == m { SeparateCycle(codes, m); }
    }
    if forall m: Memory :: Cycle(codes, m) == m {
      forall i, j | 0 <= i < |codes| && 0 <= j < |codes| && i != j
        ensures Cells(codes[i].address) !! Cells(codes[j].address)
      {
        if b :| b in Cells(codes[i].address) && b in Cells(codes[j].address) {
          var m := OverlapSpoils(codes, if i < j then i else j, if i < j then j else i, b);
        }
      }
    }
  }

  lemma SeparateCycle(codes: seq<Code>, m: Memory)
    requires PlainList(codes) && Separate(codes)
    ensures Cycle(codes, m) == m
  {
    var r := Cycle(codes, m);
    forall b: Cell ensures r[b] == m[b] {
      if i :| 0 <= i < |codes| && b in Cells(codes[i].address) {
        var k := HasLastWriter(codes, |codes|, b, i);
        assert forall j :: 0 <= j < |codes| && j != k ==> b !in Cells(codes[j].address);
        CycleByte(codes, m, b, k);
        BeforeUntouched(codes, k, m, b);
      } else {
        CycleElsewhere(codes, m, b);
      }
    }
  }
}
