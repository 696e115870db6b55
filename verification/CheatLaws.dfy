/** What single cheat codes mean for the bytes of memory: which bytes a code writes, which bytes
    a test looks at and what it asks of them, and how that reads at emulated addresses. */
module CheatLaws {
  import opened Common
  import opened Cheats

  // ----- emulated addresses ----------------------------------------------------------------

  /** Different emulated addresses are different bytes of the host. */
  lemma Host8Injective(a: U32, b: U32)
    ensures Host8(a) == Host8(b) <==> Low24(a) == Low24(b)
  {
    HostParts(a, Low24(a) / 4, Low24(a) % 4);
    HostParts(b, Low24(b) / 4, Low24(b) % 4);
  }

  lemma EvenNext(a: U32)
    requires a % 2 == 0
    ensures Low24(a) % 2 == 0 && Low24(a + 1) == Low24(a) + 1
  {
    var q, x, h := a / 0x100_0000, a % 0x100_0000, a / 2;
    EvenParts(x, h - 0x80_0000 * q);
    Rest24(a + 1, q, x + 1);
  }

  lemma EvenParts(x: nat, h: int)
    requires x == 2 * h
    ensures x % 2 == 0
  {
  }

  lemma Rest24(a: nat, q: nat, d: nat)
    requires a == 0x100_0000 * q + d && d < 0x100_0000
    ensures a % 0x100_0000 == d
  {
  }

  lemma EvenRest(x: nat, q: nat, r: nat)
    requires x == 4 * q + r && r < 4 && x % 2 == 0
    ensures r == 0 || r == 2
  {
    var h := x / 2;
    assert r == 2 * (h - 2 * q);
  }

  lemma HostParts(a: U32, q: nat, r: nat)
    requires Low24(a) == 4 * q + r && r < 4
    ensures Host8(a) == 4 * q + 3 - r && Host16(a) == 4 * q + (r + 2) % 4
  {
    assert (4 * q + r) % 4 == r;
  }

  /** At an even address the two bytes of a 16-bit access are those at that address and the next,
      the high one first. */
  lemma Host16Bytes(a: U32)
    requires a % 2 == 0
    ensures Host8(a) == Host16(a) + 1 && Host8(a + 1) == Host16(a)
  {
    EvenNext(a);
    var q, r := Low24(a) / 4, Low24(a) % 4;
    EvenRest(Low24(a), q, r);
    HostParts(a, q, r);
    HostParts(a + 1, q, r + 1);
  }

  lemma Read16Bytes(m: Memory, a: U32)
    requires a % 2 == 0
    ensures Read16(m, a) == 256 * Read8(m, a) + Read8(m, a + 1)
  {
    Host16Bytes(a);
  }

  lemma Half(x: Byte, y: Byte, v: U32)
    ensures x + 256 * y == v % 0x1_0000 <==> x == v % 256 && y == v / 256 % 256
  {
    var l, h := v % 256, v / 256;
    var q, k := h / 256, h % 256;
    Rest16(v, q, 256 * k + l);
    SameParts(x, y, l, k);
  }

  lemma Rest16(v: nat, q: nat, d: nat)
    requires v == 0x1_0000 * q + d && d < 0x1_0000
    ensures v % 0x1_0000 == d
  {
  }

  lemma SameParts(x: Byte, y: Byte, l: Byte, k: Byte)
    ensures x + 256 * y == l + 256 * k <==> x == l && y == k
  {
  }

  // ----- what a code writes ----------------------------------------------------------------

  /** Exactly the bytes of the code have changed, and to its value. */
  ghost predicate Wrote(m: Memory, m': Memory, a: U32, v: U32) {
    if Kind(a) in {0x80, 0x88, 0xA0, 0xA8, 0xF0} then
      m'[Host8(a)] == v % 256 && forall c: Cell :: c != Host8(a) ==> m'[c] == m[c]
    else if Kind(a) in {0x81, 0x89, 0xA1, 0xA9, 0xF1} then
      && m'[Host16(a)] == v % 256 && m'[Host16(a) + 1] == v / 256 % 256
      && forall c: Cell :: c != Host16(a) && c != Host16(a) + 1 ==> m'[c] == m[c]
    else m' == m
  }

  lemma ExecutedWrote(m: Memory, a: U32, v: U32)
    requires Kind(a) != 0xEE
    ensures Wrote(m, Executed(m, a, v), a, v)
  {
  }

  /** In emulated memory: an 8-bit code sets one byte. */
  lemma Write8Reads(m: Memory, a: U32, v: U32, b: U32)
    requires Kind(a) in {0x80, 0x88, 0xA0, 0xA8, 0xF0}
    ensures Read8(Executed(m, a, v), b) == if Low24(b) == Low24(a) then v % 256 else Read8(m, b)
  {
    Host8Injective(a, b);
  }

  /** A 16-bit code at an even address sets that byte and the next to the big-endian value. */
  lemma Write16Reads(m: Memory, a: U32, v: U32, b: U32)
    requires Kind(a) in {0x81, 0x89, 0xA1, 0xA9, 0xF1} && a % 2 == 0
    ensures Read16(Executed(m, a, v), a) == v % 0x1_0000
    ensures Read8(Executed(m, a, v), b) ==
            if Low24(b) == Low24(a) then v / 256 % 256 else if Low24(b) == Low24(a) + 1 then v % 256 else Read8(m, b)
  {
    var m' := Executed(m, a, v);
    ExecutedWrote(m, a, v);
    Half(m'[Host16(a)], m'[Host16(a) + 1], v);
    Host16Bytes(a);
    Host8Injective(a, b);
    Host8Injective(a + 1, b);
    EvenNext(a);
  }

  /** Code EE sets the word at 0x318, the size of memory, to 4 MiB. */
  lemma MemorySizeReads(m: Memory, a: U32, v: U32, b: U32)
    requires Kind(a) == 0xEE
    ensures Read8(Executed(m, a, v), b) ==
            if Low24(b) == 0x319 then 0x40 else if Low24(b) in {0x318, 0x31A, 0x31B} then 0 else Read8(m, b)
  {
    var m1 := Executed(m, 0xF100_0318, 0x0040);
    Write16Reads(m, 0xF100_0318, 0x0040, b);
    Write16Reads(m1, 0xF100_031A, 0x0000, b);
    assert Executed(m, a, v) == Executed(m1, 0xF100_031A, 0x0000);
  }

  /** What is remembered is the value that writing it back restores. */
  lemma RememberedRestores(m: Memory, a: U32, v: U32)
    requires Kind(a) in {0x80, 0x88, 0xA0, 0xA8, 0xF0, 0x81, 0x89, 0xA1, 0xA9, 0xF1}
    ensures Executed(Executed(m, a, v), a, Remembered(m, a, MAGIC)) == m
  {
    if Writes16(a) {
      var w := Read16(m, a);
      Half(m[Host16(a)], m[Host16(a) + 1], w);
      WriteBack16(m, a, v, w);
    }
  }

  lemma WriteBack16(m: Memory, a: U32, v: U32, w: U32)
    requires m[Host16(a)] == w % 256 && m[Host16(a) + 1] == w / 256 % 256
    ensures Write16(Write16(m, a, v), a, w) == m
  {
  }

  // ----- what a test asks --------------------------------------------------------------------

  /** A test by its kind, from the bytes of memory. Kinds D8 to DB also need the button. */
  ghost predicate Asks(m: Memory, a: U32, v: U32, button: bool)
    requires 0xD000_0000 <= a < 0xE000_0000
  {
    var low := v % 256;
    var high := v / 256 % 256;
    match Kind(a)
    case 0xD0 => m[Host8(a)] == low
    case 0xD1 => m[Host16(a)] == low && m[Host16(a) + 1] == high
    case 0xD2 => m[Host8(a)] != low
    case 0xD3 => m[Host16(a)] != low || m[Host16(a) + 1] != high
    case 0xD8 => button && m[Host8(a)] == low
    case 0xD9 => button && m[Host16(a)] == low && m[Host16(a) + 1] == high
    case 0xDA => button && (m[Host16(a)] != low || m[Host16(a) + 1] != high)
    case 0xDB => button && m[Host8(a)] != low
    case _ => true
  }

  lemma TestAsks(m: Memory, c: Code, button: bool)
    requires 0xD000_0000 <= c.address < 0xE000_0000
    ensures IsTest(c.address) && (TestHolds(m, c, button) <==> Asks(m, c.address, c.value, button))
  {
    Half(m[Host16(c.address)], m[Host16(c.address) + 1], c.value);
  }

  /** A test before a write, at a vertical interrupt: the write is made if the test holds of the
      bytes, for button codes only with the button held, and else nothing changes. */
  lemma GuardedWrite(m: Memory, t: Code, w: Code, button: bool)
    requires 0xD000_0000 <= t.address < 0xE000_0000
    requires Kind(w.address) in {0x80, 0x81, 0x88, 0x89, 0xA0, 0xA1, 0xA8, 0xA9}
    ensures var p := ViLoop([t, w], 0, false, m, button);
            if Asks(m, t.address, t.value, button) && (Kind(w.address) in {0x88, 0x89, 0xA8, 0xA9} ==> button)
            then Wrote(m, p.memory, w.address, w.value)
            else p == Pass([t, w], m)
  {
    var codes, failed := [t, w], !TestHolds(m, t, button);
    TestAsks(m, t, button);
    ExecutedWrote(m, w.address, w.value);
    ViLoopEnds(codes, failed, m, button);
    if failed || ButtonWrite(w.address) { assert codes[1 := w] == codes; }
  }

  /** The loop over a test and one more code. */
  lemma ViLoopEnds(codes: seq<Code>, failed: bool, m: Memory, button: bool)
    requires |codes| == 2 && IsTest(codes[0].address) && !IsTest(codes[1].address)
    requires failed == !TestHolds(m, codes[0], button)
    ensures ViLoop(codes, 0, false, m, button) ==
            if failed then Pass(codes, m)
            else Pass(codes[1 := ViCode(m, codes[1])], ViMemory(m, codes[1], button))
  {
    assert ViLoop(codes, 0, false, m, button) == ViLoop(codes, 1, failed, m, button);
  }

  /** A boot code writes at boot, and at no vertical interrupt. */
  lemma BootWrite(m: Memory, w: Code, button: bool)
    requires Kind(w.address) in {0xF0, 0xF1}
    ensures Wrote(m, BootLoop([w], 0, m).memory, w.address, w.value)
    ensures ViLoop([w], 0, false, m, button) == Pass([w], m)
  {
    ExecutedWrote(m, w.address, w.value);
    assert [w][0 := w] == [w];
  }

  // ----- what a list of lines stands for -------------------------------------------------------

  /** The line 5000ccss iiii asks for cc codes, ss apart in address and iiii apart in value. */
  lemma PatchMeans(count: Byte, step: Byte, increment: U32, base: Line, rest: seq<Line>)
    ensures Expand([Line(0x5000_0000 + 256 * count + step, increment), base] + rest) ==
            seq(count, k requires 0 <= k => Code((base.address + k * step) % 0x1_0000_0000,
                                                 (base.value + k * increment) % 0x1_0000_0000, 0xDEAD_0000))
            + Expand(rest)
  {
    var a: U32 := 0x5000_0000 + 256 * count + step;
    var lines := [Line(a, increment), base] + rest;
    PatchParts(a, count, step);
    assert lines[2..] == rest;
    assert seq(count, k requires 0 <= k => AsCode(PatchLine(lines[0], lines[1], k))) ==
           seq(count, k requires 0 <= k => Code((base.address + k * step) % 0x1_0000_0000,
                                                (base.value + k * increment) % 0x1_0000_0000, 0xDEAD_0000));
  }

  lemma PatchParts(a: U32, count: Byte, step: Byte)
    requires a == 0x5000_0000 + 256 * count + step
    ensures IsPatch(a) && PatchCount(a) == count && PatchStep(a) == step
  {
    assert a / 256 == 0x50_0000 + count;
  }

  /** Any other line, and a patch line with nothing after it, stands for itself. */
  lemma PlainMeans(l: Line, rest: seq<Line>)
    requires !(0x5000_0000 <= l.address < 0x5001_0000) || rest == []
    ensures Expand([l] + rest) == [Code(l.address, l.value, 0xDEAD_0000)] + Expand(rest)
  {
    assert ([l] + rest)[1..] == rest;
  }
}
