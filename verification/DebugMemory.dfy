/** The debugger's memory access of src/debugger/dbg_memory.c and src/api/debugger.c: reads and
    writes of 8 to 64 bits at any address, all made of masked accesses to aligned words.

    Every shift there is by whole bytes and every mask covers whole bytes, so a word is modelled
    as its four byte lanes, most significant first, and a mask as a set of lanes. */
module DebugMemory {
  import opened Common

  type Lane = n: nat | n < 4
  type Word = w: seq<Byte> | |w| == 4 witness [0, 0, 0, 0]

  const SPACE: nat := 0x1_0000_0000

  /** Words of physical memory, and the TLB's two tables from virtual to physical 4 KiB pages:
      LUT_r for reads, LUT_w for writes. A page may be in one table, both or neither, and
      several virtual pages may lead to one physical page. */
  datatype Machine = Machine(lut_r: map<nat, nat>, lut_w: map<nat, nat>, words: map<nat, Word>)

  /** 512 MiB of physical addresses, in words. */
  const PHYSICAL: nat := 0x800_0000

  ghost predicate Sound(m: Machine) { forall p :: 0 <= p < PHYSICAL ==> p in m.words }

  /** Same translation. */
  ghost predicate SameTables(m: Machine, r: Machine) { r.lut_r == m.lut_r && r.lut_w == m.lut_w }

  /** Addition of uint32_t. */
  function Plus(a: U32, k: nat): U32
    requires k < 8
  {
    if a + k < SPACE then a + k else a + k - SPACE
  }

  function Index(a: U32): nat { a / 4 }
  function LaneOf(a: U32): Lane { a % 4 }

  /** virtual_to_physical_address and the mask 0x1ffffffc, for the word with index `i`: the
      segments KSEG0 and KSEG1 are not translated, other pages are looked up. */
  function Translate(lut: map<nat, nat>, i: nat): (r: Option<nat>)
    ensures r.Some? ==> r.value < PHYSICAL && r.value % 1024 == i % 1024
  {
    if 0x2000_0000 <= i < 0x3000_0000 then
      Wrapped(i / 1024, i % 1024);
      Some(i % PHYSICAL)
    else if i / 1024 in lut then
      Wrapped(lut[i / 1024], i % 1024);
      Some((lut[i / 1024] * 1024 + i % 1024) % PHYSICAL)
    else None
  }

  /** The mask keeps the offset within the page. */
  lemma Wrapped(page: nat, offset: nat)
    requires offset < 1024
    ensures (page * 1024 + offset) % PHYSICAL % 1024 == offset
  {
    var x := page * 1024 + offset;
    assert x % PHYSICAL == x - (x / PHYSICAL) * PHYSICAL == (page - (x / PHYSICAL) * 0x2_0000) * 1024 + offset;
  }

  function ReadPlace(m: Machine, a: U32): Option<nat> { Translate(m.lut_r, Index(a)) }
  function WritePlace(m: Machine, a: U32): Option<nat> { Translate(m.lut_w, Index(a)) }

  /** M64P_MEM_INVALID */
  const INVALID: Word := [0xFF, 0xFF, 0xFF, 0xFF]

  /** read_memory_32 */
  function Read32(m: Machine, a: U32): Word
    requires Sound(m)
  {
    var t := ReadPlace(m, a);
    if t.Some? then m.words[t.value] else INVALID
  }

  function Blend(w: Word, v: Word, mask: set<Lane>): Word {
    seq(4, k requires 0 <= k < 4 => if k in mask then v[k] else w[k])
  }

  /** r4300_write_aligned_word */
  function WriteMasked(m: Machine, a: U32, v: Word, mask: set<Lane>): (r: Machine)
    requires Sound(m)
    ensures Sound(r) && SameTables(m, r)
  {
    var t := WritePlace(m, a);
    if t.Some? then m.(words := m.words[t.value := Blend(m.words[t.value], v, mask)]) else m
  }

  function Read8(m: Machine, a: U32): Byte
    requires Sound(m)
  {
    Read32(m, a - a % 4)[LaneOf(a)]
  }

  /** The byte moved to its lane, and the mask of that lane. */
  function Write8(m: Machine, a: U32, v: Byte): (r: Machine)
    requires Sound(m)
    ensures Sound(r) && SameTables(m, r)
  {
    WriteMasked(m, a, seq(4, k => if k == LaneOf(a) then v else 0), {LaneOf(a)})
  }

  /** A write at `a` goes to the byte that a read at `b` comes from. */
  predicate Reaches(m: Machine, a: U32, b: U32) {
    WritePlace(m, a).Some? && WritePlace(m, a) == ReadPlace(m, b) && LaneOf(a) == LaneOf(b)
  }

  /** Reads and writes at `a` go to one place. */
  predicate Mapped(m: Machine, a: U32) { Reaches(m, a, a) }

  lemma Align(a: U32)
    ensures Index(a - a % 4) == Index(a)
  {
  }

  /** Writing a byte changes that byte, under all its addresses, and no other. */
  lemma Write8Effect(m: Machine, a: U32, v: Byte, b: U32)
    requires Sound(m)
    ensures Read8(Write8(m, a, v), b) == if Reaches(m, a, b) then v else Read8(m, b)
  {
    Align(b);
  }

  // ----- wider accesses --------------------------------------------------------------------

  function Read16(m: Machine, a: U32): seq<Byte>
    requires Sound(m)
  {
    [Read8(m, a), Read8(m, Plus(a, 1))]
  }

  function Write16(m: Machine, a: U32, v: seq<Byte>): (r: Machine)
    requires Sound(m) && |v| == 2
    ensures Sound(r) && SameTables(m, r)
  {
    Write8(Write8(m, a, v[0]), Plus(a, 1), v[1])
  }

  /** read_memory_32_unaligned */
  function Read32U(m: Machine, a: U32): Word
    requires Sound(m)
  {
    [Read8(m, a), Read8(m, Plus(a, 1)), Read8(m, Plus(a, 2)), Read8(m, Plus(a, 3))]
  }

  /** write_memory_32_unaligned */
  function Write32U(m: Machine, a: U32, v: Word): (r: Machine)
    requires Sound(m)
    ensures Sound(r) && SameTables(m, r)
  {
    Write8(Write8(Write8(Write8(m, a, v[0]), Plus(a, 1), v[1]), Plus(a, 2), v[2]), Plus(a, 3), v[3])
  }

  /** write_memory_32 */
  function Write32(m: Machine, a: U32, v: Word): (r: Machine)
    requires Sound(m)
    ensures Sound(r) && SameTables(m, r)
  {
    WriteMasked(m, a, v, {0, 1, 2, 3})
  }

  /** DebugMemRead32 and DebugMemWrite32 choose the route by alignment. */
  function DebugRead32(m: Machine, a: U32): Word
    requires Sound(m)
  {
    if a % 4 == 0 then Read32(m, a) else Read32U(m, a)
  }

  function DebugWrite32(m: Machine, a: U32, v: Word): (r: Machine)
    requires Sound(m)
    ensures Sound(r) && SameTables(m, r)
  {
    if a % 4 == 0 then Write32(m, a, v) else Write32U(m, a, v)
  }

  /** A 64-bit value as its two words. */
  function DebugRead64(m: Machine, a: U32): (Word, Word)
    requires Sound(m)
  {
    (DebugRead32(m, a), DebugRead32(m, Plus(a, 4)))
  }

  function DebugWrite64(m: Machine, a: U32, hi: Word, lo: Word): (r: Machine)
    requires Sound(m)
    ensures Sound(r) && SameTables(m, r)
  {
    DebugWrite32(DebugWrite32(m, a, hi), Plus(a, 4), lo)
  }

  /** Adding modulo 2^32 adds modulo 4 in the lanes. */
  lemma PlusLane(a: U32, k: nat)
    requires k < 8
    ensures LaneOf(Plus(a, k)) == (LaneOf(a) + k) % 4
  {
    var q := a / 4;
    assert a == 4 * q + LaneOf(a);
    if a + k < SPACE {
      assert Plus(a, k) == 4 * q + (LaneOf(a) + k);
    } else {
      assert Plus(a, k) == 4 * (q - SPACE / 4) + (LaneOf(a) + k);
    }
  }

  // ----- the routes agree -------------------------------------------------------------------

  lemma AlignedByte(a: U32, k: Lane)
    requires a % 4 == 0
    ensures Plus(a, k) == a + k && Index(a + k) == Index(a) && LaneOf(a + k) == k
  {
  }

  lemma ReadLane(m: Machine, a: U32, k: Lane)
    requires Sound(m) && a % 4 == 0
    ensures Read8(m, Plus(a, k)) == Read32(m, a)[k]
  {
    AlignedByte(a, k);
    Align(a + k);
  }

  /** On a word boundary the byte-wise read is the word read. */
  lemma ReadRoutesAgree(m: Machine, a: U32)
    requires Sound(m) && a % 4 == 0
    ensures Read32U(m, a) == Read32(m, a)
  {
    ReadLane(m, a, 0);
    ReadLane(m, a, 1);
    ReadLane(m, a, 2);
    ReadLane(m, a, 3);
    assert Plus(a, 0) == a;
  }

  lemma WriteLane(m: Machine, a: U32, k: Lane, v: Byte)
    requires Sound(m) && a % 4 == 0 && WritePlace(m, a).Some?
    ensures var p := WritePlace(m, a).value; Write8(m, Plus(a, k), v) == m.(words := m.words[p := m.words[p][k := v]])
  {
    AlignedByte(a, k);
    var p := WritePlace(m, a).value;
    assert Blend(m.words[p], seq(4, j => if j == k then v else 0), {k}) == m.words[p][k := v];
  }

  /** Four lanes one by one, and all at once. */
  lemma FullWord(w: Word, v: Word)
    ensures w[0 := v[0]][1 := v[1]][2 := v[2]][3 := v[3]] == v && Blend(w, v, {0, 1, 2, 3}) == v
  {
  }

  /** On a word boundary the byte-wise write is the word write. */
  lemma WriteRoutesAgree(m: Machine, a: U32, v: Word)
    requires Sound(m) && a % 4 == 0
    ensures Write32U(m, a, v) == Write32(m, a, v)
  {
    assert Plus(a, 0) == a;
    if WritePlace(m, a).Some? {
      var p := WritePlace(m, a).value;
      var m1 := Write8(m, a, v[0]);
      var m2 := Write8(m1, Plus(a, 1), v[1]);
      var m3 := Write8(m2, Plus(a, 2), v[2]);
      WriteLane(m, a, 0, v[0]);
      WriteLane(m1, a, 1, v[1]);
      WriteLane(m2, a, 2, v[2]);
      WriteLane(m3, a, 3, v[3]);
      FullWord(m.words[p], v);
      assert Write32U(m, a, v).words == m.words[p := v];
    } else {
      AlignedByte(a, 1);
      AlignedByte(a, 2);
      AlignedByte(a, 3);
    }
  }

  /** The debugger's 32-bit write is the byte-wise one at every address, and so is the read. */
  lemma AnyRoute32(m: Machine, a: U32, v: Word)
    requires Sound(m)
    ensures DebugWrite32(m, a, v) == Write32U(m, a, v) && DebugRead32(m, a) == Read32U(m, a)
  {
    if a % 4 == 0 {
      WriteRoutesAgree(m, a, v);
      ReadRoutesAgree(m, a);
    }
  }

  // ----- what a write does to every byte -------------------------------------------------------

  /** The byte addresses of a four-byte access. */
  function Spread(a: U32): (xs: seq<U32>)
    ensures |xs| == 4
  {
    [a, Plus(a, 1), Plus(a, 2), Plus(a, 3)]
  }

  ghost predicate LanesApart(xs: seq<U32>) {
    forall j, k :: 0 <= j < k < |xs| ==> LaneOf(xs[j]) != LaneOf(xs[k])
  }

  lemma SpreadApart(a: U32)
    ensures LanesApart(Spread(a))
  {
    var xs := Spread(a);
    forall j, k | 0 <= j < k < |xs| ensures LaneOf(xs[j]) != LaneOf(xs[k]) {
      SpreadLane(a, j);
      SpreadLane(a, k);
    }
  }

  /** Four byte writes whose lanes differ: a byte that is one of the four gets its share; every
      other byte is as before. */
  lemma FourWrites(m: Machine, xs: seq<U32>, v: Word, b: U32)
    requires Sound(m) && |xs| == 4 && LanesApart(xs)
    ensures var r := Write8(Write8(Write8(Write8(m, xs[0], v[0]), xs[1], v[1]), xs[2], v[2]), xs[3], v[3]);
            && (forall k: Lane :: Reaches(m, xs[k], b) ==> Read8(r, b) == v[k])
            && ((forall k: Lane :: !Reaches(m, xs[k], b)) ==> Read8(r, b) == Read8(m, b))
  {
    var m1 := Write8(m, xs[0], v[0]);
    var m2 := Write8(m1, xs[1], v[1]);
    var m3 := Write8(m2, xs[2], v[2]);
    Write8Effect(m, xs[0], v[0], b);
    Write8Effect(m1, xs[1], v[1], b);
    Write8Effect(m2, xs[2], v[2], b);
    Write8Effect(m3, xs[3], v[3], b);
  }

  /** The debugger's 16-bit write, for every byte and every address. */
  lemma Write16Effect(m: Machine, a: U32, v: seq<Byte>, b: U32)
    requires Sound(m) && |v| == 2
    ensures Read8(Write16(m, a, v), b) == if Reaches(m, a, b) then v[0]
                                          else if Reaches(m, Plus(a, 1), b) then v[1] else Read8(m, b)
  {
    PlusLane(a, 1);
    Write8Effect(m, a, v[0], b);
    Write8Effect(Write8(m, a, v[0]), Plus(a, 1), v[1], b);
  }

  /** The debugger's 32-bit write, for every byte and every address. Bytes of one access never
      share a place, since their lanes differ. */
  lemma Write32Effect(m: Machine, a: U32, v: Word, b: U32)
    requires Sound(m)
    ensures forall k: Lane :: Reaches(m, Spread(a)[k], b) ==> Read8(DebugWrite32(m, a, v), b) == v[k]
    ensures (forall k: Lane :: !Reaches(m, Spread(a)[k], b)) ==> Read8(DebugWrite32(m, a, v), b) == Read8(m, b)
  {
    AnyRoute32(m, a, v);
    SpreadApart(a);
    FourWrites(m, Spread(a), v, b);
  }

  lemma SpreadLane(a: U32, k: Lane)
    ensures Spread(a)[k] == Plus(a, k) && LaneOf(Spread(a)[k]) == (LaneOf(a) + k) % 4
  {
    PlusLane(a, k);
  }

  /** Four addresses on, a byte has the same lane and its word another offset within the page. */
  lemma NextWord(x: U32)
    ensures LaneOf(Plus(x, 4)) == LaneOf(x) && Index(Plus(x, 4)) % 1024 != Index(x) % 1024
  {
    PlusLane(x, 4);
    if x + 4 < SPACE {
      assert Index(Plus(x, 4)) == Index(x) + 1;
    } else {
      assert Index(Plus(x, 4)) == Index(x) + 1 - SPACE / 4;
    }
  }

  lemma SecondHalf(a: U32, k: Lane)
    ensures Spread(Plus(a, 4))[k] == Plus(Spread(a)[k], 4)
  {
  }

  /** No byte is reached by both halves of a 64-bit access: translation keeps the offset within
      a page, and there the halves differ. */
  lemma HalvesApart(m: Machine, a: U32, j: Lane, k: Lane, b: U32)
    ensures !(Reaches(m, Spread(a)[j], b) && Reaches(m, Spread(Plus(a, 4))[k], b))
  {
    var x, y := Spread(a)[j], Spread(Plus(a, 4))[k];
    SecondHalf(a, k);
    NextWord(Spread(a)[k]);
    SpreadLane(a, j);
    SpreadLane(a, k);
    if LaneOf(x) == LaneOf(y) {
      assert j == k;
    }
  }

  /** The debugger's 64-bit write: each half sets its four bytes, and no other byte changes. */
  lemma Write64Effect(m: Machine, a: U32, hi: Word, lo: Word, b: U32)
    requires Sound(m)
    ensures var r := DebugWrite64(m, a, hi, lo);
            && (forall k: Lane :: Reaches(m, Spread(a)[k], b) ==> Read8(r, b) == hi[k])
            && (forall k: Lane :: Reaches(m, Spread(Plus(a, 4))[k], b) ==> Read8(r, b) == lo[k])
            && ((forall k: Lane :: !Reaches(m, Spread(a)[k], b) && !Reaches(m, Spread(Plus(a, 4))[k], b)) ==>
                  Read8(r, b) == Read8(m, b))
  {
    var m1 := DebugWrite32(m, a, hi);
    Write32Effect(m, a, hi, b);
    Write32Effect(m1, Plus(a, 4), lo, b);
    forall j: Lane, k: Lane ensures !(Reaches(m, Spread(a)[j], b) && Reaches(m, Spread(Plus(a, 4))[k], b)) {
      HalvesApart(m, a, j, k, b);
    }
    assert forall k: Lane :: Reaches(m1, Spread(Plus(a, 4))[k], b) == Reaches(m, Spread(Plus(a, 4))[k], b);
  }

  // ----- reading back ----------------------------------------------------------------------------

  /** A byte reads back as written exactly if writes go where reads come from, or it was there
      already. */
  lemma ReadBack8Iff(m: Machine, a: U32, v: Byte)
    requires Sound(m)
    ensures Read8(Write8(m, a, v), a) == v <==> Mapped(m, a) || Read8(m, a) == v
  {
    Write8Effect(m, a, v, a);
  }

  /** A page that is only readable drops what is written to it. */
  lemma ReadOnlyPage(words: map<nat, Word>)
    requires Sound(Machine(map[0 := 0], map[], words))
    ensures var m := Machine(map[0 := 0], map[], words); Write8(m, 0, 1) == m && !Mapped(m, 0)
  {
  }

  /** Mapped, in terms of the tables: in KSEG0 and KSEG1 always; elsewhere exactly if the page is
      in both and they lead to one page of the 512 MiB of physical memory. */
  lemma MappedIff(m: Machine, a: U32)
    ensures var page := Index(a) / 1024;
            Mapped(m, a) <==>
            0x8000_0000 <= a < 0xC000_0000
            || (page in m.lut_r && page in m.lut_w && m.lut_r[page] % 0x2_0000 == m.lut_w[page] % 0x2_0000)
  {
    var page := Index(a) / 1024;
    if page in m.lut_r && page in m.lut_w { SamePlaceIff(m.lut_r[page], m.lut_w[page], Index(a) % 1024); }
  }

  lemma SamePlaceIff(p: nat, q: nat, offset: nat)
    requires offset < 1024
    ensures (p * 1024 + offset) % PHYSICAL == (q * 1024 + offset) % PHYSICAL <==> p % 0x2_0000 == q % 0x2_0000
  {
    PlaceOf(p, offset);
    PlaceOf(q, offset);
  }

  lemma PlaceOf(page: nat, offset: nat)
    requires offset < 1024
    ensures (page * 1024 + offset) % PHYSICAL == page % 0x2_0000 * 1024 + offset
  {
    var k, r := page / 0x2_0000, page % 0x2_0000;
    var x := r * 1024 + offset;
    assert page * 1024 + offset == k * PHYSICAL + x && x < PHYSICAL;
    Remainder(k, x);
  }

  lemma Remainder(k: nat, x: nat)
    requires x < PHYSICAL
    ensures (k * PHYSICAL + x) % PHYSICAL == x
  {
    var y := k * PHYSICAL + x;
    assert y / PHYSICAL * PHYSICAL + y % PHYSICAL == y;
  }

  /** KSEG0 and KSEG1 are two views of the same bytes, the lowest 512 MiB of physical memory. */
  lemma DirectSegments(m: Machine, a: U32, v: Byte)
    requires Sound(m) && 0x8000_0000 <= a < 0xA000_0000
    ensures ReadPlace(m, a) == WritePlace(m, a) == Some((a - 0x8000_0000) / 4)
    ensures Read8(Write8(m, a, v), a + 0x2000_0000) == v && Read8(Write8(m, a + 0x2000_0000, v), a) == v
  {
    DirectPlace(m.lut_r, a, 4);
    DirectPlace(m.lut_w, a, 4);
    DirectPlace(m.lut_r, a + 0x2000_0000, 5);
    DirectPlace(m.lut_w, a + 0x2000_0000, 5);
    assert LaneOf(a + 0x2000_0000) == LaneOf(a);
    Write8Effect(m, a, v, a + 0x2000_0000);
    Write8Effect(m, a + 0x2000_0000, v, a);
  }

  /** Segment `k` of 512 MiB, for the two that are not translated. */
  lemma DirectPlace(lut: map<nat, nat>, a: U32, k: nat)
    requires (k == 4 || k == 5) && 0 <= a - k * 0x2000_0000 < 0x2000_0000
    ensures Translate(lut, Index(a)) == Some((a - k * 0x2000_0000) / 4)
  {
    var d := (a - k * 0x2000_0000) / 4;
    assert Index(a) == k * PHYSICAL + d;
    Remainder(k, d);
  }

  /** Elsewhere a page leads where its table says, modulo 512 MiB, with the same offset. */
  lemma PageTranslates(m: Machine, page: nat, word: nat)
    requires page < 0x10_0000 && word < 1024 && !(0x8_0000 <= page < 0xC_0000)
    ensures ReadPlace(m, page * 4096 + word * 4) ==
            if page in m.lut_r then Some(m.lut_r[page] % 0x2_0000 * 1024 + word) else None
    ensures WritePlace(m, page * 4096 + word * 4) ==
            if page in m.lut_w then Some(m.lut_w[page] % 0x2_0000 * 1024 + word) else None
  {
    var i := page * 1024 + word;
    assert Index(page * 4096 + word * 4) == i;
    assert i / 1024 == page && i % 1024 == word;
    if page in m.lut_r { PlaceOf(m.lut_r[page], word); }
    if page in m.lut_w { PlaceOf(m.lut_w[page], word); }
  }

  /** What is not mapped reads as all ones. */
  lemma UnmappedReads(m: Machine, a: U32)
    requires Sound(m) && ReadPlace(m, a) == None
    ensures Read8(m, a) == 0xFF && (a % 4 == 0 ==> DebugRead32(m, a) == [0xFF, 0xFF, 0xFF, 0xFF])
  {
    Align(a);
  }

  /** Over mapped memory a 16-bit value reads back at every address, also across words. */
  lemma ReadBack16(m: Machine, a: U32, v: seq<Byte>)
    requires Sound(m) && |v| == 2 && Mapped(m, a) && Mapped(m, Plus(a, 1))
    ensures Read16(Write16(m, a, v), a) == v
  {
    Write16Effect(m, a, v, a);
    Write16Effect(m, a, v, Plus(a, 1));
    PlusLane(a, 1);
  }

  ghost predicate Mapped4(m: Machine, a: U32) { forall k: Lane :: Mapped(m, Spread(a)[k]) }

  lemma ReadSpread(m: Machine, a: U32, v: Word)
    requires Sound(m) && forall k: Lane :: Read8(m, Spread(a)[k]) == v[k]
    ensures DebugRead32(m, a) == v
  {
    if a % 4 == 0 { ReadRoutesAgree(m, a); }
    var w := Read32U(m, a);
    forall k: Lane ensures w[k] == v[k] {
      assert w[k] == Read8(m, Spread(a)[k]);
    }
    assert w == v;
  }

  /** Over mapped memory a 32-bit value reads back at every address. */
  lemma ReadBack32(m: Machine, a: U32, v: Word)
    requires Sound(m) && Mapped4(m, a)
    ensures DebugRead32(DebugWrite32(m, a, v), a) == v
  {
    var r, xs := DebugWrite32(m, a, v), Spread(a);
    forall k: Lane ensures Read8(r, xs[k]) == v[k] {
      assert Mapped(m, xs[k]);
      Write32Effect(m, a, v, xs[k]);
    }
    ReadSpread(r, a, v);
  }

  /** Over mapped memory a 64-bit value reads back at every address modulo 2^32. */
  lemma ReadBack64(m: Machine, a: U32, hi: Word, lo: Word)
    requires Sound(m) && Mapped4(m, a) && Mapped4(m, Plus(a, 4))
    ensures DebugRead64(DebugWrite64(m, a, hi, lo), a) == (hi, lo)
  {
    var r, xs, ys := DebugWrite64(m, a, hi, lo), Spread(a), Spread(Plus(a, 4));
    forall k: Lane ensures Read8(r, xs[k]) == hi[k] && Read8(r, ys[k]) == lo[k] {
      assert Mapped(m, xs[k]) && Mapped(m, ys[k]);
      Write64Effect(m, a, hi, lo, xs[k]);
      Write64Effect(m, a, hi, lo, ys[k]);
    }
    ReadSpread(r, a, hi);
    ReadSpread(r, Plus(a, 4), lo);
  }

  // ----- the code ------------------------------------------------------------------------------

  /** The emulated memory as the debugger changes it. */
  class Device {
    const lut_r: map<nat, nat>
    const lut_w: map<nat, nat>
    var words: map<nat, Word>

    ghost predicate Valid()
      reads this
    {
      Sound(View())
    }

    ghost function View(): Machine
      reads this
    {
      Machine(lut_r, lut_w, words)
    }

    constructor (m: Machine)
      requires Sound(m)
      ensures Valid() && View() == m
    {
      lut_r, lut_w, words := m.lut_r, m.lut_w, m.words;
    }

    /** r4300_write_aligned_word */
    method WriteAlignedWord(addr: U32, value: Word, mask: set<Lane>)
      requires Valid()
      modifies this
      ensures Valid() && View() == WriteMasked(old(View()), addr, value, mask)
    {
      var t := Translate(lut_w, Index(addr));
      if t.Some? {
        words := words[t.value := Blend(words[t.value], value, mask)];
      }
    }

    /** write_memory_8 */
    method WriteMemory8(addr: U32, value: Byte)
      requires Valid()
      modifies this
      ensures Valid() && View() == Write8(old(View()), addr, value)
    {
      WriteAlignedWord(addr, seq(4, k => if k == LaneOf(addr) then value else 0), {LaneOf(addr)});
    }

    /** write_memory_16: at most the two bytes at the address change. */
    method WriteMemory16(addr: U32, value: seq<Byte>)
      requires Valid() && |value| == 2
      modifies this
      ensures Valid() && View() == Write16(old(View()), addr, value)
    {
      WriteMemory8(addr, value[0]);
      WriteMemory8(Plus(addr, 1), value[1]);
    }

    /** DebugMemWrite32, with write_memory_32 and write_memory_32_unaligned: whichever way is
        taken, the effect is that of the four byte writes. */
    method DebugMemWrite32(addr: U32, value: Word)
      requires Valid()
      modifies this
      ensures Valid() && View() == DebugWrite32(old(View()), addr, value) == Write32U(old(View()), addr, value)
    {
      AnyRoute32(View(), addr, value);
      if addr % 4 == 0 {
        WriteAlignedWord(addr, value, {0, 1, 2, 3});
      } else {
        WriteMemory8(addr, value[0]);
        WriteMemory8(Plus(addr, 1), value[1]);
        WriteMemory8(Plus(addr, 2), value[2]);
        WriteMemory8(Plus(addr, 3), value[3]);
      }
    }

    /** DebugMemWrite64 */
    method DebugMemWrite64(addr: U32, hi: Word, lo: Word)
      requires Valid()
      modifies this
      ensures Valid() && View() == DebugWrite64(old(View()), addr, hi, lo)
    {
      DebugMemWrite32(addr, hi);
      DebugMemWrite32(Plus(addr, 4), lo);
      assert addr % 4 == 0 <==> Plus(addr, 4) % 4 == 0 by { PlusLane(addr, 4); }
    }

    /** read_memory_32_unaligned: the four-step byte loop. */
    method ReadMemory32Unaligned(addr: U32) returns (value: Word)
      requires Valid()
      ensures value == Read32U(View(), addr)
    {
      var m := Machine(lut_r, lut_w, words);
      var b: seq<Byte> := [];
      var i := 0;
      while i < 4
        invariant i <= 4 && |b| == i
        invariant forall k :: 0 <= k < i ==> b[k] == Read8(m, Plus(addr, k))
      {
        b := b + [Read8(m, Plus(addr, i))];
        i := i + 1;
      }
      value := b;
      assert b == [b[0], b[1], b[2], b[3]];
    }
  }
}
