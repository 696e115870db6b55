/** Reference resolution in the ROM database, src/main/rom.c.

    An entry of mupen64plus.ini may name another entry by RefMD5 and take from it every
    property it does not set itself. References may chain, form loops, or name an MD5 that
    no entry has. */
module RomDatabase {
  import opened Common

  type Md5 = s: seq<Byte> | |s| == 16 witness seq(16, i => 0)

  /** Inheritable properties, numbered as the bits of `set_flags`. */
  type Field = n: nat | n < 14
  const GOODNAME: Field := 0
  const CRC: Field := 1
  const STATUS: Field := 2
  const SAVETYPE: Field := 3
  const PLAYERS: Field := 4
  const RUMBLE: Field := 5
  const COUNTPEROP: Field := 6
  const CHEATS: Field := 7
  const EXTRAMEM: Field := 8
  const TRANSFERPAK: Field := 9
  const MEMPAK: Field := 10
  const BIOPAK: Field := 11
  const SIDMADURATION: Field := 12
  const AIDMAMODIFIER: Field := 13

  /** A property's value: text or a null pointer, a number, or the two CRC words. */
  datatype Value = Null | Text(s: string) | Num(n: nat) | Words(crc1: nat, crc2: nat)

  datatype RawEntry = Entry(md5: Md5, refmd5: Option<Md5>, set_flags: set<Field>, values: seq<Value>)
  type Entry = e: RawEntry | |e.values| == 14 witness Entry(seq(16, i => 0), None, {}, seq(14, i => Null))

  // ----- what one resolved reference does to an entry --------------------------

  predicate Takes(e: Entry, ref: Entry, f: Field) { f !in e.set_flags && f in ref.set_flags }

  /** The value of `f` after inheriting from `ref`. A null cheat string is not copied. */
  function Inherited(e: Entry, ref: Entry, f: Field): Value {
    if Takes(e, ref, f) && !(f == CHEATS && ref.values[f] == Null) then ref.values[f] else e.values[f]
  }

  function Inherit(e: Entry, ref: Entry): Entry {
    Entry(e.md5, None, e.set_flags + ref.set_flags, seq(14, f requires 0 <= f < 14 => Inherited(e, ref, f)))
  }

  /** `e` after the first `n` of the fourteen property tests. */
  ghost function Partial(e: Entry, ref: Entry, n: nat): Entry
    requires n <= 14
  {
    Entry(e.md5, e.refmd5, e.set_flags + (set f | f in ref.set_flags && f < n),
          seq(14, f requires 0 <= f < 14 => if f < n then Inherited(e, ref, f) else e.values[f]))
  }

  /** One `if (!isset(entry) && isset(ref))` block. */
  function InheritField(now: Entry, ref: Entry, f: Field, ghost e: Entry): (r: Entry)
    requires now == Partial(e, ref, f)
    ensures r == Partial(e, ref, f + 1)
  {
    assert f in now.set_flags <==> f in e.set_flags;
    var r := if f !in now.set_flags && f in ref.set_flags then
               Entry(now.md5, now.refmd5, now.set_flags + {f},
                     if f == CHEATS && ref.values[f] == Null then now.values else now.values[f := ref.values[f]])
             else now;
    assert r.values == Partial(e, ref, f + 1).values;
    assert r.set_flags == Partial(e, ref, f + 1).set_flags;
    r
  }

  // ----- lookup ----------------------------------------------------------------

  /** The entry a search for `key` finds: the latest one listed, since each bucket is
      filled from the front. */
  function Lookup(db: seq<Entry>, key: Md5): (r: Option<nat>)
    ensures r.Some? ==> r.value < |db| && db[r.value].md5 == key && forall j :: r.value < j < |db| ==> db[j].md5 != key
    ensures r.None? ==> forall j :: 0 <= j < |db| ==> db[j].md5 != key
    decreases |db|
  {
    var n := |db|;
    if n == 0 then None
    else if db[n - 1].md5 == key then Some(n - 1)
    else Lookup(db[..n - 1], key)
  }

  /** The list for first byte `b`, head first. */
  function Bucket(db: seq<Entry>, b: Byte): (r: seq<nat>)
    ensures forall i :: 0 <= i < |r| ==> r[i] < |db|
    decreases |db|
  {
    var n := |db|;
    if n == 0 then []
    else (if db[n - 1].md5[0] == b then [n - 1] else []) + Bucket(db[..n - 1], b)
  }

  /** First index in a bucket whose entry has the key. */
  function Scan(db: seq<Entry>, bucket: seq<nat>, key: Md5): Option<nat>
    requires forall i :: 0 <= i < |bucket| ==> bucket[i] < |db|
  {
    if bucket == [] then None
    else if db[bucket[0]].md5 == key then Some(bucket[0])
    else Scan(db, bucket[1..], key)
  }

  /** Searching the bucket of the first byte is searching the whole list. */
  lemma {:induction false} ScanIsLookup(db: seq<Entry>, n: nat, key: Md5)
    requires n <= |db|
    ensures Scan(db, Bucket(db[..n], key[0]), key) == Lookup(db[..n], key)
  {
    if n > 0 {
      ScanIsLookup(db, n - 1, key);
      BucketStep(db, n, key[0]);
      assert db[..n][..n - 1] == db[..n - 1];
    }
  }

  /** A bucket gains the new entry at its head, or nothing. */
  lemma BucketStep(db: seq<Entry>, n: nat, b: Byte)
    requires 0 < n <= |db|
    ensures var rest := Bucket(db[..n - 1], b);
            if db[n - 1].md5[0] == b then
              Bucket(db[..n], b) != [] && Bucket(db[..n], b)[0] == n - 1 && Bucket(db[..n], b)[1..] == rest
            else Bucket(db[..n], b) == rest
  {
    assert db[..n][..n - 1] == db[..n - 1];
  }

  lemma {:induction false} SameKeysSameLookup(a: seq<Entry>, b: seq<Entry>, key: Md5)
    requires |a| == |b| && forall i :: 0 <= i < |a| ==> a[i].md5 == b[i].md5
    ensures Lookup(a, key) == Lookup(b, key)
    decreases |a|
  {
    if |a| > 0 { SameKeysSameLookup(a[..|a| - 1], b[..|b| - 1], key); }
  }

  lemma {:induction false} SameKeysSameBucket(a: seq<Entry>, b: seq<Entry>, c: Byte)
    requires |a| == |b| && forall i :: 0 <= i < |a| ==> a[i].md5 == b[i].md5
    ensures Bucket(a, c) == Bucket(b, c)
    decreases |a|
  {
    if |a| > 0 { SameKeysSameBucket(a[..|a| - 1], b[..|b| - 1], c); }
  }


  predicate DeclaresCrc(e: Entry) {
    CRC in e.set_flags && e.values[CRC].Words? && e.values[CRC].crc1 < 0x1_0000_0000
  }

  predicate InCrcBucket(db: seq<Entry>, i: nat, b: Byte) {
    i < |db| && DeclaresCrc(db[i]) && db[i].values[CRC].crc1 / 0x100_0000 == b
  }

  /** The CRC list for leading byte `b` once `n` entries have been read, head first. */
  function CrcBucket(db: seq<Entry>, n: nat, b: Byte): seq<nat>
    requires n <= |db|
  {
    if n == 0 then []
    else if InCrcBucket(db, n - 1, b) then [n - 1] + CrcBucket(db, n - 1, b)
    else CrcBucket(db, n - 1, b)
  }

  /** `r` lists exactly the entries among the first `n` that belong in the bucket, each once. */
  ghost predicate ListsCrc(db: seq<Entry>, n: nat, b: Byte, r: seq<nat>) {
    && (forall j :: 0 <= j < |r| ==> r[j] < n && InCrcBucket(db, r[j], b))
    && (forall j, k :: 0 <= j < k < |r| ==> r[k] < r[j])
    && (forall i: nat {:trigger i in r} :: i < n && InCrcBucket(db, i, b) ==> i in r)
  }

  lemma ListsCrcNext(db: seq<Entry>, n: nat, b: Byte)
    requires n < |db| && ListsCrc(db, n, b, CrcBucket(db, n, b))
    ensures ListsCrc(db, n + 1, b, CrcBucket(db, n + 1, b))
  {
    var rest, r := CrcBucket(db, n, b), CrcBucket(db, n + 1, b);
    if InCrcBucket(db, n, b) {
      assert r == [n] + rest;
      assert forall j :: 0 < j < |r| ==> r[j] == rest[j - 1];
      assert forall i :: i in r <==> i == n || i in rest;
    }
  }

  lemma {:induction false} CrcBucketExact(db: seq<Entry>, n: nat, b: Byte)
    requires n <= |db|
    ensures ListsCrc(db, n, b, CrcBucket(db, n, b))
  {
    if n > 0 {
      CrcBucketExact(db, n - 1, b);
      ListsCrcNext(db, n - 1, b);
    }
  }

  predicate Matches(db: seq<Entry>, i: nat, crc1: U32, crc2: U32) {
    i < |db| && DeclaresCrc(db[i]) && db[i].values[CRC] == Words(crc1, crc2)
  }

  /** Entries that declare the given CRC themselves. */
  ghost function Declarers(db: seq<Entry>, crc1: U32, crc2: U32): set<nat> {
    set i | 0 <= i < |db| && Matches(db, i, crc1, crc2)
  }

  /** A property that the file sets is never overwritten. */
  ghost predicate OwnKept(parsed: seq<Entry>, db: seq<Entry>) {
    |db| == |parsed| &&
    forall i, f :: 0 <= i < |db| && f in parsed[i].set_flags ==>
      f in db[i].set_flags && db[i].values[f] == parsed[i].values[f]
  }

  lemma ResolvedOwnKept(parsed: seq<Entry>, db0: seq<Entry>, db: seq<Entry>)
    requires OwnKept(parsed, db0) && FullyResolved(db0, db)
    ensures OwnKept(parsed, db)
  {
    forall i, f | 0 <= i < |db| && f in parsed[i].set_flags
      ensures f in db[i].set_flags && db[i].values[f] == parsed[i].values[f]
    {
      if db[i].refmd5.None? {
        var k: nat :| Ends(db0, i, k);
        assert db[i] == Resolved(db0, i, k);
      }
    }
  }

  // ----- the meaning of a reference chain --------------------------------------

  /** The entry that `i` refers to. */
  function Target(db: seq<Entry>, i: nat): (t: Option<nat>)
    requires i < |db|
    ensures t.Some? ==> t.value < |db|
  {
    if db[i].refmd5.None? then None else Lookup(db, db[i].refmd5.value)
  }

  /** The chain of `i` ends after `k` hops at an entry without a reference. */
  ghost predicate Ends(db: seq<Entry>, i: nat, k: nat)
    requires i < |db|
    decreases k
  {
    if db[i].refmd5.None? then k == 0
    else k > 0 && Target(db, i).Some? && Ends(db, Target(db, i).value, k - 1)
  }

  lemma {:induction false} EndsOnce(db: seq<Entry>, i: nat, k: nat, m: nat)
    requires i < |db| && Ends(db, i, k) && Ends(db, i, m)
    ensures k == m
    decreases k
  {
    if k > 0 { EndsOnce(db, Target(db, i).value, k - 1, m - 1); }
  }

  /** What the entry at the start of an ending chain becomes. */
  ghost function Resolved(db: seq<Entry>, i: nat, k: nat): Entry
    requires i < |db| && Ends(db, i, k)
    decreases k
  {
    if k == 0 then db[i] else Inherit(db[i], Resolved(db, Target(db, i).value, k - 1))
  }

  /** The `j`-th entry on the chain. */
  ghost function Hop(db: seq<Entry>, i: nat, k: nat, j: nat): (h: nat)
    requires i < |db| && Ends(db, i, k) && j <= k
    ensures h < |db|
    decreases j
  {
    if j == 0 then i else Hop(db, Target(db, i).value, k - 1, j - 1)
  }

  /** Values that romdatabase_open gives to properties the file does not set. */
  const DEFAULTS: seq<Value> :=
    [Null, Words(0, 0), Num(0), Num(0), Num(4), Num(1), Num(2), Null,
     Num(0), Num(0), Num(1), Num(0), Num(0x900), Num(100)]

  ghost predicate Parsed(db: seq<Entry>, defaults: seq<Value>)
    requires |defaults| == 14
  {
    defaults[CHEATS] == Null &&
    forall i, f :: 0 <= i < |db| && 0 <= f < 14 && f !in db[i].set_flags ==> db[i].values[f] == defaults[f]
  }

  /** The nearest entry on the chain that sets `f` itself. */
  ghost predicate Nearest(db: seq<Entry>, i: nat, k: nat, f: Field, j: nat)
    requires i < |db| && Ends(db, i, k)
  {
    && j <= k
    && f in db[Hop(db, i, k, j)].set_flags
    && forall j' :: 0 <= j' < j ==> f !in db[Hop(db, i, k, j')].set_flags
  }

  /** A resolved property comes from the nearest entry on the chain that sets it itself, and
      is the default if there is none. */
  lemma {:induction false} ResolvedField(db: seq<Entry>, defaults: seq<Value>, i: nat, k: nat, f: Field)
    requires |defaults| == 14 && Parsed(db, defaults) && i < |db| && Ends(db, i, k)
    ensures f in Resolved(db, i, k).set_flags <==> exists j: nat :: Nearest(db, i, k, f, j)
    ensures forall j: nat :: Nearest(db, i, k, f, j) ==> Resolved(db, i, k).values[f] == db[Hop(db, i, k, j)].values[f]
    ensures f !in Resolved(db, i, k).set_flags ==> Resolved(db, i, k).values[f] == defaults[f]
    decreases k
  {
    if f in db[i].set_flags {
      assert Hop(db, i, k, 0) == i && Nearest(db, i, k, f, 0);
    } else if k == 0 {
    } else {
      var t := Target(db, i).value;
      ResolvedField(db, defaults, t, k - 1, f);
      if f in Resolved(db, t, k - 1).set_flags {
        var j: nat :| Nearest(db, t, k - 1, f, j);
        NearestShift(db, i, k, f, j + 1);
        assert Nearest(db, i, k, f, j + 1);
      }
      forall j: nat | Nearest(db, i, k, f, j)
        ensures f in Resolved(db, t, k - 1).set_flags
        ensures Resolved(db, i, k).values[f] == db[Hop(db, i, k, j)].values[f]
      {
        assert j > 0;
        NearestShift(db, i, k, f, j);
        assert Nearest(db, t, k - 1, f, j - 1);
      }
    }
  }

  /** With the values of romdatabase_open: a property that no entry on the chain sets is its own
      default. */
  lemma UnsetIsDefault(db: seq<Entry>, i: nat, k: nat, f: Field)
    requires Parsed(db, DEFAULTS) && i < |db| && Ends(db, i, k)
    requires forall j :: 0 <= j <= k ==> f !in db[Hop(db, i, k, j)].set_flags
    ensures f !in Resolved(db, i, k).set_flags && Resolved(db, i, k).values[f] == DEFAULTS[f]
  {
    ResolvedField(db, DEFAULTS, i, k, f);
  }

  lemma NearestShift(db: seq<Entry>, i: nat, k: nat, f: Field, j: nat)
    requires i < |db| && Ends(db, i, k) && k > 0 && f !in db[i].set_flags && j > 0
    ensures Nearest(db, i, k, f, j) <==> Nearest(db, Target(db, i).value, k - 1, f, j - 1)
  {
    var t := Target(db, i).value;
    if Nearest(db, t, k - 1, f, j - 1) {
      forall m | 0 <= m < j ensures f !in db[Hop(db, i, k, m)].set_flags {
        if m > 0 { assert Hop(db, i, k, m) == Hop(db, t, k - 1, m - 1); }
      }
    }
    if Nearest(db, i, k, f, j) {
      var k' := k - 1;
      forall m | 0 <= m < j - 1 ensures f !in db[Hop(db, t, k', m)].set_flags {
        assert Hop(db, i, k, m + 1) == Hop(db, t, k', m);
      }
    }
  }

  // ----- rounds ----------------------------------------------------------------

  /** Entry `i` after `db0` has been resolved as far as its chain goes. */
  ghost predicate Settled(db0: seq<Entry>, db: seq<Entry>, i: nat)
    requires |db| == |db0| && i < |db|
  {
    if db[i].refmd5.None? then exists k: nat :: Ends(db0, i, k) && db[i] == Resolved(db0, i, k)
    else db[i] == db0[i]
  }

  /** `db` is a stage of the resolution of `db0`. */
  ghost predicate Stage(db0: seq<Entry>, db: seq<Entry>) {
    && |db| == |db0|
    && (forall i :: 0 <= i < |db| ==> db[i].md5 == db0[i].md5)
    && (forall i {:trigger Settled(db0, db, i)} :: 0 <= i < |db| ==> Settled(db0, db, i))
  }

  predicate Waiting(db: seq<Entry>, i: nat)
    requires i < |db|
  {
    db[i].refmd5.Some? && Target(db, i).Some?
  }

  /** How many of the first `n` entries still have a reference to an existing entry. */
  ghost function Pending(db: seq<Entry>, n: nat): (c: nat)
    requires n <= |db|
    ensures c <= n
  {
    if n == 0 then 0 else Pending(db, n - 1) + if Waiting(db, n - 1) then 1 else 0
  }

  /** No pending entry has a resolved target: another round would change nothing. */
  ghost predicate Stuck(db: seq<Entry>) {
    forall i :: 0 <= i < |db| && Waiting(db, i) ==> db[Target(db, i).value].refmd5.Some?
  }

  lemma StageStart(db: seq<Entry>)
    ensures Stage(db, db)
  {
    forall i | 0 <= i < |db| ensures Settled(db, db, i) {
      if db[i].refmd5.None? { assert Ends(db, i, 0) && db[i] == Resolved(db, i, 0); }
    }
  }

  lemma StageTarget(db0: seq<Entry>, db: seq<Entry>, i: nat)
    requires Stage(db0, db) && i < |db| && db[i].refmd5.Some?
    ensures Target(db, i) == Target(db0, i)
  {
    assert Settled(db0, db, i);
    SameKeysSameLookup(db, db0, db[i].refmd5.value);
  }

  /** Resolving an entry against a resolved target is a step towards the meaning. */
  lemma ResolveStep(db0: seq<Entry>, db: seq<Entry>, i: nat)
    requires Stage(db0, db) && i < |db| && Waiting(db, i) && db[Target(db, i).value].refmd5.None?
    ensures Stage(db0, db[i := Inherit(db[i], db[Target(db, i).value])])
  {
    var t := Target(db, i).value;
    var db' := db[i := Inherit(db[i], db[t])];
    StageTarget(db0, db, i);
    assert Settled(db0, db, t) && Settled(db0, db, i);
    var k: nat :| Ends(db0, t, k) && db[t] == Resolved(db0, t, k);
    assert Ends(db0, i, k + 1) && db'[i] == Resolved(db0, i, k + 1);
    forall j | 0 <= j < |db'| ensures db'[j].md5 == db0[j].md5 && Settled(db0, db', j) {
      assert Settled(db0, db, j);
    }
  }

  /** Where no round makes progress, exactly the entries whose chain does not end are left. */
  lemma {:induction false} StuckIsComplete(db0: seq<Entry>, db: seq<Entry>, i: nat, k: nat)
    requires Stage(db0, db) && Stuck(db) && i < |db| && Ends(db0, i, k)
    ensures db[i].refmd5.None?
    decreases k
  {
    assert Settled(db0, db, i);
    if db[i].refmd5.Some? {
      StageTarget(db0, db, i);
      StuckIsComplete(db0, db, Target(db, i).value, k - 1);
    }
  }

  /** The result promised for `db0`: chains that end are resolved to their meaning, the
      others (loops and dangling references) are untouched. */
  ghost predicate FullyResolved(db0: seq<Entry>, db: seq<Entry>) {
    |db| == |db0| &&
    forall i :: 0 <= i < |db| ==>
      && (db[i].refmd5.None? <==> exists k: nat :: Ends(db0, i, k))
      && (forall k: nat :: Ends(db0, i, k) ==> db[i] == Resolved(db0, i, k))
      && (db[i].refmd5.Some? ==> db[i] == db0[i])
  }

  lemma StuckIsResolved(db0: seq<Entry>, db: seq<Entry>)
    requires Stage(db0, db) && Stuck(db)
    ensures FullyResolved(db0, db)
  {
    forall i | 0 <= i < |db|
      ensures db[i].refmd5.None? ==> exists k: nat :: Ends(db0, i, k)
      ensures forall k: nat :: Ends(db0, i, k) ==> db[i].refmd5.None? && db[i] == Resolved(db0, i, k)
      ensures db[i].refmd5.Some? ==> db[i] == db0[i]
    {
      assert Settled(db0, db, i);
      forall k: nat | Ends(db0, i, k) ensures db[i].refmd5.None? && db[i] == Resolved(db0, i, k) {
        StuckIsComplete(db0, db, i, k);
        var m: nat :| Ends(db0, i, m) && db[i] == Resolved(db0, i, m);
        EndsOnce(db0, i, k, m);
      }
    }
  }

  /** The result is unique, so it does not depend on how many rounds were needed. */
  lemma ResultUnique(db0: seq<Entry>, a: seq<Entry>, b: seq<Entry>)
    requires FullyResolved(db0, a) && FullyResolved(db0, b)
    ensures a == b
  {
    forall i | 0 <= i < |a| ensures a[i] == b[i] {
      if a[i].refmd5.None? {
        var k: nat :| Ends(db0, i, k);
        assert a[i] == Resolved(db0, i, k);
      }
    }
  }

  // ----- order independence ----------------------------------------------------

  /** Every MD5 that is referred to names one entry, however often that is listed. */
  ghost predicate ClearReferences(db: seq<Entry>) {
    forall r, i, j :: 0 <= r < |db| && Named(db, r, i) && Named(db, r, j) ==> db[i] == db[j]
  }

  /** Entry `i` is one that `r` may mean. */
  ghost predicate Named(db: seq<Entry>, r: nat, i: int)
    requires r < |db|
  {
    0 <= i < |db| && db[r].refmd5 == Some(db[i].md5)
  }

  /** The same entries in another order. */
  ghost predicate Rearranged(a: seq<Entry>, b: seq<Entry>) { multiset(a) == multiset(b) }

  lemma Elsewhere(a: seq<Entry>, b: seq<Entry>, i: nat) returns (j: nat)
    requires Rearranged(a, b) && i < |a|
    ensures j < |b| && b[j] == a[i]
  {
    assert a[i] in multiset(a);
    assert a[i] in b;
    j :| 0 <= j < |b| && b[j] == a[i];
  }

  /** The entry that `i` refers to, rather than its place. */
  ghost function Referred(db: seq<Entry>, i: nat): Option<Entry>
    requires i < |db|
  {
    if Target(db, i).Some? then Some(db[Target(db, i).value]) else None
  }

  lemma RearrangedTarget(a: seq<Entry>, b: seq<Entry>, i: nat, j: nat)
    requires ClearReferences(a) && Rearranged(a, b) && i < |a| && j < |b| && a[i] == b[j]
    ensures Referred(a, i) == Referred(b, j)
  {
    if Target(a, i).Some? {
      var m := Elsewhere(a, b, Target(a, i).value);
      assert b[m].md5 == b[j].refmd5.value;
      var m' := Elsewhere(b, a, Target(b, j).value);
      assert Named(a, i, m') && Named(a, i, Target(a, i).value);
    }
    if Target(b, j).Some? {
      var m := Elsewhere(b, a, Target(b, j).value);
      assert a[m].md5 == a[i].refmd5.value;
    }
  }

  /** The references mean the same in the other order. */
  ghost predicate SameReferences(a: seq<Entry>, b: seq<Entry>) {
    forall i, j :: 0 <= i < |a| && 0 <= j < |b| && a[i] == b[j] ==> Referred(a, i) == Referred(b, j)
  }

  /** Entry `x` listed last. */
  ghost function Last(a: seq<Entry>, x: nat): (b: seq<Entry>)
    requires x < |a|
    ensures Rearranged(a, b) && b[|b| - 1] == a[x]
  {
    assert a == a[..x] + [a[x]] + a[x + 1..];
    a[..x] + a[x + 1..] + [a[x]]
  }

  /** If `r` may mean two entries, it means the one that is listed last. */
  lemma LastIsMeant(a: seq<Entry>, r: nat, x: nat)
    requires r < |a| && Named(a, r, x) && Referred(a, r) != Some(a[x])
    ensures exists b :: Rearranged(a, b) && !SameReferences(a, b)
  {
    var b := Last(a, x);
    var r' := Elsewhere(a, b, r);
    assert b[r'].refmd5 == Some(b[|b| - 1].md5);
    assert Referred(b, r') == Some(a[x]);
    assert a[r] == b[r'] && Referred(a, r) != Referred(b, r');
  }

  /** The order of the list does not matter to any reference exactly if every MD5 that is
      referred to names one entry. */
  lemma OrderMattersIff(a: seq<Entry>)
    ensures (forall b :: Rearranged(a, b) ==> SameReferences(a, b)) <==> ClearReferences(a)
  {
    if ClearReferences(a) {
      forall b | Rearranged(a, b) ensures SameReferences(a, b) {
        forall i, j | 0 <= i < |a| && 0 <= j < |b| && a[i] == b[j] ensures Referred(a, i) == Referred(b, j) {
          RearrangedTarget(a, b, i, j);
        }
      }
    } else {
      var r, i, j :| 0 <= r < |a| && Named(a, r, i) && Named(a, r, j) && a[i] != a[j];
      LastIsMeant(a, r, if Referred(a, r) == Some(a[i]) then j else i);
    }
  }

  lemma {:induction false} RearrangedEnds(a: seq<Entry>, b: seq<Entry>, i: nat, j: nat, k: nat)
    requires ClearReferences(a) && Rearranged(a, b) && i < |a| && j < |b| && a[i] == b[j]
    requires Ends(a, i, k)
    ensures Ends(b, j, k) && Resolved(a, i, k) == Resolved(b, j, k)
    decreases k
  {
    if k > 0 {
      RearrangedTarget(a, b, i, j);
      RearrangedEnds(a, b, Target(a, i).value, Target(b, j).value, k - 1);
    }
  }

  lemma ClearToo(a: seq<Entry>, b: seq<Entry>)
    requires ClearReferences(a) && Rearranged(a, b)
    ensures ClearReferences(b)
  {
    forall r, i, j | 0 <= r < |b| && Named(b, r, i) && Named(b, r, j) ensures b[i] == b[j] {
      var r' := Elsewhere(b, a, r);
      var i' := Elsewhere(b, a, i);
      var j' := Elsewhere(b, a, j);
      assert Named(a, r', i') && Named(a, r', j');
    }
  }

  /** Then the outcome for an entry does not depend on the order of the list. */
  lemma OrderIndependent(a: seq<Entry>, b: seq<Entry>, a': seq<Entry>, b': seq<Entry>, i: nat, j: nat)
    requires ClearReferences(a) && Rearranged(a, b) && i < |a| && j < |b| && a[i] == b[j]
    requires FullyResolved(a, a') && FullyResolved(b, b')
    ensures a'[i] == b'[j]
  {
    if a'[i].refmd5.None? {
      var k: nat :| Ends(a, i, k);
      RearrangedEnds(a, b, i, j, k);
      assert b'[j] == Resolved(b, j, k);
    } else if b'[j].refmd5.None? {
      var k: nat :| Ends(b, j, k);
      ClearToo(a, b);
      RearrangedEnds(b, a, j, i, k);
      assert false;
    }
  }

  /** With two entries of one MD5 the order does matter: a reference finds the entry listed last. */
  lemma DuplicateOrderMatters(a: Entry, b: Entry, c: Entry)
    requires a.md5 == b.md5 != c.md5 && a.refmd5.None? && b.refmd5.None? && c.refmd5 == Some(a.md5)
    requires GOODNAME in a.set_flags && GOODNAME in b.set_flags && GOODNAME !in c.set_flags
    ensures Ends([a, b, c], 2, 1) && Resolved([a, b, c], 2, 1).values[GOODNAME] == b.values[GOODNAME]
    ensures Ends([b, a, c], 2, 1) && Resolved([b, a, c], 2, 1).values[GOODNAME] == a.values[GOODNAME]
  {
    var x, y := [a, b, c], [b, a, c];
    assert Lookup(x, a.md5) == Some(1) by { assert x[1].md5 == a.md5; }
    assert Lookup(y, a.md5) == Some(1) by { assert y[1].md5 == a.md5; }
    assert Ends(x, 1, 0) && Ends(y, 1, 0);
    assert Resolved(x, 1, 0) == b && Resolved(y, 1, 0) == a;
  }

  // ----- the code --------------------------------------------------------------

  const SIZE_MAX: nat := 0xFFFF_FFFF_FFFF_FFFF

  class Database {
    var have_database: bool
    /** `list`, in file order. */
    const list: array<Entry>
    /** `md5_lists` and `crc_lists`, each bucket as the indices of its entries. */
    var md5_lists: seq<seq<nat>>
    var crc_lists: seq<seq<nat>>
    /** The entries as they were read from the file. */
    ghost const parsed: seq<Entry>

    ghost predicate Valid()
      reads this, list
    {
      && list.Length < SIZE_MAX
      && |md5_lists| == 256
      && forall b :: 0 <= b < 256 ==> md5_lists[b] == Bucket(list[..], b)
    }

    /** The CRC index lists the entries that declare a CRC, and their CRCs still stand. */
    ghost predicate CrcIndexed()
      reads this, list
    {
      && |crc_lists| == 256 && |parsed| == list.Length
      && (forall b :: 0 <= b < 256 ==> crc_lists[b] == CrcBucket(parsed, |parsed|, b))
      && OwnKept(parsed, list[..])
    }

    /** romdatabase_open, the first time: every entry goes to the end of the list and to the head
        of its buckets, which are empty at program start. Module RomReopen is about later times. */
    constructor Open(entries: seq<Entry>)
      requires |entries| < SIZE_MAX
      requires forall i :: 0 <= i < |entries| && CRC in entries[i].set_flags ==> DeclaresCrc(entries[i])
      ensures Valid() && CrcIndexed() && have_database && list[..] == entries && parsed == entries
    {
      have_database := true;
      parsed := entries;
      list := new Entry[|entries|](i requires 0 <= i < |entries| => entries[i]);
      md5_lists := seq(256, i => []);
      crc_lists := seq(256, i => []);
      new;
      var n := 0;
      while n < |entries|
        invariant n <= |entries| && have_database && list[..] == entries == parsed
        invariant |md5_lists| == 256 && forall b :: 0 <= b < 256 ==> md5_lists[b] == Bucket(entries[..n], b)
        invariant |crc_lists| == 256 && forall b :: 0 <= b < 256 ==> crc_lists[b] == CrcBucket(entries, n, b)
        modifies this
      {
        IndexEntry(entries, n);
        n := n + 1;
      }
      assert entries[..n] == entries;
    }

    /** Entry `n` goes to the head of its buckets. */
    method IndexEntry(entries: seq<Entry>, n: nat)
      requires n < |entries| && (CRC in entries[n].set_flags ==> DeclaresCrc(entries[n]))
      requires |md5_lists| == 256 && forall b :: 0 <= b < 256 ==> md5_lists[b] == Bucket(entries[..n], b)
      requires |crc_lists| == 256 && forall b :: 0 <= b < 256 ==> crc_lists[b] == CrcBucket(entries, n, b)
      modifies this`md5_lists, this`crc_lists
      ensures |md5_lists| == 256 && forall b :: 0 <= b < 256 ==> md5_lists[b] == Bucket(entries[..n + 1], b)
      ensures |crc_lists| == 256 && forall b :: 0 <= b < 256 ==> crc_lists[b] == CrcBucket(entries, n + 1, b)
    {
      var e := entries[n];
      assert entries[..n + 1][..n] == entries[..n];
      md5_lists := md5_lists[e.md5[0] := [n] + md5_lists[e.md5[0]]];
      if CRC in e.set_flags {
        var index := e.values[CRC].crc1 / 0x100_0000;
        crc_lists := crc_lists[index := [n] + crc_lists[index]];
      }
    }

    /** ini_search_by_crc: the one entry that declares this CRC; no answer if none or several
        do. A CRC that an entry only inherits never counts. */
    method SearchByCrc(crc1: U32, crc2: U32) returns (r: Option<nat>)
      requires CrcIndexed()
      ensures have_database ==> forall i :: r == Some(i) <==> Declarers(parsed, crc1, crc2) == {i}
      ensures !have_database ==> r == None
    {
      if !have_database { return None; }
      var b := crc1 / 0x100_0000 % 256;
      assert b == crc1 / 0x100_0000;
      var search := crc_lists[b];
      CrcBucketExact(parsed, |parsed|, b);
      assert search == CrcBucket(parsed, |parsed|, b);
      assert forall j :: 0 <= j < |search| ==> InCrcBucket(parsed, search[j], b);
      r := None;
      var k := 0;
      while k < |search|
        invariant k <= |search|
        invariant forall j :: 0 <= j < k && Matches(parsed, search[j], crc1, crc2) ==> r == Some(search[j])
        invariant r.Some? ==> Matches(parsed, r.value, crc1, crc2) && exists j :: 0 <= j < k && search[j] == r.value
      {
        assert InCrcBucket(parsed, search[k], b);
        if list[search[k]].values[CRC] == Words(crc1, crc2) {
          if r != None {
            assert r.value in Declarers(parsed, crc1, crc2) && search[k] in Declarers(parsed, crc1, crc2);
            return None;
          }
          r := Some(search[k]);
        }
        k := k + 1;
      }
      forall i: nat | Matches(parsed, i, crc1, crc2) ensures r == Some(i) {
        assert InCrcBucket(parsed, i, b) && i in search;
      }
      if r.Some? {
        assert Declarers(parsed, crc1, crc2) == {r.value};
      } else {
        assert Declarers(parsed, crc1, crc2) == {};
      }
    }

    /** ini_search_by_md5 */
    method SearchByMd5(md5: Md5) returns (r: Option<nat>)
      requires Valid()
      ensures r == if have_database then Lookup(list[..], md5) else None
    {
      if !have_database { return None; }
      var search: seq<nat> := md5_lists[md5[0]];
      ghost var bucket := search;
      while search != [] && list[search[0]].md5 != md5
        invariant forall i :: 0 <= i < |search| ==> search[i] < list.Length
        invariant Scan(list[..], search, md5) == Scan(list[..], bucket, md5)
        decreases |search|
      {
        search := search[1..];
      }
      ScanIsLookup(list[..], list.Length, md5);
      assert list[..][..list.Length] == list[..];
      r := if search == [] then None else Some(search[0]);
    }

    /** The fourteen property tests of romdatabase_resolve_round, in source order. */
    static method InheritFields(entry: Entry, ref: Entry) returns (r: Entry)
      ensures r == Inherit(entry, ref)
    {
      r := entry;
      assert r.values == Partial(entry, ref, 0).values && r.set_flags == Partial(entry, ref, 0).set_flags;
      r := InheritField(r, ref, GOODNAME, entry);
      r := InheritField(r, ref, CRC, entry);
      r := InheritField(r, ref, STATUS, entry);
      r := InheritField(r, ref, SAVETYPE, entry);
      r := InheritField(r, ref, PLAYERS, entry);
      r := InheritField(r, ref, RUMBLE, entry);
      r := InheritField(r, ref, COUNTPEROP, entry);
      r := InheritField(r, ref, CHEATS, entry);
      r := InheritField(r, ref, EXTRAMEM, entry);
      r := InheritField(r, ref, TRANSFERPAK, entry);
      r := InheritField(r, ref, MEMPAK, entry);
      r := InheritField(r, ref, BIOPAK, entry);
      r := InheritField(r, ref, SIDMADURATION, entry);
      r := InheritField(r, ref, AIDMAMODIFIER, entry);
      assert Partial(entry, ref, 14).set_flags == entry.set_flags + ref.set_flags;
      assert Partial(entry, ref, 14).values == Inherit(entry, ref).values;
      r := r.(refmd5 := None);
    }

    /** The body of the loop of romdatabase_resolve_round, for entry `i`. */
    method ResolveEntry(i: nat, ghost db0: seq<Entry>, ghost a: seq<Entry>, ghost count: nat) returns (skip: bool)
      requires Valid() && have_database && i < list.Length && InRound(db0, a, list[..], i, count)
      modifies list
      ensures Valid() && InRound(db0, a, list[..], i + 1, if skip then count + 1 else count)
    {
      ghost var db := list[..];
      skip := false;
      if list[i].refmd5.None? {
        RoundLeaves(db0, a, db, i, count);
        return;
      }
      var ref := SearchByMd5(list[i].refmd5.value);
      if ref.None? || list[ref.value].refmd5.Some? {
        RoundLeaves(db0, a, db, i, count);
        skip := ref.Some?;
        return;
      }
      RoundResolves(db0, a, db, i, count);
      var e := InheritFields(list[i], list[ref.value]);
      list[i] := e;
      assert list[..] == db[i := e];
      ReindexSame(db, list[..]);
    }

    /** romdatabase_resolve_round: the number returned counts the entries that are still
        pending afterwards; if it equals their number before, nothing changed and nothing
        can change any more. */
    method ResolveRound(ghost db0: seq<Entry>) returns (skipped: nat)
      requires Valid() && have_database && Stage(db0, list[..])
      modifies list
      ensures Valid() && Stage(db0, list[..])
      ensures skipped == Pending(list[..], list.Length) <= Pending(old(list[..]), list.Length)
      ensures skipped == Pending(old(list[..]), list.Length) ==> list[..] == old(list[..])
      ensures skipped == 0 || list[..] == old(list[..]) ==> Stuck(list[..])
    {
      ghost var a := list[..];
      RoundStart(db0, a);
      skipped := Sweep(db0, a);
      RoundDone(db0, a, list[..], skipped);
    }

    /** The loop of romdatabase_resolve_round. */
    method Sweep(ghost db0: seq<Entry>, ghost a: seq<Entry>) returns (skipped: nat)
      requires Valid() && have_database && InRound(db0, a, list[..], 0, 0)
      modifies list
      ensures Valid() && InRound(db0, a, list[..], list.Length, skipped)
    {
      skipped := 0;
      var i := 0;
      while i < list.Length
        invariant i <= list.Length && Valid()
        invariant InRound(db0, a, list[..], i, skipped)
      {
        var skip := ResolveEntry(i, db0, a, skipped);
        skipped := if skip then skipped + 1 else skipped;
        i := i + 1;
      }
    }

    lemma ReindexSame(a: seq<Entry>, b: seq<Entry>)
      requires |a| == |b| && forall i :: 0 <= i < |a| ==> a[i].md5 == b[i].md5
      ensures forall c: Byte :: Bucket(a, c) == Bucket(b, c)
    {
      forall c: Byte ensures Bucket(a, c) == Bucket(b, c) { SameKeysSameBucket(a, b, c); }
    }

    /** romdatabase_resolve: terminates, and resolves everything that can be resolved. */
    method Resolve()
      requires Valid() && have_database
      modifies list
      ensures Valid() && FullyResolved(old(list[..]), list[..])
      ensures old(CrcIndexed()) ==> CrcIndexed()
    {
      ghost var db0 := list[..];
      StageStart(db0);
      var last_skipped := SIZE_MAX;
      var skipped := ResolveRound(db0);
      while skipped != last_skipped && skipped > 0
        invariant Valid() && Stage(db0, list[..])
        invariant skipped == Pending(list[..], list.Length) < SIZE_MAX
        invariant skipped <= last_skipped
        invariant skipped == 0 || skipped == last_skipped ==> Stuck(list[..])
        decreases last_skipped
      {
        last_skipped := skipped;
        skipped := ResolveRound(db0);
      }
      StuckIsResolved(db0, list[..]);
      if OwnKept(parsed, db0) { ResolvedOwnKept(parsed, db0, list[..]); }
    }
  }

  // ----- pending entries only get fewer ----------------------------------------

  /** Every entry either is as it was or has been resolved. */
  ghost predicate Shrunk(a: seq<Entry>, b: seq<Entry>) {
    && |a| == |b|
    && forall i :: 0 <= i < |a| ==>
         a[i].md5 == b[i].md5 && (b[i] == a[i] || (a[i].refmd5.Some? && Waiting(a, i) && b[i].refmd5.None?))
  }

  /** What holds when a round that began with `a` has dealt with the first `i` entries. */
  ghost predicate InRound(db0: seq<Entry>, a: seq<Entry>, db: seq<Entry>, i: nat, skipped: nat) {
    && Stage(db0, db) && Shrunk(a, db) && i <= |db|
    && skipped == Pending(db, i)
    && (db == a ==> forall j :: 0 <= j < i && Waiting(db, j) ==> db[Target(db, j).value].refmd5.Some?)
  }

  lemma RoundStart(db0: seq<Entry>, a: seq<Entry>)
    requires Stage(db0, a)
    ensures InRound(db0, a, a, 0, 0)
  {
  }

  lemma RoundLeaves(db0: seq<Entry>, a: seq<Entry>, db: seq<Entry>, i: nat, skipped: nat)
    requires InRound(db0, a, db, i, skipped) && i < |db|
    requires Waiting(db, i) ==> db[Target(db, i).value].refmd5.Some?
    ensures InRound(db0, a, db, i + 1, if Waiting(db, i) then skipped + 1 else skipped)
  {
  }

  lemma RoundResolves(db0: seq<Entry>, a: seq<Entry>, db: seq<Entry>, i: nat, skipped: nat)
    requires InRound(db0, a, db, i, skipped) && i < |db|
    requires Waiting(db, i) && db[Target(db, i).value].refmd5.None?
    ensures InRound(db0, a, db[i := Inherit(db[i], db[Target(db, i).value])], i + 1, skipped)
  {
    var e := Inherit(db[i], db[Target(db, i).value]);
    ResolveStep(db0, db, i);
    Replaced(a, db, i, e);
    PendingReplaced(db, i, e, i);
  }

  lemma RoundDone(db0: seq<Entry>, a: seq<Entry>, db: seq<Entry>, skipped: nat)
    requires InRound(db0, a, db, |db|, skipped)
    ensures skipped <= Pending(a, |a|)
    ensures skipped == Pending(a, |a|) ==> db == a
    ensures skipped == 0 || db == a ==> Stuck(db)
  {
    PendingShrinks(a, db, |db|);
    assert a[..|db|] == a && db[..|db|] == db;
    if skipped == 0 {
      forall j | 0 <= j < |db| ensures !Waiting(db, j) { NonePending(db, |db|, j); }
    }
  }

  lemma {:induction false} NonePending(db: seq<Entry>, n: nat, i: nat)
    requires i < n <= |db| && Pending(db, n) == 0
    ensures !Waiting(db, i)
  {
    if i < n - 1 { NonePending(db, n - 1, i); }
  }

  lemma ReplacedWaiting(db: seq<Entry>, i: nat, e: Entry, x: nat)
    requires i < |db| && x < |db| && x != i && e.md5 == db[i].md5
    ensures Waiting(db[i := e], x) == Waiting(db, x)
  {
    if db[x].refmd5.Some? { SameKeysSameLookup(db, db[i := e], db[x].refmd5.value); }
  }

  lemma {:induction false} PendingReplaced(db: seq<Entry>, i: nat, e: Entry, n: nat)
    requires n <= i < |db| && e.md5 == db[i].md5
    ensures Pending(db[i := e], n) == Pending(db, n)
    decreases n
  {
    if n > 0 {
      PendingReplaced(db, i, e, n - 1);
      ReplacedWaiting(db, i, e, n - 1);
    }
  }

  lemma Replaced(a: seq<Entry>, db: seq<Entry>, i: nat, e: Entry)
    requires Shrunk(a, db) && i < |db| && Waiting(db, i) && e.md5 == db[i].md5 && e.refmd5.None?
    ensures Shrunk(a, db[i := e]) && db[i := e] != a
  {
    assert db[i] == a[i];
    SameKeysSameLookup(a, db, a[i].refmd5.value);
    assert db[i := e][i].refmd5.None?;
  }

  /** A later stage waits for no more than an earlier one, and for fewer if it differs. */
  lemma {:induction false} PendingShrinks(a: seq<Entry>, b: seq<Entry>, n: nat)
    requires Shrunk(a, b) && n <= |a|
    ensures Pending(b, n) <= Pending(a, n)
    ensures Pending(b, n) == Pending(a, n) ==> a[..n] == b[..n]
    decreases n
  {
    if n > 0 {
      PendingShrinks(a, b, n - 1);
      WaitingShrinks(a, b, n - 1);
      Prefixes(a, b, n);
    }
  }

  lemma WaitingShrinks(a: seq<Entry>, b: seq<Entry>, i: nat)
    requires Shrunk(a, b) && i < |a|
    ensures Waiting(b, i) ==> Waiting(a, i)
    ensures a[i] != b[i] ==> Waiting(a, i) && !Waiting(b, i)
  {
    if a[i] == b[i] && a[i].refmd5.Some? { SameKeysSameLookup(a, b, a[i].refmd5.value); }
  }

  lemma Prefixes<T>(a: seq<T>, b: seq<T>, n: nat)
    requires 0 < n <= |a| == |b|
    ensures a[..n] == b[..n] <==> a[..n - 1] == b[..n - 1] && a[n - 1] == b[n - 1]
  {
    assert a[..n] == a[..n - 1] + [a[n - 1]] && b[..n] == b[..n - 1] + [b[n - 1]];
  }
}
