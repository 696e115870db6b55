/** Opening the ROM database again after it was closed, src/main/rom.c.

    romdatabase_close frees the entries and leaves the two indices pointing at them;
    romdatabase_open clears the indices, but only the lists for the first bytes 0 to 254. */
module RomReopen {
  import opened Common
  import opened RomDatabase

  /** One list of an index: entries that are in use, head first, and whether a pointer to a freed
      entry follows them. */
  datatype Chain = Chain(live: seq<nat>, dangling: bool)

  type Index = s: seq<Chain> | |s| == 256 witness seq(256, b => Chain([], false))

  /** What a search comes to. */
  datatype Outcome = Found(i: nat) | Absent | FreedEntry

  /** Entry `n` goes to the head of list `b`. */
  function Push(index: Index, b: Byte, n: nat): Index {
    index[b := Chain([n] + index[b].live, index[b].dangling)]
  }

  /** After the entries are freed every list that had one points at it. */
  function Freed(index: Index): Index {
    seq(256, b requires 0 <= b < 256 => Chain([], index[b].dangling || index[b].live != []))
  }

  /** The loop that clears lists 0 to 254. */
  method Clear(index: Index) returns (r: Index)
    ensures r[255] == index[255] && forall b :: 0 <= b < 255 ==> r[b] == Chain([], false)
  {
    r := index;
    var counter := 0;
    while counter < 255
      invariant counter <= 255 && r[255] == index[255]
      invariant forall b :: 0 <= b < counter ==> r[b] == Chain([], false)
    {
      r := r[counter := Chain([], false)];
      counter := counter + 1;
    }
  }

  /** The CRC lines of the entries are well-formed. */
  predicate CrcsDeclared(entries: seq<Entry>) {
    forall i :: 0 <= i < |entries| && CRC in entries[i].set_flags ==> DeclaresCrc(entries[i])
  }

  /** The lists hold the buckets of the entries, and only list 255 may dangle. */
  ghost predicate ListsMd5(list: seq<Entry>, index: Index) {
    forall b :: 0 <= b < 256 ==> index[b].live == Bucket(list, b) && (b < 255 ==> !index[b].dangling)
  }

  ghost predicate ListsCrcs(list: seq<Entry>, index: Index) {
    forall b :: 0 <= b < 256 ==> index[b].live == CrcBucket(list, |list|, b) && (b < 255 ==> !index[b].dangling)
  }

  lemma PushMd5(list: seq<Entry>, e: Entry, index: Index)
    requires ListsMd5(list, index)
    ensures ListsMd5(list + [e], Push(index, e.md5[0], |list|))
  {
    assert (list + [e])[..|list|] == list;
  }

  lemma PushCrc(list: seq<Entry>, e: Entry, index: Index)
    requires ListsCrcs(list, index) && (CRC in e.set_flags ==> DeclaresCrc(e))
    ensures CRC in e.set_flags ==> ListsCrcs(list + [e], Push(index, e.values[CRC].crc1 / 0x100_0000, |list|))
    ensures CRC !in e.set_flags ==> ListsCrcs(list + [e], index)
  {
    var all := list + [e];
    forall b: Byte ensures CrcBucket(all, |list|, b) == CrcBucket(list, |list|, b) {
      CrcBucketPrefix(list, all, |list|, b);
    }
    assert all[|list|] == e;
  }

  /** `g_romdatabase`, as far as the indices go. */
  class Statics {
    var have_database: bool
    var list: seq<Entry>
    var md5_lists: Index
    var crc_lists: Index
    /** Some database that was closed had an entry whose MD5, or whose CRC, begins with 0xFF. */
    ghost var stale: bool
    ghost var stale_crc: bool

    ghost predicate Valid()
      reads this
    {
      && CrcsDeclared(list) && md5_lists[255].dangling == stale && crc_lists[255].dangling == stale_crc
      && if have_database then ListsMd5(list, md5_lists) && ListsCrcs(list, crc_lists)
         else forall b :: 0 <= b < 256 ==> md5_lists[b].live == [] && crc_lists[b].live == []
    }

    /** At program start the statics are zero. */
    constructor ()
      ensures Valid() && !have_database && !stale && !stale_crc
    {
      have_database, list, stale, stale_crc := false, [], false, false;
      md5_lists := seq(256, b => Chain([], false));
      crc_lists := seq(256, b => Chain([], false));
    }

    /** romdatabase_open, up to the resolution of references. */
    method Open(entries: seq<Entry>)
      requires Valid() && CrcsDeclared(entries)
      modifies this
      ensures Valid() && have_database && stale == old(stale) && stale_crc == old(stale_crc)
      ensures list == if old(have_database) then old(list) else entries
    {
      if have_database { return; }
      have_database := true;
      crc_lists := Clear(crc_lists);
      md5_lists := Clear(md5_lists);
      list := [];
      Fill(entries);
    }

    method Fill(entries: seq<Entry>)
      requires Valid() && have_database && list == [] && CrcsDeclared(entries)
      modifies this`list, this`md5_lists, this`crc_lists
      ensures Valid() && list == entries
    {
      var n := 0;
      while n < |entries|
        invariant n <= |entries| && Valid() && list == entries[..n]
      {
        Insert(entries[n]);
        assert entries[..n] + [entries[n]] == entries[..n + 1];
        n := n + 1;
      }
      assert entries[..n] == entries;
    }

    /** Every entry goes to the head of its lists. */
    method Insert(e: Entry)
      requires Valid() && have_database && (CRC in e.set_flags ==> DeclaresCrc(e))
      modifies this`list, this`md5_lists, this`crc_lists
      ensures Valid() && list == old(list) + [e]
    {
      var n := |list|;
      PushMd5(list, e, md5_lists);
      md5_lists := Push(md5_lists, e.md5[0], n);
      PushCrc(list, e, crc_lists);
      if CRC in e.set_flags {
        crc_lists := Push(crc_lists, e.values[CRC].crc1 / 0x100_0000, n);
      }
      list := list + [e];
    }

    /** romdatabase_close: the entries are freed, the lists still point at them. */
    method Close()
      requires Valid()
      modifies this
      ensures Valid() && !have_database
      ensures stale <==>
              old(stale) || (old(have_database) && exists i :: 0 <= i < |old(list)| && old(list)[i].md5[0] == 255)
      ensures stale_crc <==> old(stale_crc) || (old(have_database) && exists i :: InCrcBucket(old(list), i, 255))
    {
      if !have_database { return; }
      BucketEmptyIff(list, |list|, 255);
      CrcBucketEmptyIff(list, 255);
      assert list[..|list|] == list;
      stale := stale || md5_lists[255].live != [];
      stale_crc := stale_crc || crc_lists[255].live != [];
      md5_lists, crc_lists := Freed(md5_lists), Freed(crc_lists);
      list, have_database := [], false;
    }

    /** ini_search_by_md5. It walks into freed memory exactly if the MD5 begins with 0xFF, no entry
        has it, and a closed database had an entry beginning so. */
    method Search(md5: Md5) returns (r: Outcome)
      requires Valid()
      ensures !have_database ==> r == Absent
      ensures have_database ==>
        match Lookup(list, md5)
        case Some(i) => r == Found(i)
        case None => r == if md5[0] == 255 && stale then FreedEntry else Absent
    {
      if !have_database { return Absent; }
      var c := md5_lists[md5[0]];
      var search: seq<nat> := c.live;
      ScanIsLookup(list, |list|, md5);
      assert list[..|list|] == list;
      while search != [] && list[search[0]].md5 != md5
        invariant forall i :: 0 <= i < |search| ==> search[i] < |list|
        invariant Scan(list, search, md5) == Lookup(list, md5)
        decreases |search|
      {
        search := search[1..];
      }
      if search != [] { return Found(search[0]); }
      return if c.dangling then FreedEntry else Absent;
    }

    /** ini_search_by_crc. Two entries that declare the CRC end the search early. Otherwise it reads
        the whole list, and walks into freed memory exactly if the CRC begins with 0xFF and a
        closed database had a CRC beginning so. */
    method SearchByCrc(crc1: U32, crc2: U32) returns (r: Outcome)
      requires Valid()
      ensures !have_database ==> r == Absent
      ensures have_database && Ambiguous(list, crc1, crc2) ==> r == Absent
      ensures have_database && !Ambiguous(list, crc1, crc2) ==>
        if crc1 / 0x100_0000 == 255 && stale_crc then r == FreedEntry
        else if exists i :: Matches(list, i, crc1, crc2) then r.Found? && Matches(list, r.i, crc1, crc2)
        else r == Absent
    {
      if !have_database { return Absent; }
      var b := crc1 / 0x100_0000;
      var c := crc_lists[b];
      var search := c.live;
      CrcBucketExact(list, |list|, b);
      r := Absent;
      var k := 0;
      while k < |search|
        invariant k <= |search| && (r.Absent? || r.Found?)
        invariant r.Absent? ==> forall j :: 0 <= j < k ==> !Matches(list, search[j], crc1, crc2)
        invariant r.Found? ==> Matches(list, r.i, crc1, crc2) && exists j :: 0 <= j < k && search[j] == r.i
        invariant r.Found? ==> forall j :: 0 <= j < k && Matches(list, search[j], crc1, crc2) ==> search[j] == r.i
      {
        if list[search[k]].values[CRC] == Words(crc1, crc2) {
          assert Matches(list, search[k], crc1, crc2);
          if r.Found? { return Absent; }
          r := Found(search[k]);
        }
        k := k + 1;
      }
      forall i: nat | Matches(list, i, crc1, crc2) ensures r == Found(i) {
        assert InCrcBucket(list, i, b) && i in search;
      }
      if c.dangling { r := FreedEntry; }
    }
  }

  /** Two entries declare the CRC. */
  ghost predicate Ambiguous(list: seq<Entry>, crc1: U32, crc2: U32) {
    exists i, j :: Matches(list, i, crc1, crc2) && Matches(list, j, crc1, crc2) && i != j
  }

  /** A list is empty exactly if no entry begins with its byte. */
  lemma {:induction false} BucketEmptyIff(db: seq<Entry>, n: nat, b: Byte)
    requires n <= |db|
    ensures Bucket(db[..n], b) != [] <==> exists i :: 0 <= i < n && db[i].md5[0] == b
  {
    if n > 0 {
      BucketEmptyIff(db, n - 1, b);
      assert db[..n][..n - 1] == db[..n - 1];
    }
  }

  lemma CrcBucketEmptyIff(db: seq<Entry>, b: Byte)
    ensures CrcBucket(db, |db|, b) != [] <==> exists i :: InCrcBucket(db, i, b)
  {
    CrcBucketExact(db, |db|, b);
    var r := CrcBucket(db, |db|, b);
    if r != [] { assert InCrcBucket(db, r[0], b); }
    if i :| InCrcBucket(db, i, b) { assert i in r; }
  }

  /** A list depends only on the entries read so far. */
  lemma {:induction false} CrcBucketPrefix(a: seq<Entry>, db: seq<Entry>, n: nat, b: Byte)
    requires n <= |a| <= |db| && a == db[..|a|]
    ensures CrcBucket(a, n, b) == CrcBucket(db, n, b)
  {
    if n > 0 {
      CrcBucketPrefix(a, db, n - 1, b);
      assert a[n - 1] == db[n - 1];
    }
  }

  /** Open, close, open again: searching for an MD5 that begins with 0xFF and is not in the
      database follows a pointer to a freed entry. */
  method ReopenMeetsFreed(first: Entry, md5: Md5) returns (r: Outcome)
    requires first.md5[0] == 255 && md5[0] == 255 && CrcsDeclared([first])
    ensures r == FreedEntry
  {
    var g := new Statics();
    g.Open([first]);
    g.Close();
    assert g.stale by { assert [first][0].md5[0] == 255; }
    g.Open([]);
    r := g.Search(md5);
  }

  /** The same for a CRC that begins with 0xFF. */
  method ReopenMeetsFreedCrc(first: Entry, crc1: U32, crc2: U32) returns (r: Outcome)
    requires CrcsDeclared([first]) && InCrcBucket([first], 0, 255) && crc1 / 0x100_0000 == 255
    ensures r == FreedEntry
  {
    var g := new Statics();
    g.Open([first]);
    g.Close();
    assert g.stale_crc by { assert InCrcBucket([first], 0, 255); }
    g.Open([]);
    r := g.SearchByCrc(crc1, crc2);
  }
}
