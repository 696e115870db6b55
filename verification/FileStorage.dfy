/**
 * The write-through storage behind save files (src/backends/file_storage.c):
 * the first save writes the whole contents, later ones only the changed chunk,
 * and several sub-storages may share one parent.  Proved over every run of
 * memory writes and saves, with I/O that may fail.
 */
module FileStorage {
  import opened Common

  /** What the operating system made of one attempt to write. */
  datatype Io =
    | NoOpen                            // neither open succeeded, the file is untouched
    | Wrote(count: nat, kept: bool)     // `count` bytes got out; `kept`: the existing file was opened, not recreated

  /** Contents in memory, contents on disk, and whether no save has been attempted yet. */
  datatype Storage = Storage(data: seq<Byte>, file: seq<Byte>, first: bool)

  function Min(a: nat, b: nat): (r: nat) {
    if a < b then a else b
  }

  /** `file` with `bytes` written at `at`; a gap past the end reads as zeros. */
  function Overlay(file: seq<Byte>, at: nat, bytes: seq<Byte>): (r: seq<Byte>)
    ensures |bytes| == 0 ==> r == file
    ensures |bytes| > 0 ==> |r| == (if at + |bytes| > |file| then at + |bytes| else |file|)
    ensures forall k :: 0 <= k < |r| ==>
      r[k] == if at <= k < at + |bytes| then bytes[k - at] else if k < |file| then file[k] else 0
  {
    if |bytes| == 0 then file
    else if at + |bytes| <= |file| then file[..at] + bytes + file[at + |bytes|..]
    else if at <= |file| then file[..at] + bytes
    else file + seq(at - |file|, k => 0) + bytes
  }

  /** write_to_file truncates; write_chunk_to_file keeps the file when it can open it. */
  function Written(s: Storage, start: nat, size: nat, io: Io): (file: seq<Byte>)
    requires start + size <= |s.data|
  {
    match io
    case NoOpen => s.file
    case Wrote(count, kept) =>
      if s.first then s.data[..Min(count, |s.data|)]
      else Overlay(if kept then s.file else [], start, s.data[start..start + Min(count, size)])
  }

  /** One save: the flag is cleared whether or not the write succeeded. */
  function Saved(s: Storage, start: nat, size: nat, io: Io): (r: Storage)
    requires start + size <= |s.data|
  {
    Storage(s.data, Written(s, start, size, io), false)
  }

  /** The file has `n` bytes of the memory at `start`; the rest is as before, with zeros in a gap. */
  ghost predicate ChunkIn(before: seq<Byte>, data: seq<Byte>, start: nat, n: nat, file: seq<Byte>)
    requires start + n <= |data|
  {
    && (n == 0 ==> file == before)
    && (n > 0 ==> |file| == if start + n > |before| then start + n else |before|)
    && (forall k :: 0 <= k < |file| ==>
          file[k] == if start <= k < start + n then data[k] else if k < |before| then before[k] else 0)
  }

  lemma OverlayIsChunk(before: seq<Byte>, data: seq<Byte>, start: nat, n: nat)
    requires start + n <= |data|
    ensures ChunkIn(before, data, start, n, Overlay(before, start, data[start..start + n]))
  {
    var chunk := data[start..start + n];
    var r := Overlay(before, start, chunk);
    forall k | 0 <= k < |r|
      ensures r[k] == if start <= k < start + n then data[k] else if k < |before| then before[k] else 0
    {
      if start <= k < start + n { assert chunk[k - start] == data[k]; }
    }
  }

  /** What a save leaves on disk, byte by byte, also when only some bytes got out. */
  lemma SavedBytes(s: Storage, start: nat, size: nat, io: Io)
    requires start + size <= |s.data|
    ensures var r := Saved(s, start, size, io);
      && r.data == s.data && !r.first
      && (io.NoOpen? ==> r.file == s.file)
      && (io.Wrote? && s.first ==> r.file == s.data[..Min(io.count, |s.data|)])
      && (io.Wrote? && !s.first ==>
            ChunkIn(if io.kept then s.file else [], s.data, start, Min(io.count, size), r.file))
  {
    if io.Wrote? { OverlayIsChunk(if io.kept then s.file else [], s.data, start, Min(io.count, size)); }
  }

  predicate Full(s: Storage, size: nat, io: Io) {
    io.Wrote? && io.count >= (if s.first then |s.data| else size) && (s.first || io.kept)
  }

  /** Before a chunk is written, the file is already right everywhere else. */
  ghost predicate RightOutside(s: Storage, start: nat, size: nat)
    requires start + size <= |s.data|
  {
    |s.file| <= |s.data| && (size == 0 ==> |s.file| == |s.data|)
    && (start + size == |s.data| || |s.file| == |s.data|)
    && forall k :: 0 <= k < |s.data| && !(start <= k < start + size) && (k < |s.file| || k < start) ==>
         s.data[k] == if k < |s.file| then s.file[k] else 0
  }

  /** A full write leaves file and memory equal exactly when it was the first, or the rest was right already. */
  lemma SaveSyncsIff(s: Storage, start: nat, size: nat, io: Io)
    requires start + size <= |s.data| && Full(s, size, io)
    ensures Saved(s, start, size, io).file == s.data <==> s.first || RightOutside(s, start, size)
  {
    if !s.first {
      var r := Overlay(s.file, start, s.data[start..start + size]);
      assert Saved(s, start, size, io).file == r;
      if RightOutside(s, start, size) { RightGivesData(s, start, size); }
      if r == s.data { DataGivesRight(s, start, size); }
    }
  }

  lemma RightGivesData(s: Storage, start: nat, size: nat)
    requires start + size <= |s.data| && RightOutside(s, start, size)
    ensures Overlay(s.file, start, s.data[start..start + size]) == s.data
  {
    var r := Overlay(s.file, start, s.data[start..start + size]);
    assert |r| == |s.data|;
    assert forall k :: 0 <= k < |r| ==> r[k] == s.data[k];
  }

  lemma DataGivesRight(s: Storage, start: nat, size: nat)
    requires start + size <= |s.data| && Overlay(s.file, start, s.data[start..start + size]) == s.data
    ensures RightOutside(s, start, size)
  {
    var r := Overlay(s.file, start, s.data[start..start + size]);
    forall k | 0 <= k < |s.data| && !(start <= k < start + size) && (k < |s.file| || k < start)
      ensures s.data[k] == if k < |s.file| then s.file[k] else 0
    {
      assert r[k] == s.data[k];
    }
  }

  // ------------------------------------------------------------------ runs

  /** What can happen: the game writes a byte, or a sub-storage saves a range of its window. */
  datatype Event =
    | Poke(at: nat, value: Byte)
    | SubSave(offset: nat, start: nat, size: nat, io: Io)

  /** A storage and the bytes changed since they were last written out. */
  datatype World = World(store: Storage, dirty: set<nat>)

  predicate Possible(e: Event, length: nat) {
    match e
    case Poke(at, _) => at < length
    case SubSave(offset, start, size, _) => offset + start + size <= length
  }

  function Range(lo: nat, hi: nat): (r: set<nat>)
    ensures forall k :: k in r <==> lo <= k < hi
    decreases hi - lo
  {
    if lo >= hi then {} else {lo} + Range(lo + 1, hi)
  }

  function Step(w: World, e: Event): (r: World)
    requires Possible(e, |w.store.data|)
    ensures |r.store.data| == |w.store.data|
  {
    match e
    case Poke(at, value) =>
      World(w.store.(data := w.store.data[at := value]), w.dirty + {at})
    case SubSave(offset, start, size, io) =>
      World(Saved(w.store, offset + start, size, io),
            if !Full(w.store, size, io) then w.dirty
            else if w.store.first then {}
            else w.dirty - Range(offset + start, offset + start + size))
  }

  function Run(w: World, es: seq<Event>): (r: World)
    requires forall k :: 0 <= k < |es| ==> Possible(es[k], |w.store.data|)
    ensures |r.store.data| == |w.store.data|
    decreases |es|
  {
    if es == [] then w else Run(Step(w, es[0]), es[1..])
  }

  /** Past the first save, file and memory differ at most where a change has not been written out. */
  ghost predicate Tracked(w: World) {
    !w.store.first ==>
      |w.store.file| == |w.store.data|
      && forall k :: 0 <= k < |w.store.data| && k !in w.dirty ==> w.store.file[k] == w.store.data[k]
  }

  /** The one write that must not fail is the first; no later one may recreate the file. */
  predicate Sound(first: bool, length: nat, e: Event) {
    e.SubSave? ==> if first then e.io.Wrote? && e.io.count >= length else e.io.Wrote? ==> e.io.kept
  }

  lemma StepTracked(w: World, e: Event)
    requires Possible(e, |w.store.data|) && Tracked(w) && Sound(w.store.first, |w.store.data|, e)
    ensures Tracked(Step(w, e))
  {
    if e.SubSave? && !w.store.first {
      var at := e.offset + e.start;
      var chunk := if e.io.Wrote? then w.store.data[at..at + Min(e.io.count, e.size)] else [];
      assert Step(w, e).store.file == Overlay(w.store.file, at, chunk);
    }
  }

  /** Every save in the run is sound for the state it meets. */
  ghost predicate SoundRun(w: World, es: seq<Event>)
    requires forall k :: 0 <= k < |es| ==> Possible(es[k], |w.store.data|)
    decreases |es|
  {
    es == [] || (Sound(w.store.first, |w.store.data|, es[0]) && SoundRun(Step(w, es[0]), es[1..]))
  }

  lemma {:induction false} RunTracked(w: World, es: seq<Event>)
    requires forall k :: 0 <= k < |es| ==> Possible(es[k], |w.store.data|)
    requires Tracked(w) && SoundRun(w, es)
    ensures Tracked(Run(w, es))
    decreases |es|
  {
    if es != [] {
      StepTracked(w, es[0]);
      RunTracked(Step(w, es[0]), es[1..]);
    }
  }

  function Opened(data: seq<Byte>, file: seq<Byte>): (w: World) {
    World(Storage(data, file, true), {})
  }

  /**
   * After any run from a freshly opened storage whose first save got through,
   * however the sub-storages' saves interleave and whichever of them came
   * first: every byte outside the unsaved changes is on disk, and when nothing
   * is unsaved the file is the memory.
   */
  lemma FileFollowsMemory(data: seq<Byte>, file: seq<Byte>, es: seq<Event>)
    requires forall k :: 0 <= k < |es| ==> Possible(es[k], |data|)
    requires SoundRun(Opened(data, file), es)
    ensures var w := Run(Opened(data, file), es);
            Tracked(w) && (!w.store.first && w.dirty == {} ==> w.store.file == w.store.data)
  {
    RunTracked(Opened(data, file), es);
  }

  /** If a save covers every change since the last one, the file is the memory right after it. */
  lemma CoveringSave(w: World, offset: nat, start: nat, size: nat, io: Io)
    requires Tracked(w) && offset + start + size <= |w.store.data|
    requires Full(w.store, size, io)
    requires w.dirty <= Range(offset + start, offset + start + size)
    ensures var r := Step(w, SubSave(offset, start, size, io)); r.dirty == {} && r.store.file == r.store.data
  {
    var e := SubSave(offset, start, size, io);
    StepTracked(w, e);
    assert Step(w, e).dirty == {};
  }

  /** A sub-storage that saves all its own changes finds its window on disk, whatever its neighbours left unsaved. */
  lemma WindowOnDisk(w: World, offset: nat, length: nat, start: nat, size: nat, io: Io)
    requires Tracked(w) && offset + length <= |w.store.data| && start + size <= length
    requires Full(w.store, size, io)
    requires w.dirty * Range(offset, offset + length) <= Range(offset + start, offset + start + size)
    ensures var r := Step(w, SubSave(offset, start, size, io)).store;
            |r.file| == |r.data| && r.file[offset..offset + length] == r.data[offset..offset + length]
  {
    var e := SubSave(offset, start, size, io);
    StepTracked(w, e);
    var r := Step(w, e);
    forall k | offset <= k < offset + length ensures r.store.file[k] == r.store.data[k] {
      assert k in Range(offset, offset + length);
      assert k !in r.dirty;
    }
  }

  /** Why the first save must get through: nothing writes the rest of the contents later. */
  lemma LostFirstWrite()
    ensures var w := Run(Opened([1, 2], []), [SubSave(0, 0, 2, NoOpen), SubSave(0, 1, 1, Wrote(1, true))]);
            !w.store.first && w.dirty == {} && w.store.file == [0, 2]
  {
    var w := Opened([1, 2], []);
    var es := [SubSave(0, 0, 2, NoOpen), SubSave(0, 1, 1, Wrote(1, true))];
    var v := Step(w, es[0]);
    assert v.store == Storage([1, 2], [], false) && v.dirty == {};
    assert es[1..] == [es[1]] && es[1..][1..] == [];
    assert Run(w, es) == Run(v, es[1..]) == Run(Step(v, es[1]), []);
    assert Step(v, es[1]).store.file == Overlay([], 1, [2]);
  }

  // --------------------------------------------------------- the interface

  /** A storage that owns a file. */
  class FileBackend {
    const data: array<Byte>
    var file: seq<Byte>
    var first: bool

    constructor (data: array<Byte>, file: seq<Byte>)
      ensures this.data == data && this.file == file && first
    {
      this.data := data;
      this.file := file;
      first := true;
    }

    ghost function Contents(): (s: Storage)
      reads this, data
    {
      Storage(data[..], file, first)
    }

    /** file_storage_save; a netplay spectator saves nothing. */
    method Save(start: nat, size: nat, spectator: bool, io: Io)
      requires start + size <= data.Length
      modifies this
      ensures Contents() == if spectator then old(Contents()) else Saved(old(Contents()), start, size, io)
    {
      if spectator { return; }
      ghost var was := Contents();
      if first {
        first := false;
        if io.Wrote? {
          var count := Min(io.count, data.Length);
          assert was.data[..count] == data[..count];
          file := data[..count];
        }
      } else if io.Wrote? {
        var count := Min(io.count, size);
        assert was.data[start..start + count] == data[start..start + count];
        file := Overlay(if io.kept then file else [], start, data[start..start + count]);
      }
    }
  }

  /** A window of a parent's contents, such as one memory pak of the four in a file. */
  class SubStorage {
    const parent: FileBackend
    const offset: nat

    constructor (parent: FileBackend, offset: nat)
      ensures this.parent == parent && this.offset == offset
    {
      this.parent := parent;
      this.offset := offset;
    }

    method Save(start: nat, size: nat, spectator: bool, io: Io)
      requires offset + start + size <= parent.data.Length
      modifies parent
      ensures parent.Contents() == if spectator then old(parent.Contents())
                                   else Saved(old(parent.Contents()), offset + start, size, io)
    {
      parent.Save(offset + start, size, spectator, io);
    }
  }
}
