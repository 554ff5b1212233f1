/** The search index as two tables kept in step with the markdown files on disk, and a third of
    embeddings.  The rows of one path are kept together, in chunk order. */
module IndexSpec {
  import opened Wrappers
  import opened Chunker

  /** A path relative to the memory directory, split at its slashes. */
  type Path = seq<string>

  /** A modification time as it is formatted for the table. */
  type Mtime = string

  datatype File = File(mtime: Mtime, content: string)

  datatype ChunkRow = ChunkRow(content: string, fileType: string, slug: string, mtime: Mtime)

  datatype FileRow = FileRow(mtime: Mtime, chunkCount: nat, size: nat)

  datatype Tables = Tables(chunks: map<Path, seq<ChunkRow>>, files: map<Path, FileRow>)

  const EMPTY := Tables(map[], map[])

  predicate HasSuffix(s: string, suffix: string) {
    |suffix| <= |s| && s[|s| - |suffix|..] == suffix
  }

  /** The raw logs and archives kept under journals and conversations are not indexed. */
  predicate SkippedDirectory(name: string, parent: string) {
    (name == "logs" || name == "archives") && (parent == "journals" || parent == "conversations")
  }

  /** `root` is the name of the memory directory. */
  predicate Indexable(root: string, path: Path) {
    && path != []
    && HasSuffix(path[|path| - 1], ".md")
    && forall i :: 0 <= i < |path| - 1 ==> !SkippedDirectory(path[i], if i == 0 then root else path[i - 1])
  }

  /** What the walk finds; an entry it cannot examine is passed over. */
  function OnDisk(root: string, disk: map<Path, File>, unseen: set<Path>): map<Path, File> {
    map p | p in disk && p !in unseen && Indexable(root, p) :: disk[p]
  }

  /** The type of a file and its project. */
  function Classify(path: Path): (string, string) {
    if path == [] then ("unknown", "")
    else if path[0] == "conversations" then ("conversations", "")
    else if path[0] == "journals" then ("journals", "")
    else if path[0] == "topics" then ("topic", "")
    else if path[0] == "projects" then
      if |path| < 3 then ("unknown", "")
      else if path[2] == "conversations" then ("conversations", path[1])
      else if path[2] == "journals" then ("journals", path[1])
      else if path[2] == "topics" then ("topic", path[1])
      else ("unknown", path[1])
    else ("unknown", "")
  }

  /** The rows a file should have. */
  function RowsOf(path: Path, file: File): seq<ChunkRow> {
    var (fileType, slug) := Classify(path);
    var contents := ChunksOf(file.content);
    seq(|contents|, i requires 0 <= i < |contents| => ChunkRow(contents[i], fileType, slug, file.mtime))
  }

  function FileRowOf(file: File): FileRow {
    FileRow(file.mtime, |ChunksOf(file.content)|, Bytes(file.content))
  }

  /** A sync leaves the rows of this path alone: the modification time on record is the file's. */
  predicate Unchanged(t: Tables, path: Path, file: File) {
    path in t.files && t.files[path].mtime == file.mtime
  }

  /** The paths a sync indexes again, and those whose rows it takes away. */
  function Reindexed(t: Tables, onDisk: map<Path, File>, failing: set<Path>): set<Path> {
    set p | p in onDisk && p !in failing && !Unchanged(t, p, onDisk[p])
  }

  function Removed(t: Tables, onDisk: map<Path, File>, failing: set<Path>): set<Path> {
    t.files.Keys - onDisk.Keys - failing
  }

  function AllRows(onDisk: map<Path, File>, paths: set<Path>): (m: map<Path, seq<ChunkRow>>)
    requires paths <= onDisk.Keys
    ensures m.Keys == paths
  {
    map p | p in paths :: RowsOf(p, onDisk[p])
  }

  function AllFileRows(onDisk: map<Path, File>, paths: set<Path>): (m: map<Path, FileRow>)
    requires paths <= onDisk.Keys
    ensures m.Keys == paths
  {
    map p | p in paths :: FileRowOf(onDisk[p])
  }

  /** The tables after a sync in which the transactions of some paths fail. */
  function AfterSync(t: Tables, onDisk: map<Path, File>, failing: set<Path>): Tables {
    var reindexed, removed := Reindexed(t, onDisk, failing), Removed(t, onDisk, failing);
    Tables(t.chunks - removed + AllRows(onDisk, reindexed), t.files - removed + AllFileRows(onDisk, reindexed))
  }

  /** What indexing everything from nothing gives. */
  function Rebuilt(onDisk: map<Path, File>): Tables {
    Tables(AllRows(onDisk, onDisk.Keys), AllFileRows(onDisk, onDisk.Keys))
  }

  /** Every path with rows is on record, and the other way round. */
  predicate Recorded(t: Tables) {
    t.chunks.Keys == t.files.Keys
  }

  /** The rows of a path are those of this file. */
  predicate Holds(t: Tables, p: Path, file: File) {
    p in t.files && p in t.chunks && t.files[p] == FileRowOf(file) && t.chunks[p] == RowsOf(p, file)
  }

  lemma EmptyIsRebuilt(onDisk: map<Path, File>)
    ensures AfterSync(EMPTY, onDisk, {}) == Rebuilt(onDisk)
  {
    hide RowsOf, FileRowOf, AllRows, AllFileRows;
    assert Reindexed(EMPTY, onDisk, {}) == onDisk.Keys;
    assert Removed(EMPTY, onDisk, {}) == {};
  }

  /** The rows a sync leaves for a path. */
  lemma AfterSyncAt(t: Tables, onDisk: map<Path, File>, failing: set<Path>, p: Path)
    requires Recorded(t)
    ensures var after := AfterSync(t, onDisk, failing);
            && Recorded(after)
            && (p in Reindexed(t, onDisk, failing) ==> Holds(after, p, onDisk[p]))
            && (p !in Reindexed(t, onDisk, failing) ==>
                  && (p in after.files <==> p in t.files && p !in Removed(t, onDisk, failing))
                  && (p in after.files ==> after.files[p] == t.files[p] && after.chunks[p] == t.chunks[p]))
  {
    hide RowsOf, FileRowOf, Reindexed, Removed;
    assert Reindexed(t, onDisk, failing) <= onDisk.Keys by { InOnDisk(t, onDisk, failing); }
  }

  lemma InOnDisk(t: Tables, onDisk: map<Path, File>, failing: set<Path>)
    ensures Reindexed(t, onDisk, failing) <= onDisk.Keys
  {}

  lemma RebuiltAt(onDisk: map<Path, File>, p: Path)
    ensures var t := Rebuilt(onDisk);
            Recorded(t) && (p in t.files <==> p in onDisk) && (p in onDisk ==> Holds(t, p, onDisk[p]))
  {
    hide RowsOf, FileRowOf;
  }

  /** Tables that agree at every path are equal. */
  lemma SameTables(a: Tables, b: Tables)
    requires Recorded(a) && Recorded(b)
    requires forall p :: p in a.files <==> p in b.files
    requires forall p :: p in a.files ==> a.files[p] == b.files[p] && a.chunks[p] == b.chunks[p]
    ensures a == b
  {
    assert a.files == b.files && a.chunks == b.chunks;
  }

  /** An incremental sync gives what a rebuild gives exactly when every file it skips, because the
      modification time on record is still the file's, has the rows it should have. */
  lemma SyncIsRebuild(t: Tables, onDisk: map<Path, File>)
    requires Recorded(t)
    ensures AfterSync(t, onDisk, {}) == Rebuilt(onDisk)
       <==> forall p :: p in onDisk && Unchanged(t, p, onDisk[p]) ==> Holds(t, p, onDisk[p])
  {
    hide RowsOf, FileRowOf, AfterSync, Rebuilt;
    var after, rebuilt := AfterSync(t, onDisk, {}), Rebuilt(onDisk);
    forall p ensures p in onDisk && Unchanged(t, p, onDisk[p]) && after == rebuilt ==> Holds(t, p, onDisk[p]) {
      AfterSyncAt(t, onDisk, {}, p);
      RebuiltAt(onDisk, p);
    }
    if forall p :: p in onDisk && Unchanged(t, p, onDisk[p]) ==> Holds(t, p, onDisk[p]) {
      RebuiltAt(onDisk, []);
      AfterSyncAt(t, onDisk, {}, []);
      forall p
        ensures p in after.files <==> p in rebuilt.files
        ensures p in after.files ==> after.files[p] == rebuilt.files[p] && after.chunks[p] == rebuilt.chunks[p]
      {
        AfterSyncAt(t, onDisk, {}, p);
        RebuiltAt(onDisk, p);
      }
      SameTables(after, rebuilt);
    }
  }

  // ---------------------------------------------------------------- any sequence of edits

  /** One sync: the files it finds, and the paths whose transactions fail. */
  datatype Round = Round(onDisk: map<Path, File>, failing: set<Path>)

  function AfterRounds(t: Tables, rounds: seq<Round>): Tables {
    if rounds == [] then t else
      var last := rounds[|rounds| - 1];
      AfterSync(AfterRounds(t, rounds[..|rounds| - 1]), last.onDisk, last.failing)
  }

  /** Rounds i and j saw the same modification time at a path. */
  predicate SameMtime(rounds: seq<Round>, i: int, j: int, p: Path) {
    && 0 <= i < |rounds| && 0 <= j < |rounds| && p in rounds[i].onDisk && p in rounds[j].onDisk
    && rounds[i].onDisk[p].mtime == rounds[j].onDisk[p].mtime
  }

  /** A path that has the same modification time twice has the same content both times. */
  ghost predicate MtimesTell(rounds: seq<Round>) {
    forall i, j, p :: SameMtime(rounds, i, j, p) ==> rounds[i].onDisk[p] == rounds[j].onDisk[p]
  }

  predicate SeenBy(rounds: seq<Round>, i: int, t: Tables, p: Path) {
    0 <= i < |rounds| && p in rounds[i].onDisk && Holds(t, p, rounds[i].onDisk[p])
  }

  /** The rows of every path are those of a file some round found there. */
  ghost predicate Traced(t: Tables, rounds: seq<Round>) {
    Recorded(t) && forall p :: p in t.files ==> exists i :: SeenBy(rounds, i, t, p)
  }

  lemma {:induction false} RoundsAreTraced(rounds: seq<Round>)
    ensures Traced(AfterRounds(EMPTY, rounds), rounds)
  {
    hide RowsOf, FileRowOf, AfterSync;
    if rounds != [] {
      var init, n := rounds[..|rounds| - 1], |rounds| - 1;
      RoundsAreTraced(init);
      var t, after := AfterRounds(EMPTY, init), AfterRounds(EMPTY, rounds);
      AfterSyncAt(t, rounds[n].onDisk, rounds[n].failing, []);
      forall p | p in after.files ensures exists i :: SeenBy(rounds, i, after, p) {
        AfterSyncAt(t, rounds[n].onDisk, rounds[n].failing, p);
        if p in Reindexed(t, rounds[n].onDisk, rounds[n].failing) {
          assert SeenBy(rounds, n, after, p);
        } else {
          var i :| SeenBy(init, i, t, p);
          assert SeenBy(rounds, i, after, p);
        }
      }
    }
  }

  /** After any edits and any syncs, however many of their transactions failed, one sync without
      failures gives what a rebuild gives, provided modification times tell contents apart. */
  lemma SyncsEndAsRebuild(rounds: seq<Round>, last: map<Path, File>)
    requires MtimesTell(rounds + [Round(last, {})])
    ensures AfterRounds(EMPTY, rounds + [Round(last, {})]) == Rebuilt(last)
  {
    hide RowsOf, FileRowOf, Rebuilt, AfterSync, Holds, Unchanged, MtimesTell;
    var all := rounds + [Round(last, {})];
    assert all[..|rounds|] == rounds;
    RoundsAreTraced(rounds);
    var t := AfterRounds(EMPTY, rounds);
    forall p | p in last && Unchanged(t, p, last[p]) ensures Holds(t, p, last[p]) {
      SkippedIsHeld(rounds, last, t, p);
    }
    SyncIsRebuild(t, last);
  }

  lemma SkippedIsHeld(rounds: seq<Round>, last: map<Path, File>, t: Tables, p: Path)
    requires MtimesTell(rounds + [Round(last, {})]) && Traced(t, rounds)
    requires p in last && Unchanged(t, p, last[p])
    ensures Holds(t, p, last[p])
  {
    hide RowsOf, FileRowOf;
    var all := rounds + [Round(last, {})];
    var i :| SeenBy(rounds, i, t, p);
    RecordedMtime(t, p, rounds[i].onDisk[p]);
    assert all[i] == rounds[i] && all[|rounds|].onDisk == last;
    assert SameMtime(all, i, |rounds|, p);
  }

  lemma RecordedMtime(t: Tables, p: Path, file: File)
    requires Holds(t, p, file)
    ensures t.files[p].mtime == file.mtime
  {
    hide RowsOf;
  }

  /** The file whose rows a path has after some rounds: the one its last successful indexing read. */
  function LastIndexed(rounds: seq<Round>, p: Path): Option<File> {
    if rounds == [] then None else
      var init, last := rounds[..|rounds| - 1], rounds[|rounds| - 1];
      var t := AfterRounds(EMPTY, init);
      if p in Reindexed(t, last.onDisk, last.failing) then (if p in last.onDisk then Some(last.onDisk[p]) else None)
      else if p in Removed(t, last.onDisk, last.failing) then None
      else LastIndexed(init, p)
  }

  lemma {:induction false} RowsOfLastIndexed(rounds: seq<Round>, p: Path)
    ensures var t := AfterRounds(EMPTY, rounds);
            && Recorded(t) && (p in t.files <==> LastIndexed(rounds, p).Some?)
            && (p in t.files ==> Holds(t, p, LastIndexed(rounds, p).value))
    decreases |rounds|
  {
    hide RowsOf, FileRowOf, AfterSync, Reindexed, Removed;
    if rounds != [] {
      var init, last := rounds[..|rounds| - 1], rounds[|rounds| - 1];
      RowsOfLastIndexed(init, p);
      var t := AfterRounds(EMPTY, init);
      AfterSyncAt(t, last.onDisk, last.failing, p);
      InOnDisk(t, last.onDisk, last.failing);
    }
  }

  /** Nothing in the rows tells the two files apart. */
  predicate SameRows(a: File, b: File) {
    a.mtime == b.mtime && ChunksOf(a.content) == ChunksOf(b.content) && Bytes(a.content) == Bytes(b.content)
  }

  lemma HoldsBoth(t: Tables, p: Path, a: File, b: File)
    requires Holds(t, p, a)
    ensures t.files[p].mtime == a.mtime
    ensures Holds(t, p, b) <==> SameRows(a, b)
  {
    hide Bytes, ChunksOf;
    var rowsA, rowsB := RowsOf(p, a), RowsOf(p, b);
    var ca, cb := ChunksOf(a.content), ChunksOf(b.content);
    assert |rowsA| == |ca| && |rowsB| == |cb|;
    if Holds(t, p, b) {
      assert forall i :: 0 <= i < |ca| ==> ca[i] == rowsA[i].content == rowsB[i].content == cb[i];
      assert ca == cb;
    }
    if SameRows(a, b) { assert rowsA == rowsB; }
  }

  /** The exact condition over every history of edits and syncs: a last sync without failures gives
      what a rebuild gives if and only if, at every path whose recorded modification time is still the
      file's, the file last indexed there has the same chunks and size as the file there now. */
  lemma SyncsEndAsRebuildExactly(rounds: seq<Round>, last: map<Path, File>)
    ensures AfterRounds(EMPTY, rounds + [Round(last, {})]) == Rebuilt(last)
       <==> forall p :: p in last && LastIndexed(rounds, p).Some? && LastIndexed(rounds, p).value.mtime == last[p].mtime
                        ==> SameRows(LastIndexed(rounds, p).value, last[p])
  {
    hide Rebuilt, AfterSync, Holds, LastIndexed, SameRows;
    var t := AfterRounds(EMPTY, rounds);
    assert (rounds + [Round(last, {})])[..|rounds|] == rounds;
    RowsOfLastIndexed(rounds, []);
    SyncIsRebuild(t, last);
    forall p | p in last
      ensures (Unchanged(t, p, last[p]) ==> Holds(t, p, last[p])) <==>
              (LastIndexed(rounds, p).Some? && LastIndexed(rounds, p).value.mtime == last[p].mtime
               ==> SameRows(LastIndexed(rounds, p).value, last[p]))
    {
      RowsOfLastIndexed(rounds, p);
      if p in t.files { HoldsBoth(t, p, LastIndexed(rounds, p).value, last[p]); }
    }
  }

  /** Without that proviso it need not: an edit that keeps the modification time is missed. */
  lemma SameMtimeIsMissed(p: Path, mtime: Mtime, before: string, after: string)
    requires Bytes(before) != Bytes(after)
    ensures var old_, new_ := map[p := File(mtime, before)], map[p := File(mtime, after)];
            AfterRounds(EMPTY, [Round(old_, {}), Round(new_, {})]) == Rebuilt(old_) != Rebuilt(new_)
  {
    hide RowsOf, FileRowOf, Rebuilt, AfterSync;
    var old_, new_ := map[p := File(mtime, before)], map[p := File(mtime, after)];
    var one, both := [Round(old_, {})], [Round(old_, {}), Round(new_, {})];
    assert both[..1] == one && one[..0] == [];
    assert AfterRounds(EMPTY, []) == EMPTY;
    EmptyIsRebuilt(old_);
    assert AfterRounds(EMPTY, one) == Rebuilt(old_);
    EditIsSkipped(p, mtime, before, after);
  }

  lemma EditIsSkipped(p: Path, mtime: Mtime, before: string, after: string)
    requires Bytes(before) != Bytes(after)
    ensures var old_, new_ := map[p := File(mtime, before)], map[p := File(mtime, after)];
            AfterSync(Rebuilt(old_), new_, {}) == Rebuilt(old_) != Rebuilt(new_)
  {
    hide RowsOf, Bytes, Rebuilt, AfterSync, Reindexed, Removed;
    var old_, new_ := map[p := File(mtime, before)], map[p := File(mtime, after)];
    var t := Rebuilt(old_);
    RebuiltAt(old_, p);
    RebuiltAt(new_, p);
    assert t.files[p].size != Rebuilt(new_).files[p].size;
    forall q ensures q in t.files <==> q == p { RebuiltAt(old_, q); }
    NothingToDo(t, new_);
  }

  /** A sync that finds the recorded modification times, and no file gone, changes nothing. */
  lemma NothingToDo(t: Tables, onDisk: map<Path, File>)
    requires forall p :: p in t.files <==> p in onDisk
    requires forall p :: p in onDisk ==> Unchanged(t, p, onDisk[p])
    ensures AfterSync(t, onDisk, {}) == t
  {
    hide AllRows, AllFileRows;
    assert Reindexed(t, onDisk, {}) == {} && Removed(t, onDisk, {}) == {};
    assert AllRows(onDisk, {}) == map[] && AllFileRows(onDisk, {}) == map[];
  }
}
