/** What one sync does to the rows of a path, said of the paths and the files alone: which files are
    indexed, as what, with which rows; which rows stay; and which go. */
module IndexEffects {
  import opened Wrappers
  import opened Chunker
  import opened IndexSpec

  /** The file lies in this folder of the memory directory or of one of its projects. */
  predicate InFolder(p: Path, folder: string) {
    (|p| > 0 && p[0] == folder) || (|p| >= 3 && p[0] == "projects" && p[2] == folder)
  }

  /** Conversations, journals and topics by their folders, everything else unknown; the slug is that of
      the project, for files below one. */
  ghost predicate FiledUnder(p: Path, fileType: string, slug: string) {
    && (InFolder(p, "conversations") ==> fileType == "conversations")
    && (InFolder(p, "journals") ==> fileType == "journals")
    && (InFolder(p, "topics") ==> fileType == "topic")
    && (!InFolder(p, "conversations") && !InFolder(p, "journals") && !InFolder(p, "topics") ==> fileType == "unknown")
    && slug == (if |p| >= 3 && p[0] == "projects" then p[1] else "")
  }

  /** The rows of a path are those of the file: one for each chunk, in order, and one for the whole. */
  ghost predicate RowsAreOf(t: Tables, p: Path, file: File) {
    && p in t.chunks && p in t.files
    && var rows, chunks := t.chunks[p], ChunksOf(file.content);
    && |rows| == |chunks|
    && (forall i :: 0 <= i < |rows| ==> rows[i].content == chunks[i] && rows[i].mtime == file.mtime)
    && (forall i :: 0 <= i < |rows| ==> FiledUnder(p, rows[i].fileType, rows[i].slug))
    && t.files[p].mtime == file.mtime && t.files[p].chunkCount == |chunks| && t.files[p].size == Bytes(file.content)
  }

  /** A markdown file, and not below the logs or the archives of a journals or conversations folder. */
  ghost predicate Wanted(root: string, p: Path) {
    && |p| > 0
    && (var name := p[|p| - 1]; |name| >= 3 && name[|name| - 3] == '.' && name[|name| - 2] == 'm' && name[|name| - 1] == 'd')
    && forall i :: 0 <= i < |p| - 1 && (p[i] == "logs" || p[i] == "archives") ==>
         (var parent := if i == 0 then root else p[i - 1]; parent != "journals" && parent != "conversations")
  }

  /** The sync finds the file. */
  ghost predicate Found(root: string, disk: map<Path, File>, unseen: set<Path>, p: Path) {
    p in disk && p !in unseen && Wanted(root, p)
  }

  lemma IndexableIsWanted(root: string, p: Path)
    ensures Indexable(root, p) <==> Wanted(root, p)
  {
    if p != [] { EndsInMd(p[|p| - 1]); }
  }

  lemma EndsInMd(name: string)
    ensures HasSuffix(name, ".md") <==>
              |name| >= 3 && name[|name| - 3] == '.' && name[|name| - 2] == 'm' && name[|name| - 1] == 'd'
  {
    if |name| >= 3 {
      var end := name[|name| - 3..];
      assert end == [end[0], end[1], end[2]];
    }
  }

  lemma DifferentFolders()
    ensures var c, j, t, p := "conversations", "journals", "topics", "projects";
            c != j && c != t && c != p && j != t && j != p && t != p
  {
    assert "conversations"[0] == 'c' && "journals"[0] == 'j' && "topics"[0] == 't' && "projects"[0] == 'p';
  }

  lemma ClassifyFiles(p: Path)
    ensures FiledUnder(p, Classify(p).0, Classify(p).1)
  {
    DifferentFolders();
  }

  lemma HoldsItsRows(t: Tables, p: Path, file: File)
    requires Holds(t, p, file)
    ensures RowsAreOf(t, p, file)
  {
    hide Classify, FiledUnder, ChunksOf, Bytes;
    ClassifyFiles(p);
  }

  /** One sync, over any tables, any disk and any failures, at any path: a file that is found, whose
      transaction goes through and whose modification time is not the one on record has exactly its rows;
      otherwise the rows of a path stay as they are as long as the file is found, or the transaction that
      would take them away fails; and no other path has rows. */
  lemma SyncExactly(t: Tables, root: string, disk: map<Path, File>, unseen: set<Path>, failing: set<Path>, p: Path)
    requires Recorded(t)
    ensures var after := AfterSync(t, OnDisk(root, disk, unseen), failing);
            var found := Found(root, disk, unseen, p);
            && Recorded(after)
            && if found && p !in failing && (p !in t.files || t.files[p].mtime != disk[p].mtime)
               then RowsAreOf(after, p, disk[p])
               else if p in t.files && (found || p in failing)
               then p in after.files && after.files[p] == t.files[p] && after.chunks[p] == t.chunks[p]
               else p !in after.files && p !in after.chunks
  {
    hide RowsAreOf, Holds, AfterSync, Indexable, Wanted;
    var onDisk := OnDisk(root, disk, unseen);
    IndexableIsWanted(root, p);
    AfterSyncAt(t, onDisk, failing, p);
    if p in Reindexed(t, onDisk, failing) { HoldsItsRows(AfterSync(t, onDisk, failing), p, onDisk[p]); }
  }
}
