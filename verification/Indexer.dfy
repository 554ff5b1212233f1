/** The indexer: its three tables, brought up to date file by file and batch by batch.  Map
    iteration is in any order, transactions fail for any paths, and the embedding provider may fail
    or return the wrong number of vectors at any call.  A vector is represented by the text it was
    made from. */
module Indexer {
  import opened Wrappers
  import opened IndexSpec
  import Chunker

  const BATCH: nat := 100

  datatype Key = Key(path: Path, idx: nat)

  datatype Embedding = Embedding(source: string)

  /** A chunk to be embedded. */
  datatype Pending = Pending(key: Key, content: string)

  /** What a call to the provider comes to. */
  datatype Reply = Vectors | WrongCount | ProviderError

  /** What becomes of the context of a sync: whether it is found cancelled when a loop looks at it for
      the k-th time, and whether the queries of the recorded files and of the missing embeddings fail. */
  datatype Context = Context(
    index: nat -> bool,
    remove: nat -> bool,
    embed: nat -> bool,
    backfill: nat -> bool,
    loadFails: bool,
    queryFails: bool)

  ghost predicate Never(cancelled: nat -> bool) {
    forall k: nat :: !cancelled(k)
  }

  ghost predicate Undisturbed(c: Context) {
    Never(c.index) && Never(c.remove) && Never(c.embed) && Never(c.backfill) && !c.loadFails && !c.queryFails
  }

  /** The first calls report no error, and the later ones, which backfill, all succeed. */
  ghost predicate Healthy(provider: nat -> Reply, calls: nat) {
    (forall i :: 0 <= i < calls ==> provider(i) != ProviderError) && forall i :: i >= calls ==> provider(i) == Vectors
  }

  ghost predicate Untouched(t: Tables, onDisk: map<Path, File>, failing: set<Path>, p: Path) {
    p !in Reindexed(t, onDisk, failing) && p !in Removed(t, onDisk, failing)
  }

  /** Every listed chunk is there with the text it is listed with. */
  ghost predicate PresentIn(chunks: map<Path, seq<ChunkRow>>, list: seq<Pending>) {
    forall i :: 0 <= i < |list| ==>
      var k := list[i].key; k.path in chunks && k.idx < |chunks[k.path]| && list[i].content == chunks[k.path][k.idx].content
  }

  lemma PresentElsewhere(chunks: map<Path, seq<ChunkRow>>, list: seq<Pending>, p: Path, rows: seq<ChunkRow>)
    requires PresentIn(chunks, list) && forall i :: 0 <= i < |list| ==> list[i].key.path != p
    ensures PresentIn(chunks[p := rows], list) && PresentIn(chunks - {p}, list)
  {}

  lemma PresentConcat(chunks: map<Path, seq<ChunkRow>>, a: seq<Pending>, b: seq<Pending>)
    requires PresentIn(chunks, a) && PresentIn(chunks, b)
    ensures PresentIn(chunks, a + b)
  {}

  predicate Listed(list: seq<Pending>, k: Key) {
    exists i :: 0 <= i < |list| && list[i].key == k
  }

  /** Every chunk of these files is listed. */
  ghost predicate ListedIn(chunks: map<Path, seq<ChunkRow>>, list: seq<Pending>, paths: set<Path>) {
    forall p, i :: p in chunks && p in paths && 0 <= i < |chunks[p]| ==> Listed(list, Key(p, i))
  }

  lemma StillListed(
      before: map<Path, seq<ChunkRow>>, after: map<Path, seq<ChunkRow>>, p: Path, put: set<Path>, listed: seq<Pending>, list: seq<Pending>)
    requires ListedIn(before, listed, put) && listed <= list && p !in put
    requires after == before || (p in after && after == before[p := after[p]])
    ensures ListedIn(after, list, put)
    ensures ListedIn(after, list, {p}) ==> ListedIn(after, list, put + {p})
  {
    forall q, i | q in after && q in put && 0 <= i < |after[q]| ensures Listed(list, Key(q, i)) {
      assert Listed(listed, Key(q, i));
      var j :| 0 <= j < |listed| && listed[j].key == Key(q, i);
      assert list[j] == listed[j];
    }
  }

  lemma StillListedWithout(before: map<Path, seq<ChunkRow>>, after: map<Path, seq<ChunkRow>>, list: seq<Pending>, paths: set<Path>)
    requires ListedIn(before, list, paths) && forall p :: p in after ==> p in before && after[p] == before[p]
    ensures ListedIn(after, list, paths)
  {}

  lemma ListedBehind(chunks: map<Path, seq<ChunkRow>>, a: seq<Pending>, b: seq<Pending>, paths: set<Path>)
    requires ListedIn(chunks, b, paths)
    ensures ListedIn(chunks, a + b, paths)
  {
    forall p, i | p in chunks && p in paths && 0 <= i < |chunks[p]| ensures Listed(a + b, Key(p, i)) {
      assert Listed(b, Key(p, i));
      var j :| 0 <= j < |b| && b[j].key == Key(p, i);
      assert (a + b)[|a| + j] == b[j];
    }
  }

  /** The chunk is listed in a batch whose call gave vectors, and its row can be stored. */
  ghost predicate Earned(list: seq<Pending>, calls: nat, provider: nat -> Reply, unstorable: set<Key>, k: Key) {
    k !in unstorable && exists j :: 0 <= j < |list| && list[j].key == k && j / 100 < calls && provider(j / 100) == Vectors
  }

  lemma EarnedStays(list: seq<Pending>, calls: nat, provider: nat -> Reply, unstorable: set<Key>)
    ensures forall k :: Earned(list, calls, provider, unstorable, k) ==> Earned(list, calls + 1, provider, unstorable, k)
  {}

  lemma EarnedMore(list: seq<Pending>, batch: seq<Pending>, start: nat, calls: nat, provider: nat -> Reply, unstorable: set<Key>)
    requires start == calls * BATCH && start < |list|
    requires batch == list[start..if start + BATCH > |list| then |list| else start + BATCH]
    ensures provider(calls) == Vectors ==>
              forall k :: k in KeysOf(batch, unstorable) ==> Earned(list, calls + 1, provider, unstorable, k)
  {
    if provider(calls) == Vectors {
      forall k | k in KeysOf(batch, unstorable) ensures Earned(list, calls + 1, provider, unstorable, k) {
        var i :| 0 <= i < |batch| && batch[i].key == k;
        var j := start + i;
        assert list[j].key == k && j / 100 == calls;
      }
    }
  }

  class Index {
    const root: string
    const hasProvider: bool
    var chunks: map<Path, seq<ChunkRow>>
    var files: map<Path, FileRow>
    var embeddings: map<Key, Embedding>

    function Rows(): Tables
      reads this
    {
      Tables(chunks, files)
    }

    predicate HasChunk(k: Key)
      reads this
    {
      k.path in chunks && k.idx < |chunks[k.path]|
    }

    /** Every embedding is of a chunk there is, and of its present text. */
    ghost predicate Sound()
      reads this
    {
      forall k :: k in embeddings ==> HasChunk(k) && embeddings[k].source == chunks[k.path][k.idx].content
    }

    ghost predicate Complete()
      reads this
    {
      forall k :: HasChunk(k) ==> k in embeddings
    }

    ghost predicate Present(list: seq<Pending>)
      reads this
    {
      PresentIn(chunks, list)
    }

    constructor (memoryDir: string, provider: bool)
      ensures root == memoryDir && hasProvider == provider
      ensures Rows() == EMPTY && embeddings == map[] && Sound()
    {
      root, hasProvider := memoryDir, provider;
      chunks, files, embeddings := map[], map[], map[];
    }

    /** Replaces the rows of a file and drops its embeddings, in one transaction. */
    method IndexFile(p: Path, file: File, fails: bool) returns (ok: bool, indexed: seq<Chunker.Chunk>)
      requires Sound()
      modifies this
      ensures ok == !fails && Sound()
      ensures fails ==> Rows() == old(Rows()) && embeddings == old(embeddings)
      ensures ok ==> Rows() == Tables(old(chunks)[p := RowsOf(p, file)], old(files)[p := FileRowOf(file)])
      ensures ok ==> embeddings == WithoutPaths(old(embeddings), {p})
      ensures ok ==> Chunker.Contents(indexed) == Chunker.ChunksOf(file.content)
                     && forall i :: 0 <= i < |indexed| ==> indexed[i].index == i
    {
      hide Chunker.ChunksOf, Chunker.Bytes, Classify;
      indexed := Chunker.ChunkMarkdown(file.content);
      if fails { return false, []; }
      var (fileType, slug) := Classify(p);
      var rows: seq<ChunkRow> := [];
      for k := 0 to |indexed|
        invariant |rows| == k && forall i :: 0 <= i < k ==> rows[i] == RowsOf(p, file)[i]
      {
        rows := rows + [ChunkRow(indexed[k].content, fileType, slug, file.mtime)];
        assert indexed[k].content == Chunker.Contents(indexed)[k];
      }
      assert rows == RowsOf(p, file);
      chunks := chunks[p := rows];
      embeddings := WithoutPaths(embeddings, {p});
      files := files[p := FileRow(file.mtime, |indexed|, Chunker.Bytes(file.content))];
      ok := true;
    }

    method RemoveFile(p: Path, fails: bool) returns (ok: bool)
      requires Sound()
      modifies this
      ensures ok == !fails && Sound()
      ensures fails ==> Rows() == old(Rows()) && embeddings == old(embeddings)
      ensures ok ==> Rows() == Tables(old(chunks) - {p}, old(files) - {p}) && embeddings == WithoutPaths(old(embeddings), {p})
    {
      if fails { return false; }
      chunks := chunks - {p};
      embeddings := WithoutPaths(embeddings, {p});
      files := files - {p};
      ok := true;
    }

    /** Stores the vectors of a batch; a row that cannot be stored is passed over. */
    method StoreEmbeddings(batch: seq<Pending>, unstorable: set<Key>)
      requires Sound() && Present(batch)
      modifies this`embeddings
      ensures Sound()
      ensures embeddings.Keys == old(embeddings.Keys) + KeysOf(batch, unstorable)
    {
      hide KeysOf;
      NoKeys(unstorable);
      for i := 0 to |batch|
        invariant Sound() && Present(batch)
        invariant embeddings.Keys == old(embeddings.Keys) + KeysOf(batch[..i], unstorable)
      {
        assert batch[..i + 1] == batch[..i] + [batch[i]];
        KeysOfMore(batch[..i], batch[i], unstorable);
        if batch[i].key !in unstorable {
          embeddings := embeddings[batch[i].key := Embedding(batch[i].content)];
        }
      }
      assert batch[..|batch|] == batch;
    }

    /** The calls made for a list: one for every batch. */
    ghost function Calls(list: seq<Pending>): nat {
      (|list| + BATCH - 1) / BATCH
    }

    /** The first n of the list have their embedding, but for those of a batch whose call failed and
        rows that cannot be stored. */
    ghost predicate Embedded(list: seq<Pending>, n: nat, provider: nat -> Reply, first: nat, unstorable: set<Key>)
      reads this
    {
      forall j :: 0 <= j < n && j < |list| && provider(first + j / BATCH) == Vectors && list[j].key !in unstorable
                  ==> list[j].key in embeddings
    }

    /** One batch with the provider's reply to it. */
    method EmbedBatch(batch: seq<Pending>, reply: Reply, unstorable: set<Key>)
      requires Sound() && Present(batch)
      modifies this`embeddings
      ensures Sound()
      ensures embeddings.Keys == old(embeddings.Keys) + if reply == Vectors then KeysOf(batch, unstorable) else {}
    {
      if reply == ProviderError || reply == WrongCount { return; }
      StoreEmbeddings(batch, unstorable);
    }

    /** The batch of the list that begins at `start`, with the next call. */
    method EmbedNext(list: seq<Pending>, start: nat, calls: nat, provider: nat -> Reply, unstorable: set<Key>)
      requires Sound() && Present(list) && start == calls * BATCH && start < |list|
      requires Embedded(list, start, provider, 0, unstorable)
      modifies this`embeddings
      ensures Sound() && Present(list) && old(embeddings.Keys) <= embeddings.Keys
      ensures Embedded(list, start + BATCH, provider, 0, unstorable)
      ensures forall k :: k in embeddings && k !in old(embeddings) ==> Earned(list, calls + 1, provider, unstorable, k)
    {
      hide Earned, KeysOf;
      var batch := list[start..if start + BATCH > |list| then |list| else start + BATCH];
      EarnedMore(list, batch, start, calls, provider, unstorable);
      EmbedBatch(batch, provider(calls), unstorable);
      BatchEmbedded(list, start, calls, 0, provider, unstorable);
    }

    /** One call for every batch until the context is cancelled.  Degraded exactly when some call
        reports an error; a wrong count is passed over in silence. */
    method EmbedChunks(list: seq<Pending>, provider: nat -> Reply, unstorable: set<Key>, cancelled: nat -> bool)
        returns (degraded: bool, calls: nat)
      requires Sound() && Present(list)
      modifies this`embeddings
      ensures Sound() && old(embeddings.Keys) <= embeddings.Keys
      ensures if hasProvider then calls <= Calls(list) && (calls < Calls(list) ==> cancelled(calls)) else calls == 0
      ensures forall k :: 0 <= k < calls ==> !cancelled(k)
      ensures degraded <==> exists i :: 0 <= i < calls && provider(i) == ProviderError
      ensures Embedded(list, calls * BATCH, provider, 0, unstorable)
      ensures forall k :: k in embeddings && k !in old(embeddings) ==> Earned(list, calls, provider, unstorable, k)
    {
      hide Earned, Embedded, Sound, Present;
      degraded, calls := false, 0;
      NothingOwed(list, provider, unstorable);
      if !hasProvider || |list| == 0 { return; }
      var start := 0;
      while start < |list|
        invariant start == calls * BATCH && calls <= Calls(list)
        invariant forall k :: 0 <= k < calls ==> !cancelled(k)
        invariant Sound() && Present(list) && old(embeddings.Keys) <= embeddings.Keys
        invariant degraded <==> exists i :: 0 <= i < calls && provider(i) == ProviderError
        invariant Embedded(list, start, provider, 0, unstorable)
        invariant forall k :: k in embeddings && k !in old(embeddings) ==> Earned(list, calls, provider, unstorable, k)
        decreases |list| - start
      {
        if cancelled(calls) { return; }
        EarnedStays(list, calls, provider, unstorable);
        EmbedNext(list, start, calls, provider, unstorable);
        if provider(calls) == ProviderError { degraded := true; }
        start, calls := start + BATCH, calls + 1;
      }
    }

    lemma NothingOwed(list: seq<Pending>, provider: nat -> Reply, unstorable: set<Key>)
      ensures Embedded(list, 0, provider, 0, unstorable)
    {}

    lemma BatchEmbedded(list: seq<Pending>, start: nat, calls: nat, first: nat, provider: nat -> Reply, unstorable: set<Key>)
      requires start == calls * BATCH && start < |list|
      requires Embedded(list, start, provider, first, unstorable)
      requires provider(first + calls) == Vectors ==>
                 KeysOf(list[start..if start + BATCH > |list| then |list| else start + BATCH], unstorable) <= embeddings.Keys
      ensures Embedded(list, start + BATCH, provider, first, unstorable)
    {
      var batch := list[start..if start + BATCH > |list| then |list| else start + BATCH];
      forall j | start <= j < start + BATCH && j < |list| && provider(first + j / BATCH) == Vectors && list[j].key !in unstorable
        ensures list[j].key in embeddings
      {
        assert j / BATCH == calls;
        assert batch[j - start] == list[j];
        assert list[j].key in KeysOf(batch, unstorable);
      }
    }

    /** The chunks without an embedding. */
    function Missing(): (keys: set<Key>)
      reads this
      ensures forall k :: k in keys <==> HasChunk(k) && k !in embeddings
    {
      set p, i | p in chunks && 0 <= i < |chunks[p]| && Key(p, i) !in embeddings :: Key(p, i)
    }

    /** The chunks without an embedding with their texts, in any order. */
    method MissingChunks() returns (missing: seq<Pending>)
      ensures Present(missing)
      ensures forall k :: Listed(missing, k) <==> k in Missing()
    {
      hide Listed;
      var rest := Missing();
      missing := [];
      NoneListed();
      while rest != {}
        invariant rest <= Missing() && Present(missing)
        invariant forall k :: Listed(missing, k) <==> k in Missing() - rest
        decreases |rest|
      {
        ghost var some := Member(rest);
        assert some in rest;
        var k :| k in rest;
        rest := rest - {k};
        var pending := Pending(k, chunks[k.path][k.idx].content);
        forall l ensures Listed(missing + [pending], l) <==> Listed(missing, l) || l == k { OneMoreListed(missing, pending, l); }
        missing := missing + [pending];
      }
    }

    lemma NoneListed()
      ensures forall k :: !Listed([], k)
    {}

    lemma OneMoreListed(list: seq<Pending>, p: Pending, k: Key)
      ensures Listed(list + [p], k) <==> Listed(list, k) || k == p.key
    {
      assert (list + [p])[|list|] == p;
      if Listed(list, k) {
        var i :| 0 <= i < |list| && list[i].key == k;
        assert (list + [p])[i].key == k;
      }
    }

    /** Embeds the chunks that have no embedding, until the context is cancelled. */
    method BackfillEmbeddings(provider: nat -> Reply, first: nat, unstorable: set<Key>, cancelled: nat -> bool, queryFails: bool)
      requires Sound()
      modifies this`embeddings
      ensures Sound() && old(embeddings.Keys) <= embeddings.Keys
      ensures !hasProvider || queryFails ==> embeddings == old(embeddings)
      ensures hasProvider && !queryFails && Never(cancelled) && unstorable == {} && (forall i :: i >= first ==> provider(i) == Vectors) ==> Complete()
    {
      if !hasProvider || queryFails { return; }
      var missing := MissingChunks();
      if |missing| == 0 {
        assert forall k :: HasChunk(k) && k !in embeddings ==> Listed(missing, k);
        return;
      }
      var start, calls := 0, 0;
      while start < |missing|
        invariant start == calls * BATCH
        invariant Sound() && Present(missing) && old(embeddings.Keys) <= embeddings.Keys
        invariant Embedded(missing, start, provider, first, unstorable)
        decreases |missing| - start
      {
        if cancelled(calls) { return; }
        var batch := missing[start..if start + BATCH > |missing| then |missing| else start + BATCH];
        EmbedBatch(batch, provider(first + calls), unstorable);
        BatchEmbedded(missing, start, calls, first, provider, unstorable);
        start, calls := start + BATCH, calls + 1;
      }
      if unstorable == {} && forall i :: i >= first ==> provider(i) == Vectors {
        forall k | HasChunk(k) ensures k in embeddings {
          if k !in old(embeddings) {
            assert Listed(missing, k);
            var i :| 0 <= i < |missing| && missing[i].key == k;
          }
        }
      }
    }

    /** Every chunk of these files is listed. */
    ghost predicate AllListed(list: seq<Pending>, paths: set<Path>)
      reads this
    {
      ListedIn(chunks, list, paths)
    }

    /** The chunks of a file just indexed, to be embedded. */
    method ListChunks(p: Path, chunkList: seq<Chunker.Chunk>, file: File) returns (list: seq<Pending>)
      requires p in chunks && chunks[p] == RowsOf(p, file)
      requires Chunker.Contents(chunkList) == Chunker.ChunksOf(file.content)
      requires forall i :: 0 <= i < |chunkList| ==> chunkList[i].index == i
      ensures Present(list) && AllListed(list, {p}) && forall i :: 0 <= i < |list| ==> list[i].key.path == p
    {
      hide Chunker.ChunksOf, Classify;
      list := [];
      for k := 0 to |chunkList|
        invariant |list| == k
        invariant forall i :: 0 <= i < k ==> list[i] == Pending(Key(p, i), chunks[p][i].content)
      {
        assert chunkList[k].content == Chunker.Contents(chunkList)[k] == chunks[p][k].content;
        list := list + [Pending(Key(p, chunkList[k].index), chunkList[k].content)];
      }
      assert |list| == |chunks[p]| by { assert |Chunker.Contents(chunkList)| == |chunkList|; }
      forall i | 0 <= i < |chunks[p]| ensures Listed(list, Key(p, i)) { assert list[i].key == Key(p, i); }
    }

    /** One file of the walk: skipped when its recorded modification time is still its own, and left
        as it was when its transaction fails. */
    method IndexIfChanged(p: Path, file: File, indexed: map<Path, FileRow>, fails: bool, pending: seq<Pending>)
        returns (pending': seq<Pending>)
      requires Sound() && Present(pending) && forall i :: 0 <= i < |pending| ==> pending[i].key.path != p
      modifies this
      ensures Sound() && Present(pending')
      ensures pending <= pending' && forall i :: |pending| <= i < |pending'| ==> pending'[i].key.path == p
      ensures if fails || (p in indexed && indexed[p].mtime == file.mtime)
              then Rows() == old(Rows()) && embeddings == old(embeddings) && pending' == pending
              else Rows() == Tables(old(chunks)[p := RowsOf(p, file)], old(files)[p := FileRowOf(file)])
                   && embeddings == WithoutPaths(old(embeddings), {p}) && AllListed(pending', {p})
    {
      hide RowsOf, FileRowOf, WithoutPaths, PresentIn, Sound, ListedIn;
      pending' := pending;
      if p in indexed && indexed[p].mtime == file.mtime { return; }
      PresentElsewhere(chunks, pending, p, RowsOf(p, file));
      var ok, chunkList := IndexFile(p, file, fails);
      if !ok { return; }
      var more := ListChunks(p, chunkList, file);
      PresentConcat(chunks, pending, more);
      pending' := pending + more;
      ListedBehind(chunks, pending, more, {p});
    }

    /** Indexes the new and modified files, in any order, and lists their chunks; when cancelled, the
        files not reached are left as if their transactions had failed. */
    method IndexChanged(onDisk: map<Path, File>, failing: set<Path>, cancelled: nat -> bool)
        returns (pending: seq<Pending>, stopped: bool, ghost unreached: set<Path>)
      requires Sound()
      modifies this
      ensures Sound() && Present(pending)
      ensures unreached <= onDisk.Keys && (!stopped ==> unreached == {}) && (Never(cancelled) ==> !stopped)
      ensures Reindexed(old(Rows()), onDisk, failing + unreached) <= onDisk.Keys
      ensures Rows() == Put(old(Rows()), onDisk, Reindexed(old(Rows()), onDisk, failing + unreached))
      ensures embeddings == WithoutPaths(old(embeddings), Reindexed(old(Rows()), onDisk, failing + unreached))
      ensures forall i :: 0 <= i < |pending| ==> pending[i].key.path in onDisk
      ensures AllListed(pending, Reindexed(old(Rows()), onDisk, failing + unreached))
    {
      hide RowsOf, FileRowOf, Put, WithoutPaths, Reindexed, Unchanged, Sound, Present, ListedIn;
      ghost var t, was := Rows(), embeddings;
      ghost var changed, put: set<Path> := Reindexed(t, onDisk, failing), {};
      var indexed, rest := files, onDisk.Keys;
      pending, stopped, unreached := [], false, {};
      var looks := 0;
      InOnDisk(t, onDisk, failing);
      NothingPut(t, onDisk, was);
      NonePending();
      while rest != {}
        invariant rest <= onDisk.Keys && put == changed - rest && Sound() && Present(pending)
        invariant put <= onDisk.Keys && Rows() == Put(t, onDisk, put) && embeddings == WithoutPaths(was, put)
        invariant forall i :: 0 <= i < |pending| ==> pending[i].key.path in put
        invariant AllListed(pending, put)
        decreases |rest|
      {
        if cancelled(looks) {
          stopped, unreached := true, rest;
          UnreachedFails(t, onDisk, failing, rest);
          return;
        }
        looks := looks + 1;
        ghost var some := Member(rest);
        assert some in rest;
        var p :| p in rest;
        ghost var before, listed := rest, pending;
        rest := rest - {p};
        ghost var chunksBefore := chunks;
        pending := IndexIfChanged(p, onDisk[p], indexed, p in failing, pending);
        StillListed(chunksBefore, chunks, p, put, listed, pending);
        ReindexedMeans(t, onDisk, failing, p);
        OneLess(changed, before, p);
        if p in changed {
          PutMore(t, onDisk, put, p);
          WithoutMore(was, put, p);
          put := put + {p};
          forall i | 0 <= i < |pending| ensures pending[i].key.path in put {
            assert i < |listed| ==> pending[i] == listed[i];
          }
        }
      }
      assert put == changed;
      assert failing + {} == failing;
    }

    lemma NonePending()
      ensures Present([]) && AllListed([], {})
    {}

    /** Takes away the rows of the files that are gone, in any order; the chunks listed for embedding
        are of files that are there. */
    method RemoveGone(onDisk: map<Path, File>, indexed: map<Path, FileRow>, failing: set<Path>, cancelled: nat -> bool, ghost pending: seq<Pending>)
        returns (stopped: bool, ghost unreached: set<Path>)
      requires Sound() && Present(pending) && forall i :: 0 <= i < |pending| ==> pending[i].key.path in onDisk
      modifies this
      ensures Sound() && Present(pending)
      ensures unreached <= indexed.Keys - onDisk.Keys && (!stopped ==> unreached == {}) && (Never(cancelled) ==> !stopped)
      ensures Rows() == Drop(old(Rows()), indexed.Keys - onDisk.Keys - (failing + unreached))
      ensures embeddings == WithoutPaths(old(embeddings), indexed.Keys - onDisk.Keys - (failing + unreached))
    {
      hide Drop, WithoutPaths, Sound, Present;
      ghost var t, was := Rows(), embeddings;
      ghost var gone, dropped: set<Path> := indexed.Keys - onDisk.Keys - failing, {};
      stopped, unreached := false, {};
      var looks := 0;
      var rest := indexed.Keys;
      NothingDropped(t, was);
      assert dropped == gone - rest;
      while rest != {}
        invariant rest <= indexed.Keys && dropped == gone - rest
        invariant Sound() && Present(pending)
        invariant Rows() == Drop(t, dropped) && embeddings == WithoutPaths(was, dropped)
        decreases |rest|
      {
        if cancelled(looks) {
          assert rest - onDisk.Keys <= indexed.Keys - onDisk.Keys;
          stopped, unreached := true, rest - onDisk.Keys;
          UnreachedGone(indexed.Keys, onDisk.Keys, failing, rest);
          return;
        }
        looks := looks + 1;
        ghost var some := Member(rest);
        assert some in rest;
        var p :| p in rest;
        ghost var before := rest;
        rest := rest - {p};
        RemoveIfGone(p, onDisk.Keys, p in failing, pending);
        OneLess(gone, before, p);
        if p in gone {
          DropMore(t, dropped, p);
          WithoutMore(was, dropped, p);
          dropped := dropped + {p};
        }
      }
      NoneLeft(indexed.Keys, onDisk.Keys, failing, rest);
    }

    method RemoveIfGone(p: Path, there: set<Path>, fails: bool, ghost pending: seq<Pending>)
      requires Sound() && Present(pending) && forall i :: 0 <= i < |pending| ==> pending[i].key.path in there
      modifies this
      ensures Sound() && Present(pending)
      ensures if p in there || fails then Rows() == old(Rows()) && embeddings == old(embeddings)
              else Rows() == Tables(old(chunks) - {p}, old(files) - {p}) && embeddings == WithoutPaths(old(embeddings), {p})
    {
      hide WithoutPaths, PresentIn, Sound;
      if p in there { return; }
      PresentElsewhere(chunks, pending, p, []);
      var ok := RemoveFile(p, fails);
    }

    /** Every chunk of these files has an embedding. */
    ghost predicate AllEmbedded(paths: set<Path>)
      reads this
    {
      forall p, i :: p in chunks && p in paths && 0 <= i < |chunks[p]| ==> Key(p, i) in embeddings
    }

    lemma ListedAreEmbedded(list: seq<Pending>, calls: nat, provider: nat -> Reply, unstorable: set<Key>, paths: set<Path>)
      requires Embedded(list, calls * BATCH, provider, 0, unstorable) && calls == Calls(list)
      requires ListedIn(chunks, list, paths)
      ensures unstorable == {} && (forall i :: 0 <= i < calls ==> provider(i) == Vectors) ==> AllEmbedded(paths)
    {
      if unstorable == {} && forall i :: 0 <= i < calls ==> provider(i) == Vectors {
        forall p, i | p in chunks && p in paths && 0 <= i < |chunks[p]| ensures Key(p, i) in embeddings {
          assert Listed(list, Key(p, i));
          var j :| 0 <= j < |list| && list[j].key == Key(p, i);
          assert j / BATCH < calls;
        }
      }
    }

    /** A sync leaves exactly the rows of `AfterSync`, one that is cancelled as if the transactions it
        did not reach had failed.  Whatever fails, every embedding is of a chunk there is and of its text,
        and none is dropped whose file was neither indexed nor removed.  Every chunk has one when nothing
        is cancelled, the first calls report no error and those that backfill succeed; and every chunk of
        the files indexed has one when the first calls all succeed, whatever comes of the backfill. */
    method Sync(disk: map<Path, File>, unseen: set<Path>, failing: set<Path>, c: Context, provider: nat -> Reply, unstorable: set<Key>)
        returns (ok: bool, ghost unreached: set<Path>, ghost calls: nat)
      requires Sound()
      modifies this
      ensures Sound()
      ensures Rows() == AfterSync(old(Rows()), OnDisk(root, disk, unseen), failing + unreached)
      ensures (ok ==> unreached == {}) && (Undisturbed(c) ==> ok)
      ensures forall k :: k in old(embeddings) && Untouched(old(Rows()), OnDisk(root, disk, unseen), failing + unreached, k.path) ==> k in embeddings
      ensures hasProvider && unstorable == {} && Undisturbed(c) && Healthy(provider, calls) ==> Complete()
      ensures ok && hasProvider && unstorable == {} && Never(c.embed) && (forall i :: 0 <= i < calls ==> provider(i) == Vectors) ==>
                AllEmbedded(Reindexed(old(Rows()), OnDisk(root, disk, unseen), failing))
    {
      hide OnDisk, Reindexed, Removed, AfterSync, Put, Drop, Sound, Complete, ListedIn;
      var onDisk := OnDisk(root, disk, unseen);
      ghost var t, was := Rows(), embeddings;
      calls := 0;
      if c.loadFails {
        unreached := onDisk.Keys + files.Keys;
        NothingReached(t, onDisk, failing, unreached);
        return false, unreached, 0;
      }
      var indexed := files;
      var pending, stopped, left := IndexChanged(onDisk, failing, c.index);
      if stopped {
        unreached := left + (indexed.Keys - onDisk.Keys);
        StoppedIndexing(t, onDisk, failing, left);
        return false, unreached, 0;
      }
      ghost var before := Rows();
      var stopped', left' := RemoveGone(onDisk, indexed, failing, c.remove, pending);
      unreached := left';
      StoppedRemoving(t, onDisk, failing, left');
      PutThenDrop(t, onDisk, failing + left');
      assert forall k :: k in was && Untouched(t, onDisk, failing + unreached, k.path) ==> k in embeddings;
      if stopped' { return false, unreached, 0; }
      assert failing + {} == failing;
      DropKeeps(before, indexed.Keys - onDisk.Keys - (failing + left'));
      StillListedWithout(before.chunks, chunks, pending, Reindexed(t, onDisk, failing));
      var degraded, n := EmbedChunks(pending, provider, unstorable, c.embed);
      if hasProvider && Never(c.embed) { ListedAreEmbedded(pending, n, provider, unstorable, Reindexed(t, onDisk, failing)); }
      if !degraded && hasProvider {
        BackfillEmbeddings(provider, n, unstorable, c.backfill, c.queryFails);
      }
      ok, calls := true, n;
    }

    /** Everything is dropped and indexed again. */
    method RebuildIndex(disk: map<Path, File>, unseen: set<Path>, failing: set<Path>, c: Context, provider: nat -> Reply, unstorable: set<Key>)
        returns (ok: bool, ghost unreached: set<Path>, ghost calls: nat)
      modifies this
      ensures Sound()
      ensures Rows() == AfterSync(EMPTY, OnDisk(root, disk, unseen), failing + unreached)
      ensures failing == {} && ok ==> Rows() == Rebuilt(OnDisk(root, disk, unseen))
      ensures (ok ==> unreached == {}) && (Undisturbed(c) ==> ok)
      ensures hasProvider && unstorable == {} && Undisturbed(c) && Healthy(provider, calls) ==> Complete()
    {
      hide OnDisk, AfterSync, Rebuilt, Complete, Reindexed, Removed, Undisturbed;
      chunks, files, embeddings := map[], map[], map[];
      ok, unreached, calls := Sync(disk, unseen, failing, c, provider, unstorable);
      EmptyIsRebuilt(OnDisk(root, disk, unseen));
      assert failing == {} && unreached == {} ==> failing + unreached == {};
    }
  }

  lemma UnreachedFails(t: Tables, onDisk: map<Path, File>, failing: set<Path>, rest: set<Path>)
    ensures Reindexed(t, onDisk, failing + rest) == Reindexed(t, onDisk, failing) - rest
  {
    hide Unchanged;
  }

  lemma NothingReached(t: Tables, onDisk: map<Path, File>, failing: set<Path>, unreached: set<Path>)
    requires unreached == onDisk.Keys + t.files.Keys
    ensures AfterSync(t, onDisk, failing + unreached) == t
  {
    assert Reindexed(t, onDisk, failing + unreached) == {} && Removed(t, onDisk, failing + unreached) == {};
    assert t.chunks - {} + map[] == t.chunks && t.files - {} + map[] == t.files;
  }

  lemma NoneLeft(indexed: set<Path>, there: set<Path>, failing: set<Path>, rest: set<Path>)
    requires rest == {}
    ensures indexed - there - failing - rest == indexed - there - (failing + {})
  {}

  lemma UnreachedGone(indexed: set<Path>, there: set<Path>, failing: set<Path>, rest: set<Path>)
    ensures indexed - there - failing - rest == indexed - there - (failing + (rest - there))
  {}

  /** Cancelled while indexing, a sync removes nothing. */
  lemma StoppedIndexing(t: Tables, onDisk: map<Path, File>, failing: set<Path>, left: set<Path>)
    requires left <= onDisk.Keys
    ensures var unreached := left + (t.files.Keys - onDisk.Keys);
            && Reindexed(t, onDisk, failing + unreached) == Reindexed(t, onDisk, failing + left) <= onDisk.Keys
            && Removed(t, onDisk, failing + unreached) == {}
            && AfterSync(t, onDisk, failing + unreached) == Put(t, onDisk, Reindexed(t, onDisk, failing + left))
  {
    hide Unchanged, AllRows, AllFileRows;
    var unreached := left + (t.files.Keys - onDisk.Keys);
    assert Reindexed(t, onDisk, failing + unreached) == Reindexed(t, onDisk, failing + left);
    assert Removed(t, onDisk, failing + unreached) == {};
    assert t.chunks - {} == t.chunks && t.files - {} == t.files;
  }

  lemma StoppedRemoving(t: Tables, onDisk: map<Path, File>, failing: set<Path>, left: set<Path>)
    requires left <= t.files.Keys - onDisk.Keys
    ensures Reindexed(t, onDisk, failing + left) == Reindexed(t, onDisk, failing + {})
    ensures Removed(t, onDisk, failing + left) == t.files.Keys - onDisk.Keys - (failing + left)
  {
    hide Unchanged;
  }

  function WithoutPaths(embeddings: map<Key, Embedding>, paths: set<Path>): map<Key, Embedding> {
    map k | k in embeddings && k.path !in paths :: embeddings[k]
  }

  lemma OneLess<T>(s: set<T>, rest: set<T>, t: T)
    requires t in rest
    ensures s - (rest - {t}) == s - rest + if t in s then {t} else {}
  {}

  lemma NoKeys(except: set<Key>)
    ensures KeysOf([], except) == {}
  {}

  lemma KeysOfMore(list: seq<Pending>, p: Pending, except: set<Key>)
    ensures KeysOf(list + [p], except) == KeysOf(list, except) + if p.key in except then {} else {p.key}
  {
    var all := list + [p];
    assert all[|list|] == p && forall i :: 0 <= i < |list| ==> all[i] == list[i];
    forall k ensures k in KeysOf(all, except) <==> k in KeysOf(list, except) || (k == p.key && k !in except) {
      if k in KeysOf(list, except) {
        var i :| 0 <= i < |list| && list[i].key == k && list[i].key !in except;
        assert all[i].key == k;
      }
    }
  }

  lemma WithoutMore(embeddings: map<Key, Embedding>, paths: set<Path>, p: Path)
    ensures WithoutPaths(WithoutPaths(embeddings, paths), {p}) == WithoutPaths(embeddings, paths + {p})
    ensures WithoutPaths(embeddings, {}) == embeddings
  {}

  function Put(t: Tables, onDisk: map<Path, File>, paths: set<Path>): Tables
    requires paths <= onDisk.Keys
  {
    Tables(t.chunks + AllRows(onDisk, paths), t.files + AllFileRows(onDisk, paths))
  }

  lemma PutMore(t: Tables, onDisk: map<Path, File>, paths: set<Path>, p: Path)
    requires paths <= onDisk.Keys && p in onDisk
    ensures var u := Put(t, onDisk, paths);
            Put(t, onDisk, paths + {p}) == Tables(u.chunks[p := RowsOf(p, onDisk[p])], u.files[p := FileRowOf(onDisk[p])])
  {
    hide RowsOf, FileRowOf, AllRows, AllFileRows;
    AllRowsMore(onDisk, paths, p);
    AllFileRowsMore(onDisk, paths, p);
    UpdateLast(t.chunks, AllRows(onDisk, paths), p, RowsOf(p, onDisk[p]));
    UpdateLast(t.files, AllFileRows(onDisk, paths), p, FileRowOf(onDisk[p]));
  }

  lemma AllRowsMore(onDisk: map<Path, File>, paths: set<Path>, p: Path)
    requires paths <= onDisk.Keys && p in onDisk
    ensures AllRows(onDisk, paths + {p}) == AllRows(onDisk, paths)[p := RowsOf(p, onDisk[p])]
  {
    hide RowsOf;
    var a, b := AllRows(onDisk, paths + {p}), AllRows(onDisk, paths)[p := RowsOf(p, onDisk[p])];
    assert a.Keys == b.Keys;
    forall q | q in a ensures a[q] == b[q] {}
  }

  lemma AllFileRowsMore(onDisk: map<Path, File>, paths: set<Path>, p: Path)
    requires paths <= onDisk.Keys && p in onDisk
    ensures AllFileRows(onDisk, paths + {p}) == AllFileRows(onDisk, paths)[p := FileRowOf(onDisk[p])]
  {
    hide FileRowOf;
    var a, b := AllFileRows(onDisk, paths + {p}), AllFileRows(onDisk, paths)[p := FileRowOf(onDisk[p])];
    assert a.Keys == b.Keys;
    forall q | q in a ensures a[q] == b[q] {}
  }

  lemma UpdateLast<V>(m: map<Path, V>, put: map<Path, V>, p: Path, v: V)
    ensures m + put[p := v] == (m + put)[p := v]
  {}

  lemma NothingPut(t: Tables, onDisk: map<Path, File>, embeddings: map<Key, Embedding>)
    ensures Put(t, onDisk, {}) == t && WithoutPaths(embeddings, {}) == embeddings
  {
    assert AllRows(onDisk, {}) == map[] && AllFileRows(onDisk, {}) == map[];
  }

  lemma ReindexedMeans(t: Tables, onDisk: map<Path, File>, failing: set<Path>, p: Path)
    ensures p in Reindexed(t, onDisk, failing)
       <==> p in onDisk && p !in failing && !(p in t.files && t.files[p].mtime == onDisk[p].mtime)
  {}

  function Drop(t: Tables, paths: set<Path>): Tables {
    Tables(t.chunks - paths, t.files - paths)
  }

  lemma DropKeeps(t: Tables, paths: set<Path>)
    ensures forall p :: p in Drop(t, paths).chunks ==> p in t.chunks && Drop(t, paths).chunks[p] == t.chunks[p]
  {}

  lemma DropMore(t: Tables, paths: set<Path>, p: Path)
    ensures Drop(t, paths + {p}) == Tables(Drop(t, paths).chunks - {p}, Drop(t, paths).files - {p})
    ensures Drop(t, {}) == t
  {}

  lemma NothingDropped(t: Tables, embeddings: map<Key, Embedding>)
    ensures Drop(t, {}) == t && WithoutPaths(embeddings, {}) == embeddings
  {}

  /** What is indexed and what is removed do not meet, so the order of the two is all one. */
  lemma PutThenDrop(t: Tables, onDisk: map<Path, File>, failing: set<Path>)
    ensures Reindexed(t, onDisk, failing) <= onDisk.Keys
    ensures Drop(Put(t, onDisk, Reindexed(t, onDisk, failing)), Removed(t, onDisk, failing)) == AfterSync(t, onDisk, failing)
  {
    hide RowsOf, FileRowOf, AllRows, AllFileRows, Unchanged;
    var put, drop := Reindexed(t, onDisk, failing), Removed(t, onDisk, failing);
    assert put !! drop;
    PutDropCommute(t.chunks, AllRows(onDisk, put), drop);
    PutDropCommute(t.files, AllFileRows(onDisk, put), drop);
  }

  lemma PutDropCommute<V>(m: map<Path, V>, put: map<Path, V>, drop: set<Path>)
    requires put.Keys !! drop
    ensures m + put - drop == m - drop + put
  {}

  function KeysOf(list: seq<Pending>, except: set<Key>): set<Key> {
    set i | 0 <= i < |list| && list[i].key !in except :: list[i].key
  }
}
