/** What series of `UploadChunk` requests do to the `uploads` folder of the
    ASP.NET controller: a file posted chunk by chunk, in any order, within one
    session folder is published whole; chunks spread over two session folders
    never meet; a chunk index outside 0..totalChunks-1 makes the combine fail
    half-way. */
module SessionRuns {
  import opened Common
  import opened Chunking
  import opened Protocol
  import opened SessionStore
  import opened NumberedFiles
  import opened PostedChunks

  /** The chunk folder of `key`, empty when it does not exist. */
  function FolderOf(d: Disk, key: (string, string)): map<string, Bytes>
  {
    if key in d.chunkDirs then d.chunkDirs[key] else map[]
  }

  /** The posts of an uploader for `file` under `fileName`, chunk idxs[j]
      in the j-th. */
  function Posts(file: Bytes, fileName: string, idxs: seq<nat>): (r: seq<ChunkRequest>)
    ensures |r| == |idxs|
  {
    seq(|idxs|, j requires 0 <= j < |idxs| =>
      ChunkRequest(ChunkBytes(file, CHUNK_SIZE, idxs[j]), fileName, idxs[j], Count(file)))
  }

  lemma PostsPrefix(file: Bytes, fileName: string, idxs: seq<nat>, m: nat)
    requires m <= |idxs|
    ensures Posts(file, fileName, idxs)[..m] == Posts(file, fileName, idxs[..m])
  {
  }

  /** The posts of the first m indices are those of the first m-1 and then
      the post of index idxs[m-1]. */
  lemma PostsSnoc(file: Bytes, fileName: string, idxs: seq<nat>, m: nat)
    requires 1 <= m <= |idxs|
    ensures Posts(file, fileName, idxs[..m]) == Posts(file, fileName, idxs[..m - 1]) +
      [ChunkRequest(ChunkBytes(file, CHUNK_SIZE, idxs[m - 1]), fileName, idxs[m - 1], Count(file))]
  {
    assert idxs[..m][..m - 1] == idxs[..m - 1];
  }

  /** The m-th post of a file stores its chunk: the folder then holds the
      chunks of the first m posts, m files, and nothing else changes. */
  lemma PostStores(b: Disk, session: string, fileName: string, file: Bytes, idxs: seq<nat>, m: nat)
    requires Permutation(idxs, Count(file)) && 1 <= m <= Count(file)
    requires FolderOf(b, (session, fileName)) == DirOf(file, "", idxs[..m - 1])
    ensures var key := (session, fileName); var i := idxs[m - 1];
      var stored := Store(b, session, fileName, IntText(i), ChunkBytes(file, CHUNK_SIZE, i));
      && ChunkBytes(file, CHUNK_SIZE, i) != []
      && stored.chunkDirs[key] == DirOf(file, "", idxs[..m])
      && |stored.chunkDirs[key]| == m
      && stored.chunkDirs - {key} == b.chunkDirs - {key}
      && stored.artifacts == b.artifacts
  {
    var key := (session, fileName);
    var i := idxs[m - 1];
    assert i in idxs;
    ChunkNotEmpty(file, CHUNK_SIZE, i);
    var stored := Store(b, session, fileName, IntText(i), ChunkBytes(file, CHUNK_SIZE, i));
    assert idxs[..m][..m - 1] == idxs[..m - 1];
    PlainNumbered(i);
    assert DirOf(file, "", idxs[..m]) == DirOf(file, "", idxs[..m - 1])[IntText(i) := ChunkBytes(file, CHUNK_SIZE, i)];
    PrefixNoDuplicates(idxs, m);
    DirOfSize(file, "", idxs[..m]);
    assert stored.chunkDirs - {key} == b.chunkDirs - {key};
  }

  /** The m-th of the posts: its chunk and index. */
  lemma PostAt(file: Bytes, fileName: string, idxs: seq<nat>, m: nat)
    requires 1 <= m <= |idxs|
    ensures var r := Posts(file, fileName, idxs)[m - 1];
      && r.chunk == ChunkBytes(file, CHUNK_SIZE, idxs[m - 1])
      && r.chunkIndex == idxs[m - 1] && r.fileName == fileName && r.totalChunks == Count(file)
  {
  }

  /** Before the last chunk of a file arrives, each post is answered with the
      progress count and the folder holds exactly the chunks posted so far;
      nothing else on disk changes. */
  lemma {:induction false} PostsBeforeLast(d: Disk, session: string, fileName: string, file: Bytes, idxs: seq<nat>, m: nat)
    requires (session, fileName) !in d.chunkDirs
    requires Permutation(idxs, Count(file)) && m < Count(file)
    ensures var t := Run(d, session, Posts(file, fileName, idxs[..m]));
      && FolderOf(t.disk, (session, fileName)) == DirOf(file, "", idxs[..m])
      && t.disk.chunkDirs - {(session, fileName)} == d.chunkDirs - {(session, fileName)}
      && t.disk.artifacts == d.artifacts
      && forall j | 0 <= j < m :: t.responses[j] == Progress(CHUNK_MESSAGE, j + 1, Count(file))
  {
    if m == 0 {
      assert Posts(file, fileName, idxs[..0]) == [];
    } else {
      PostsBeforeLast(d, session, fileName, file, idxs, m - 1);
      var i := idxs[m - 1];
      var init := Posts(file, fileName, idxs[..m - 1]);
      var last := ChunkRequest(ChunkBytes(file, CHUNK_SIZE, i), fileName, i, Count(file));
      PostsSnoc(file, fileName, idxs, m);
      var before := Run(d, session, init);
      PostStores(before.disk, session, fileName, file, idxs, m);
      StepProgress(before.disk, session, last.chunk, fileName, i, Count(file));
      RunAppend(d, session, init, last);
    }
  }

  /** A non-empty chunk that does not bring its folder to totalChunks files
      is stored and answered with the folder's count. */
  lemma StepProgress(d: Disk, session: string, chunk: Bytes, fileName: string, chunkIndex: int, totalChunks: int)
    requires chunk != []
    requires |Store(d, session, fileName, IntText(chunkIndex), chunk).chunkDirs[(session, fileName)]| != totalChunks
    ensures var stored := Store(d, session, fileName, IntText(chunkIndex), chunk);
      Step(d, session, Some(chunk), fileName, chunkIndex, totalChunks) ==
      Outcome(stored, Progress(CHUNK_MESSAGE, |stored.chunkDirs[(session, fileName)]|, totalChunks))
  {
  }

  /** A non-empty chunk that brings its folder to totalChunks files starts
      the combine. */
  lemma StepCombine(d: Disk, session: string, chunk: Bytes, fileName: string, chunkIndex: int, totalChunks: int)
    requires chunk != []
    requires |Store(d, session, fileName, IntText(chunkIndex), chunk).chunkDirs[(session, fileName)]| == totalChunks
    ensures Step(d, session, Some(chunk), fileName, chunkIndex, totalChunks) ==
      Combine(Store(d, session, fileName, IntText(chunkIndex), chunk), session, fileName, totalChunks)
  {
  }

  /** A run is the run of all requests but the last, then the last. */
  lemma RunLast(d: Disk, session: string, requests: seq<ChunkRequest>)
    requires requests != []
    ensures var before := Run(d, session, requests[..|requests| - 1]);
      var r := requests[|requests| - 1];
      var o := Step(before.disk, session, Some(r.chunk), r.fileName, r.chunkIndex, r.totalChunks);
      Run(d, session, requests) == Trace(o.disk, before.responses + [o.response])
  {
  }

  /** A run with one more request is a step after the shorter run. */
  lemma RunAppend(d: Disk, session: string, requests: seq<ChunkRequest>, r: ChunkRequest)
    ensures var before := Run(d, session, requests);
      var o := Step(before.disk, session, Some(r.chunk), r.fileName, r.chunkIndex, r.totalChunks);
      Run(d, session, requests + [r]) == Trace(o.disk, before.responses + [o.response])
  {
    assert (requests + [r])[..|requests|] == requests;
  }

  /** Once every chunk 0..n-1 of the file is in its folder and nothing else
      is, the combine publishes the file and deletes the folder. */
  lemma CombineWhole(d: Disk, session: string, fileName: string, file: Bytes, idxs: seq<nat>)
    requires (session, fileName) in d.chunkDirs && d.chunkDirs[(session, fileName)] == DirOf(file, "", idxs)
    requires Permutation(idxs, Count(file))
    ensures Combine(d, session, fileName, Count(file)) ==
      Outcome(d.(artifacts := d.artifacts[(session, fileName) := file],
                 chunkDirs := d.chunkDirs - {(session, fileName)}),
              Completed(COMPLETE_MESSAGE, PublicPath(session, fileName)))
  {
    CopyWhole(file, "", idxs);
  }

  /** The last post of a file, onto a folder holding the other n-1 chunks:
      the combined file is the original and the folder is deleted. */
  lemma LastPostPublishes(b: Disk, session: string, fileName: string, file: Bytes, idxs: seq<nat>)
    requires Permutation(idxs, Count(file)) && file != []
    requires FolderOf(b, (session, fileName)) == DirOf(file, "", idxs[..Count(file) - 1])
    ensures var key := (session, fileName); var i := idxs[Count(file) - 1];
      Step(b, session, Some(ChunkBytes(file, CHUNK_SIZE, i)), fileName, i, Count(file)) ==
      Outcome(b.(uploadsExists := true, sessionDirs := b.sessionDirs + {session},
                 artifacts := b.artifacts[key := file], chunkDirs := b.chunkDirs - {key}),
              Completed(COMPLETE_MESSAGE, PublicPath(session, fileName)))
  {
    var key := (session, fileName);
    var n := Count(file);
    var i := idxs[n - 1];
    PostStores(b, session, fileName, file, idxs, n);
    assert idxs[..n] == idxs;
    var stored := Store(b, session, fileName, IntText(i), ChunkBytes(file, CHUNK_SIZE, i));
    StepCombine(b, session, ChunkBytes(file, CHUNK_SIZE, i), fileName, i, n);
    CombineWhole(stored, session, fileName, file, idxs);
  }

  /** Chunks 0..n-1 of a file posted in any order within one session folder,
      starting with no chunk folder for it: every post but the last is
      answered with the number of chunks received so far, the last with the
      completion and the public path, the combined file is byte for byte the
      original, and the chunk folder is gone. */
  lemma AnyOrderPublishes(d: Disk, session: string, fileName: string, file: Bytes, idxs: seq<nat>)
    requires (session, fileName) !in d.chunkDirs
    requires Permutation(idxs, Count(file)) && file != []
    ensures var t := Run(d, session, Posts(file, fileName, idxs)); var n := Count(file);
      && (forall j | 0 <= j < n - 1 :: t.responses[j] == Progress(CHUNK_MESSAGE, j + 1, n))
      && t.responses[n - 1] == Completed(COMPLETE_MESSAGE, PublicPath(session, fileName))
      && t.disk.artifacts == d.artifacts[(session, fileName) := file]
      && t.disk.chunkDirs == d.chunkDirs
  {
    var key := (session, fileName);
    var n := Count(file);
    var i := idxs[n - 1];
    var init := Posts(file, fileName, idxs[..n - 1]);
    var last := ChunkRequest(ChunkBytes(file, CHUNK_SIZE, i), fileName, i, n);
    PostsSnoc(file, fileName, idxs, n);
    assert idxs[..n] == idxs;
    PostsBeforeLast(d, session, fileName, file, idxs, n - 1);
    var before := Run(d, session, init);
    LastPostPublishes(before.disk, session, fileName, file, idxs);
    RunAppend(d, session, init, last);
    assert d.chunkDirs - {key} == d.chunkDirs;
  }

  /** A chunk that is missing or empty is refused with a 400 reply, and
      nothing on disk changes: not even the uploads or session folder is
      created. */
  lemma EmptyChunkRefused(d: Disk, session: string, chunk: Option<Bytes>, fileName: string, chunkIndex: int, totalChunks: int)
    requires chunk.None? || chunk.value == []
    ensures var o := Step(d, session, chunk, fileName, chunkIndex, totalChunks);
      && o.disk == d
      && o.response.status == BAD_REQUEST_400 && !o.response.success
      && o.response.message == NO_FILE_MESSAGE
  {
  }

  /** Posting an index again replaces its file: the folder keeps its count,
      and the reply reports that count. */
  lemma RepostKeepsCount(d: Disk, session: string, chunk: Bytes, fileName: string, chunkIndex: int, totalChunks: int)
    requires (session, fileName) in d.chunkDirs && IntText(chunkIndex) in d.chunkDirs[(session, fileName)]
    requires chunk != [] && |d.chunkDirs[(session, fileName)]| != totalChunks
    ensures var o := Step(d, session, Some(chunk), fileName, chunkIndex, totalChunks);
      && o.response == Progress(CHUNK_MESSAGE, |d.chunkDirs[(session, fileName)]|, totalChunks)
      && o.disk.chunkDirs[(session, fileName)] == d.chunkDirs[(session, fileName)][IntText(chunkIndex) := chunk]
  {
    var dir := d.chunkDirs[(session, fileName)];
    assert dir[IntText(chunkIndex) := chunk].Keys == dir.Keys;
    StepProgress(d, session, chunk, fileName, chunkIndex, totalChunks);
  }

  /** A folder of n files that holds every chunk file 0..n-1 holds nothing
      else. */
  lemma FullFolderHoldsOnlyChunks(dir: map<string, Bytes>, n: nat)
    requires |dir| == n && FirstMissing(dir, "", n) == n
    ensures |dir - Names("", n)| == 0
  {
    NamesCount("", n);
    forall name | name in Names("", n) ensures name in dir.Keys {
      NameOf("", name, n);
      var i: nat :| i < n && name == Numbered("", i);
      assert Numbered("", i) in dir;
    }
    var extra := dir.Keys - Names("", n);
    assert dir.Keys == Names("", n) + extra;
    assert (dir - Names("", n)).Keys == extra;
  }

  /** The combine a post starts never finds files besides chunks 0..n-1, so
      the folder delete never throws: a post's reply is never the
      "directory is not empty" failure. */
  lemma NeverNotEmpty(d: Disk, session: string, chunk: Option<Bytes>, fileName: string, chunkIndex: int, totalChunks: int)
    ensures Step(d, session, chunk, fileName, chunkIndex, totalChunks).response.message != NOT_EMPTY_MESSAGE
  {
    if chunk.Some? && chunk.value != [] {
      var key := (session, fileName);
      var stored := Store(d, session, fileName, IntText(chunkIndex), chunk.value);
      var n := |stored.chunkDirs[key]|;
      if n == totalChunks {
        StepCombine(d, session, chunk.value, fileName, chunkIndex, totalChunks);
        var dir := stored.chunkDirs[key];
        var k := FirstMissing(dir, "", n);
        if k < n {
          assert MissingFileMessage(ChunkFilePath(session, fileName, k))[0] == 'C';
        } else {
          FullFolderHoldsOnlyChunks(dir, n);
        }
      } else {
        StepProgress(d, session, chunk.value, fileName, chunkIndex, totalChunks);
      }
    }
  }

  /** Two chunks of a two-chunk file posted in different session folders
      (the clock moved on to the next second between them) land in two
      folders of one file each: both are answered with progress 1 of 2 and
      the file is never combined. */
  lemma SessionsNeverMeet(d: Disk, s1: string, s2: string, fileName: string, a: Bytes, b: Bytes)
    requires s1 != s2 && a != [] && b != []
    requires (s1, fileName) !in d.chunkDirs && (s2, fileName) !in d.chunkDirs
    ensures var o1 := Step(d, s1, Some(a), fileName, 0, 2);
      var o2 := Step(o1.disk, s2, Some(b), fileName, 1, 2);
      && o1.response == Progress(CHUNK_MESSAGE, 1, 2)
      && o2.response == Progress(CHUNK_MESSAGE, 1, 2)
      && o2.disk.artifacts == d.artifacts
  {
    StepProgress(d, s1, a, fileName, 0, 2);
    var o1 := Step(d, s1, Some(a), fileName, 0, 2);
    assert (s2, fileName) !in o1.disk.chunkDirs;
    StepProgress(o1.disk, s2, b, fileName, 1, 2);
  }

  /** The names of chunk files 0, 1 and 5. */
  lemma SmallNames()
    ensures IntText(0) == "0" && IntText(1) == "1" && IntText(5) == "5"
    ensures Numbered("", 0) == "0" && Numbered("", 1) == "1"
  {
  }

  /** The combine of a two-chunk file over a folder holding files "0" and
      "5": chunk 0 is copied and deleted, and file "1" is missing. */
  lemma CombineWithStray(d: Disk, session: string, fileName: string, a: Bytes, b: Bytes)
    requires (session, fileName) in d.chunkDirs && d.chunkDirs[(session, fileName)] == map["0" := a, "5" := b]
    ensures var key := (session, fileName);
      Combine(d, session, fileName, 2) ==
      Outcome(d.(artifacts := d.artifacts[key := a], chunkDirs := d.chunkDirs[key := map["5" := b]]),
              Failure(BAD_REQUEST_400, MissingFileMessage(ChunkFilePath(session, fileName, 1))))
  {
    var dir := map["0" := a, "5" := b];
    SmallNames();
    FirstMissingIs(dir, "", 2, 1);
    assert Written(dir, "", 1) == a;
    assert Names("", 1) == {"0"};
    assert dir - Names("", 1) == map["5" := b];
  }

  /** A chunk index outside 0..totalChunks-1 still counts as a file of the
      folder: chunk 0 and then "chunk 5" of a two-chunk file start the
      combine, which copies chunk 0, fails on the missing file "1" with a
      400 reply, and leaves the partial file and the stray chunk behind. */
  lemma StrayIndexBreaksCombine(d: Disk, session: string, fileName: string, a: Bytes, b: Bytes)
    requires a != [] && b != [] && (session, fileName) !in d.chunkDirs
    ensures var key := (session, fileName);
      var o1 := Step(d, session, Some(a), fileName, 0, 2);
      var o2 := Step(o1.disk, session, Some(b), fileName, 5, 2);
      && o1.response == Progress(CHUNK_MESSAGE, 1, 2)
      && o2.response == Failure(BAD_REQUEST_400, MissingFileMessage(ChunkFilePath(session, fileName, 1)))
      && o2.disk.artifacts[key] == a
      && o2.disk.chunkDirs[key] == map[IntText(5) := b]
  {
    var key := (session, fileName);
    SmallNames();
    StepProgress(d, session, a, fileName, 0, 2);
    var o1 := Step(d, session, Some(a), fileName, 0, 2);
    var stored := Store(o1.disk, session, fileName, "5", b);
    assert stored.chunkDirs[key] == map["0" := a, "5" := b];
    StepCombine(o1.disk, session, b, fileName, 5, 2);
    CombineWithStray(stored, session, fileName, a, b);
  }

  /** A combined file whose name contains "_chunks" is never listed. */
  lemma ChunksNamedFileHidden(root: string, key: (string, string))
    requires Contains(key.1, "_chunks")
    ensures !Visible(root, key)
  {
    ContainsSuffix(root + "/" + "uploads/" + key.0 + "/", key.1, "_chunks");
  }

  /** Under a content root whose path contains "_chunks", no file is ever
      listed: the filter looks at the full path. */
  lemma ChunksNamedRootHidesAll(root: string, key: (string, string))
    requires Contains(root, "_chunks")
    ensures !Visible(root, key)
  {
    ContainsPrefix(root, "/" + "uploads/" + key.0 + "/" + key.1, "_chunks");
    assert root + ("/" + "uploads/" + key.0 + "/" + key.1) == root + "/" + "uploads/" + key.0 + "/" + key.1;
  }
}
