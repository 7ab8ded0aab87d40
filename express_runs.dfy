/** What series of posts do to the `uploads` folder of the Express server:
    the chunks of a file posted in any order are combined into the file;
    a file whose name makes the split at "_chunk_" land elsewhere is never
    combined; a second upload of a combined name is refused by the
    middleware; a chunk index outside 0..totalChunks-1 destroys the chunks
    copied before the failure; and nothing the server creates is hidden from
    `/files`. */
module ExpressRuns {
  import opened Common
  import opened Chunking
  import opened Protocol
  import opened NumberedFiles
  import opened PostedChunks
  import opened ExpressServer

  /** The file name of chunk i of `filename`, as the client names it. */
  function ChunkName(filename: string, i: nat): string
  {
    Numbered(ChunkPrefix(filename), i)
  }

  /** The first "_chunk_" of `{filename}_chunk_` is the one the client
      appended, so that splitting a chunk name gives `filename` back. */
  predicate SplitsBack(filename: string)
  {
    NoOccurrenceBefore(ChunkPrefix(filename), SEPARATOR, |filename|)
  }

  /** The chunks of `filename` are written to the folder the handler reads
      exactly when the name splits back. */
  lemma ChunkFolder(filename: string, i: nat)
    ensures Destination(ChunkName(filename, i)) == filename <==> SplitsBack(filename)
  {
    var p := ChunkPrefix(filename);
    var s := ChunkName(filename, i);
    var f := |filename|;
    assert s == p + Decimal(i);
    assert |p| == f + |SEPARATOR|;
    forall q | 0 <= q < f ensures StartsWith(s[q..], SEPARATOR) <==> StartsWith(p[q..], SEPARATOR) {
      assert s[q..][..|SEPARATOR|] == p[q..][..|SEPARATOR|];
    }
    if SplitsBack(filename) {
      assert s[f..][..|SEPARATOR|] == SEPARATOR;
      PrefixBeforeFirst(s, SEPARATOR, f);
      assert s[..f] == filename;
    } else {
      var q :| 0 <= q < f && q <= |p| && StartsWith(p[q..], SEPARATOR);
      PrefixBeforeShort(s, SEPARATOR, q);
    }
  }

  /** "my_chunk" does not split back: its chunks go to folder "my". */
  lemma OverlappingName()
    ensures !SplitsBack("my_chunk")
  {
    var p := ChunkPrefix("my_chunk");
    assert p == "my_chunk_chunk_";
    assert p[2..][..7] == "_chunk_";
  }

  /** The post of chunk i of `file` under `filename`. */
  function ChunkPost(file: Bytes, filename: string, i: nat): Post
  {
    Post(Some(Part(ChunkName(filename, i), ChunkBytes(file, CHUNK_SIZE, i))), filename, Count(file))
  }

  /** The posts of the client for `file` under `filename`, chunk idxs[j] in
      the j-th. */
  function Posts(file: Bytes, filename: string, idxs: seq<nat>): (r: seq<Post>)
    ensures |r| == |idxs|
  {
    seq(|idxs|, j requires 0 <= j < |idxs| => ChunkPost(file, filename, idxs[j]))
  }

  /** The posts of the first m indices are those of the first m-1 and then
      the post of idxs[m-1]. */
  lemma PostsSnoc(file: Bytes, filename: string, idxs: seq<nat>, m: nat)
    requires 1 <= m <= |idxs|
    ensures Posts(file, filename, idxs[..m]) == Posts(file, filename, idxs[..m - 1]) + [ChunkPost(file, filename, idxs[m - 1])]
  {
    assert idxs[..m][..m - 1] == idxs[..m - 1];
  }

  /** A run with one more post is a step after the shorter run. */
  lemma RunAppend(u: Uploads, posts: seq<Post>, post: Post)
    ensures var before := Run(u, posts); var d := Step(before.uploads, post);
      Run(u, posts + [post]) == Trace(d.uploads, before.replies + [d.reply])
  {
    assert (posts + [post])[..|posts|] == posts;
  }

  /** `filename` is absent or a folder. */
  predicate Settled(u: Uploads, filename: string)
  {
    filename !in u || u[filename].Folder?
  }

  /** The files of the folder `filename`, none when it does not exist. */
  function FolderOf(u: Uploads, filename: string): map<string, Bytes>
  {
    if filename in u && u[filename].Folder? then u[filename].files else map[]
  }

  /** The handler counts every file of a folder of chunk posts. */
  lemma CountedAll(file: Bytes, filename: string, idxs: seq<nat>)
    requires NoDuplicates(idxs)
    ensures |Counted(DirOf(file, ChunkPrefix(filename), idxs), filename)| == |idxs|
  {
    var p := ChunkPrefix(filename);
    var dir := DirOf(file, p, idxs);
    forall name | name in dir ensures StartsWith(name, p) {
      DirOfNames(file, p, idxs, name);
    }
    assert Counted(dir, filename) == dir.Keys;
    DirOfSize(file, p, idxs);
  }

  /** The m-th post of a file whose name splits back stores its chunk in the
      folder `filename`, which then holds the first m chunks posted. */
  lemma PostStores(b: Uploads, filename: string, file: Bytes, idxs: seq<nat>, m: nat)
    requires SplitsBack(filename) && Permutation(idxs, Count(file)) && 1 <= m <= Count(file)
    requires Settled(b, filename) && FolderOf(b, filename) == DirOf(file, ChunkPrefix(filename), idxs[..m - 1])
    ensures var i := idxs[m - 1];
      Receive(b, ChunkName(filename, i), ChunkBytes(file, CHUNK_SIZE, i)) ==
      Some(b[filename := Folder(DirOf(file, ChunkPrefix(filename), idxs[..m]))])
    ensures |Counted(DirOf(file, ChunkPrefix(filename), idxs[..m]), filename)| == m
  {
    var i := idxs[m - 1];
    ChunkFolder(filename, i);
    assert idxs[..m][..m - 1] == idxs[..m - 1];
    PrefixNoDuplicates(idxs, m);
    CountedAll(file, filename, idxs[..m]);
  }

  /** A post whose part the middleware stores is then handled. */
  lemma StepStored(b: Uploads, post: Post, received: Uploads)
    requires post.part.Some? && Receive(b, post.part.value.originalname, post.part.value.data) == Some(received)
    ensures var o := Handle(received, post.filename, post.totalChunks);
      Step(b, post) == Delivery(o.uploads, Answer(o.response))
  {
  }

  /** A folder whose count is not totalChunks is left as it is, and the
      reply reports the count. */
  lemma HandleProgress(r: Uploads, filename: string, totalChunks: int)
    requires filename in r && r[filename].Folder? && |Counted(r[filename].files, filename)| != totalChunks
    ensures Handle(r, filename, totalChunks) ==
      Outcome(r, Progress(CHUNK_MESSAGE, |Counted(r[filename].files, filename)|, totalChunks))
  {
  }

  /** A folder whose count is totalChunks is combined. */
  lemma HandleCombine(r: Uploads, filename: string, totalChunks: nat)
    requires filename in r && r[filename].Folder? && |Counted(r[filename].files, filename)| == totalChunks
    ensures Handle(r, filename, totalChunks) == Combine(r, filename, totalChunks)
  {
  }

  /** A combine that finds every chunk file and nothing else replaces the
      folder with the file. */
  lemma CombineDone(r: Uploads, filename: string, n: nat)
    requires filename in r && r[filename].Folder?
    requires FirstMissing(r[filename].files, ChunkPrefix(filename), n) == n
    requires r[filename].files - Names(ChunkPrefix(filename), n) == map[]
    ensures Combine(r, filename, n) ==
      Outcome(r[filename := Blob(Written(r[filename].files, ChunkPrefix(filename), n))],
              Completed(COMPLETE_MESSAGE, PublicPath(filename)))
  {
  }

  /** A stored chunk that leaves the count below totalChunks: the reply
      reports the count and the folder keeps the chunk. */
  lemma ProgressStep(b: Uploads, post: Post, received: Uploads, count: nat)
    requires post.part.Some? && Receive(b, post.part.value.originalname, post.part.value.data) == Some(received)
    requires post.filename in received && received[post.filename].Folder?
    requires |Counted(received[post.filename].files, post.filename)| == count != post.totalChunks
    ensures Step(b, post) == Delivery(received, Answer(Progress(CHUNK_MESSAGE, count, post.totalChunks)))
  {
    StepStored(b, post, received);
    HandleProgress(received, post.filename, post.totalChunks);
  }

  /** A stored chunk that completes a folder holding exactly the chunk
      files 0..n-1: the file they make up takes the folder's place. */
  lemma PublishStep(b: Uploads, post: Post, received: Uploads, data: Bytes)
    requires post.part.Some? && Receive(b, post.part.value.originalname, post.part.value.data) == Some(received)
    requires post.filename in received && received[post.filename].Folder? && post.totalChunks >= 0
    requires var dir := received[post.filename].files; var p := ChunkPrefix(post.filename); var n := post.totalChunks;
      && |Counted(dir, post.filename)| == n
      && FirstMissing(dir, p, n) == n && dir - Names(p, n) == map[] && Written(dir, p, n) == data
    ensures Step(b, post) ==
      Delivery(received[post.filename := Blob(data)], Answer(Completed(COMPLETE_MESSAGE, PublicPath(post.filename))))
  {
    StepStored(b, post, received);
    HandleCombine(received, post.filename, post.totalChunks);
    CombineDone(received, post.filename, post.totalChunks);
  }

  /** Progress replies 1..m-1 followed by progress m. */
  lemma ProgressReplies(replies: seq<Reply>, m: nat, n: int)
    requires |replies| == m - 1
    requires forall j | 0 <= j < m - 1 :: replies[j] == Answer(Progress(CHUNK_MESSAGE, j + 1, n))
    ensures var r := replies + [Answer(Progress(CHUNK_MESSAGE, m, n))];
      forall j | 0 <= j < m :: r[j] == Answer(Progress(CHUNK_MESSAGE, j + 1, n))
  {
  }

  /** Before the last chunk arrives, each post is answered with the number
      of chunks received so far; the folder holds exactly those chunks and no
      other entry changes. */
  lemma {:induction false} PostsBeforeLast(u: Uploads, filename: string, file: Bytes, idxs: seq<nat>, m: nat)
    requires filename !in u && SplitsBack(filename)
    requires Permutation(idxs, Count(file)) && m < Count(file)
    ensures var t := Run(u, Posts(file, filename, idxs[..m]));
      && Settled(t.uploads, filename)
      && FolderOf(t.uploads, filename) == DirOf(file, ChunkPrefix(filename), idxs[..m])
      && t.uploads - {filename} == u - {filename}
      && forall j | 0 <= j < m :: t.replies[j] == Answer(Progress(CHUNK_MESSAGE, j + 1, Count(file)))
  {
    if m == 0 {
      assert Posts(file, filename, idxs[..0]) == [];
    } else {
      PostsBeforeLast(u, filename, file, idxs, m - 1);
      var init := Posts(file, filename, idxs[..m - 1]);
      var post := ChunkPost(file, filename, idxs[m - 1]);
      PostsSnoc(file, filename, idxs, m);
      var before := Run(u, init);
      PostStores(before.uploads, filename, file, idxs, m);
      var received := before.uploads[filename := Folder(DirOf(file, ChunkPrefix(filename), idxs[..m]))];
      ProgressStep(before.uploads, post, received, m);
      RunAppend(u, init, post);
      ProgressReplies(before.replies, m, Count(file));
      SetElsewhere(before.uploads, filename, Folder(DirOf(file, ChunkPrefix(filename), idxs[..m])));
    }
  }

  /** The last post onto a folder holding the other chunks: the combine
      writes the original file in place of the folder. */
  lemma LastPostPublishes(b: Uploads, filename: string, file: Bytes, idxs: seq<nat>)
    requires SplitsBack(filename) && Permutation(idxs, Count(file)) && file != []
    requires Settled(b, filename) && FolderOf(b, filename) == DirOf(file, ChunkPrefix(filename), idxs[..Count(file) - 1])
    ensures Step(b, ChunkPost(file, filename, idxs[Count(file) - 1])) ==
      Delivery(b[filename := Blob(file)], Answer(Completed(COMPLETE_MESSAGE, PublicPath(filename))))
  {
    var n := Count(file);
    PostStores(b, filename, file, idxs, n);
    assert idxs[..n] == idxs;
    var p := ChunkPrefix(filename);
    var received := b[filename := Folder(DirOf(file, p, idxs))];
    CopyWhole(file, p, idxs);
    PublishStep(b, ChunkPost(file, filename, idxs[n - 1]), received, file);
    SetAgain(received, b, filename, Blob(file));
  }

  /** Chunks 0..n-1 of a non-empty file posted in any order under a name
      that splits back and has no entry yet: every post but the last is
      answered with the count so far, the last with the completion and the
      public path, the file is stored byte for byte and no other entry
      changes. */
  lemma AnyOrderPublishes(u: Uploads, filename: string, file: Bytes, idxs: seq<nat>)
    requires filename !in u && SplitsBack(filename)
    requires Permutation(idxs, Count(file)) && file != []
    ensures var t := Run(u, Posts(file, filename, idxs)); var n := Count(file);
      && (forall j | 0 <= j < n - 1 :: t.replies[j] == Answer(Progress(CHUNK_MESSAGE, j + 1, n)))
      && t.replies[n - 1] == Answer(Completed(COMPLETE_MESSAGE, PublicPath(filename)))
      && t.uploads == u[filename := Blob(file)]
  {
    var n := Count(file);
    var init := Posts(file, filename, idxs[..n - 1]);
    var post := ChunkPost(file, filename, idxs[n - 1]);
    PostsSnoc(file, filename, idxs, n);
    assert idxs[..n] == idxs;
    PostsBeforeLast(u, filename, file, idxs, n - 1);
    var before := Run(u, init);
    LastPostPublishes(before.uploads, filename, file, idxs);
    RunAppend(u, init, post);
    SetAgain(before.uploads, u, filename, Blob(file));
  }

  /** Posts for `filename` whose parts never land in folder `filename` find
      no folder to read: every one fails, as a 500 reply or Express's error
      page, and `filename` never appears. */
  lemma {:induction false} NoFolderNoUpload(u: Uploads, filename: string, posts: seq<Post>)
    requires filename !in u
    requires forall post | post in posts :: post.filename == filename
    requires forall post | post in posts && post.part.Some? :: Destination(post.part.value.originalname) != filename
    ensures var t := Run(u, posts);
      && filename !in t.uploads
      && forall j | 0 <= j < |posts| :: t.replies[j] in {Lost, Answer(Failure(SERVER_ERROR_500, ERROR_MESSAGE))}
  {
    if posts != [] {
      var init, post := posts[..|posts| - 1], posts[|posts| - 1];
      assert posts == init + [post];
      NoFolderNoUpload(u, filename, init);
      RunAppend(u, init, post);
    }
  }

  /** A file whose name does not split back is never combined: every post
      of the client fails and no entry of that name appears. */
  lemma MisplacedChunksFail(u: Uploads, filename: string, file: Bytes, idxs: seq<nat>)
    requires filename !in u && !SplitsBack(filename)
    ensures var t := Run(u, Posts(file, filename, idxs));
      && filename !in t.uploads
      && forall j | 0 <= j < |idxs| :: t.replies[j] in {Lost, Answer(Failure(SERVER_ERROR_500, ERROR_MESSAGE))}
  {
    var posts := Posts(file, filename, idxs);
    forall post | post in posts && post.part.Some?
      ensures Destination(post.part.value.originalname) != filename
    {
      var j :| 0 <= j < |posts| && posts[j] == post;
      ChunkFolder(filename, idxs[j]);
    }
    NoFolderNoUpload(u, filename, posts);
  }

  /** Once `filename` is a combined file, the middleware cannot write a
      chunk of it into a folder of that name: a second upload of the same
      name is answered with the error page and changes nothing. */
  lemma ReuploadRefused(u: Uploads, filename: string, file: Bytes, i: nat)
    requires filename in u && u[filename].Blob? && SplitsBack(filename)
    ensures Step(u, ChunkPost(file, filename, i)) == Delivery(u, Lost)
  {
    ChunkFolder(filename, i);
  }

  /** A chunk index outside 0..totalChunks-1 completes the count: after
      chunk 0 and "chunk 5" of a two-chunk file, the combine reads and
      deletes chunk 0, fails on the missing chunk 1 with the 500 reply, and
      leaves only the stray chunk: chunk 0 is lost and no file is written. */
  lemma StrayIndexLosesChunk(u: Uploads, filename: string, a: Bytes, b: Bytes)
    requires filename !in u && SplitsBack(filename)
    ensures var p0 := Post(Some(Part(ChunkName(filename, 0), a)), filename, 2);
      var p1 := Post(Some(Part(ChunkName(filename, 5), b)), filename, 2);
      var d0 := Step(u, p0);
      var d1 := Step(d0.uploads, p1);
      && d0.reply == Answer(Progress(CHUNK_MESSAGE, 1, 2))
      && d1.reply == Answer(Failure(SERVER_ERROR_500, ERROR_MESSAGE))
      && d1.uploads == u[filename := Folder(map[ChunkName(filename, 5) := b])]
  {
    StrayFirst(u, filename, a);
    StraySecond(u, filename, a, b);
  }

  /** Chunk 0 of two starts the folder and is answered with progress 1. */
  lemma StrayFirst(u: Uploads, filename: string, a: Bytes)
    requires filename !in u && SplitsBack(filename)
    ensures Step(u, Post(Some(Part(ChunkName(filename, 0), a)), filename, 2)) ==
      Delivery(u[filename := Folder(map[][ChunkName(filename, 0) := a])], Answer(Progress(CHUNK_MESSAGE, 1, 2)))
  {
    var n0 := ChunkName(filename, 0);
    ChunkFolder(filename, 0);
    var first: map<string, Bytes> := map[][n0 := a];
    ReceiveInto(u, n0, a, map[]);
    assert Counted(first, filename) == {n0};
    ProgressStep(u, Post(Some(Part(n0, a)), filename, 2), u[filename := Folder(first)], 1);
  }

  /** "Chunk 5" onto that folder completes the count and breaks the
      combine. */
  lemma StraySecond(u: Uploads, filename: string, a: Bytes, b: Bytes)
    requires SplitsBack(filename)
    ensures var u0 := u[filename := Folder(map[][ChunkName(filename, 0) := a])];
      Step(u0, Post(Some(Part(ChunkName(filename, 5), b)), filename, 2)) ==
      Delivery(u[filename := Folder(map[ChunkName(filename, 5) := b])], Answer(Failure(SERVER_ERROR_500, ERROR_MESSAGE)))
  {
    var n0, n5 := ChunkName(filename, 0), ChunkName(filename, 5);
    StrayNames(filename);
    ChunkFolder(filename, 5);
    var first: map<string, Bytes> := map[][n0 := a];
    var u0 := u[filename := Folder(first)];
    var dir := first[n5 := b];
    var u1 := u0[filename := Folder(dir)];
    ReceiveInto(u0, n5, b, first);
    assert Counted(dir, filename) == {n0, n5};
    StepStored(u0, Post(Some(Part(n5, b)), filename, 2), u1);
    HandleCombine(u1, filename, 2);
    CombineStray(u1, filename, a, b);
    SetElsewhere(u, filename, Folder(first));
    SetElsewhere(u0, filename, Folder(dir));
    SetAgain(u1, u, filename, Folder(map[n5 := b]));
  }

  /** The middleware writes a part into its destination folder, which holds
      `files` (none when it does not exist yet). */
  lemma ReceiveInto(u: Uploads, name: string, data: Bytes, files: map<string, Bytes>)
    requires Destination(name) in u ==> u[Destination(name)] == Folder(files)
    requires Destination(name) !in u ==> files == map[]
    ensures Receive(u, name, data) == Some(u[Destination(name) := Folder(files[name := data])])
  {
  }

  /** Chunk files 0, 1 and 5 of a file have three distinct names. */
  lemma StrayNames(filename: string)
    ensures ChunkName(filename, 0) != ChunkName(filename, 5)
    ensures ChunkName(filename, 1) != ChunkName(filename, 5)
    ensures Names(ChunkPrefix(filename), 1) == {ChunkName(filename, 0)}
  {
    var p := ChunkPrefix(filename);
    if ChunkName(filename, 0) == ChunkName(filename, 5) {
      NumberedInjective(p, 0, 5);
    }
    if ChunkName(filename, 1) == ChunkName(filename, 5) {
      NumberedInjective(p, 1, 5);
    }
  }

  /** The combine of two chunks over a folder holding chunk files 0 and 5:
      chunk 0 is copied and deleted, chunk 1 is missing, chunk 5 stays. */
  lemma CombineStray(r: Uploads, filename: string, a: Bytes, b: Bytes)
    requires filename in r && r[filename] == Folder(map[ChunkName(filename, 0) := a][ChunkName(filename, 5) := b])
    ensures Combine(r, filename, 2) ==
      Outcome(r[filename := Folder(map[ChunkName(filename, 5) := b])], Failure(SERVER_ERROR_500, ERROR_MESSAGE))
  {
    var p := ChunkPrefix(filename);
    var n0, n5 := ChunkName(filename, 0), ChunkName(filename, 5);
    var dir := map[n0 := a][n5 := b];
    StrayNames(filename);
    FirstMissingIs(dir, p, 2, 1);
    assert dir - Names(p, 1) == map[n5 := b];
  }

  /** No post creates an entry of `uploads` whose name contains "_chunk_":
      folders are named by the split and files by a folder's name. */
  lemma StepKeepsNoChunkNames(u: Uploads, post: Post)
    requires NoChunkNames(u)
    ensures NoChunkNames(Step(u, post).uploads)
  {
    if post.part.Some? {
      var dest := Destination(post.part.value.originalname);
      assert Shown(dest);
    }
  }

  /** So, as long as `uploads` holds only what the server created, `/files`
      lists every entry, chunk folders of uploads in progress included. */
  lemma ListingShowsAll(u: Uploads, posts: seq<Post>, names: seq<string>, dirSize: nat)
    requires NoChunkNames(u)
    requires forall name | name in names :: name in Run(u, posts).uploads
    ensures |Listing(Run(u, posts).uploads, names, dirSize)| == |names|
  {
    RunKeepsNoChunkNames(u, posts);
  }

  /** No series of posts creates an entry whose name contains "_chunk_". */
  lemma {:induction false} RunKeepsNoChunkNames(u: Uploads, posts: seq<Post>)
    requires NoChunkNames(u)
    ensures NoChunkNames(Run(u, posts).uploads)
  {
    if posts != [] {
      var init, post := posts[..|posts| - 1], posts[|posts| - 1];
      RunKeepsNoChunkNames(u, init);
      StepKeepsNoChunkNames(Run(u, init).uploads, post);
    }
  }
}
