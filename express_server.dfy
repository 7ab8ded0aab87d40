/** The Express server: the multer disk storage that files each posted chunk
    under `uploads/{folder}/{originalname}`, where the folder is the part of
    the part's original name before the first "_chunk_"; the `/upload-chunk`
    handler that counts the chunk files of `filename` and, once there are
    totalChunks of them, concatenates `{filename}_chunk_0`, `_1`, ... into
    `uploads/{filename}` and removes the folder; and the `/files` listing of
    the entries of `uploads`. A file and a folder of the same name share
    `uploads/{filename}`: the folder gives way to the combined file. */
module ExpressServer {
  import opened Common
  import opened Chunking
  import opened Protocol
  import opened NumberedFiles

  const SEPARATOR: string := "_chunk_"
  const COMPLETE_MESSAGE: string := "File upload complete"
  const CHUNK_MESSAGE: string := "Chunk uploaded successfully"
  const ERROR_MESSAGE: string := "Error uploading chunk"

  /** An entry of the `uploads` folder: a chunk folder with its files, or a
      combined file. */
  datatype Entry = Folder(files: map<string, Bytes>) | Blob(data: Bytes)

  /** The `uploads` folder, by entry name. */
  type Uploads = map<string, Entry>

  /** The names the client gives its chunk files: `{filename}_chunk_`
      followed by the index. */
  function ChunkPrefix(filename: string): string
  {
    filename + SEPARATOR
  }

  /** The `filePath` of the completion reply. */
  function PublicPath(name: string): string
  {
    "/uploads/" + name
  }

  /** multer's `destination`: the folder a part named `originalname` is
      written to, `originalname.split('_chunk_')[0]`. It is a prefix of
      the name and never contains "_chunk_". */
  function Destination(originalname: string): (r: string)
    ensures StartsWith(originalname, r)
    ensures !Contains(r, SEPARATOR)
  {
    PrefixBeforeFree(originalname, SEPARATOR);
    PrefixBefore(originalname, SEPARATOR)
  }

  /** The upload middleware on a part: the destination folder is created if
      it does not exist and the part is written into it under its original
      name, replacing a file of that name. When the destination is a file,
      the write fails (None) and the request ends in Express's error page. */
  function Receive(u: Uploads, originalname: string, data: Bytes): (r: Option<Uploads>)
    ensures r.None? <==> Destination(originalname) in u && u[Destination(originalname)].Blob?
    ensures r.Some? ==> r.value.Keys == u.Keys + {Destination(originalname)}
    ensures r.Some? ==>
              r.value[Destination(originalname)] ==
              Folder((if Destination(originalname) in u then u[Destination(originalname)].files else map[])[originalname := data])
    ensures r.Some? ==> forall name | name in u && name != Destination(originalname) :: r.value[name] == u[name]
  {
    var dest := Destination(originalname);
    if dest in u && u[dest].Blob? then None
    else
      var files := if dest in u then u[dest].files else map[];
      Some(u[dest := Folder(files[originalname := data])])
  }

  /** The files of a chunk folder the handler counts: those whose name
      starts with `{filename}_chunk_`. */
  function Counted(dir: map<string, Bytes>, filename: string): (r: set<string>)
    ensures r <= dir.Keys
  {
    set name | name in dir && StartsWith(name, ChunkPrefix(filename))
  }

  /** The state after a request, and its reply. */
  datatype Outcome = Outcome(uploads: Uploads, response: Response)

  /** The combine over the folder of `filename` once n of its files were
      counted: chunk files 0..n-1 are read, queued for the output and deleted
      in turn, and the folder is then removed, the output taking its place.
      A missing chunk file, or a file left in the folder, throws: the
      files not yet copied stay, and the reply is the 500 error. */
  function Combine(u: Uploads, filename: string, n: nat): Outcome
    requires filename in u && u[filename].Folder?
  {
    var dir := u[filename].files;
    var prefix := ChunkPrefix(filename);
    var k := FirstMissing(dir, prefix, n);
    var left := dir - Names(prefix, k);
    if k < n || |left| > 0 then
      Outcome(u[filename := Folder(left)], Failure(SERVER_ERROR_500, ERROR_MESSAGE))
    else
      Outcome(u[filename := Blob(Written(dir, prefix, n))], Completed(COMPLETE_MESSAGE, PublicPath(filename)))
  }

  /** The `/upload-chunk` handler for form fields `filename` and
      `totalChunks`: reading a folder `filename` that does not exist (or is
      a file) throws and gives the 500 error; otherwise the combine runs
      exactly when the number of counted files equals totalChunks, and the
      reply otherwise reports that number. */
  function Handle(u: Uploads, filename: string, totalChunks: int): Outcome
  {
    if filename !in u || u[filename].Blob? then Outcome(u, Failure(SERVER_ERROR_500, ERROR_MESSAGE))
    else
      var count := |Counted(u[filename].files, filename)|;
      if count == totalChunks then Combine(u, filename, count)
      else Outcome(u, Progress(CHUNK_MESSAGE, count, totalChunks))
  }

  /** The `chunk` part of a post: its original name and bytes. */
  datatype Part = Part(originalname: string, data: Bytes)

  /** One POST to /upload-chunk: the `chunk` part, if any, and the
      `filename` and `totalChunks` fields. */
  datatype Post = Post(part: Option<Part>, filename: string, totalChunks: int)

  /** The state after a post, and what the client receives: a JSON reply,
      or Lost for Express's HTML error page. */
  datatype Delivery = Delivery(uploads: Uploads, reply: Reply)

  /** A whole post: the middleware stores the part, then the handler runs. */
  function Step(u: Uploads, post: Post): Delivery
  {
    var received := if post.part.Some? then Receive(u, post.part.value.originalname, post.part.value.data) else Some(u);
    if received.None? then Delivery(u, Lost)
    else
      var o := Handle(received.value, post.filename, post.totalChunks);
      Delivery(o.uploads, Answer(o.response))
  }

  /** The folder and the replies after a series of posts. */
  datatype Trace = Trace(uploads: Uploads, replies: seq<Reply>)

  /** The posts applied in order. */
  function Run(u: Uploads, posts: seq<Post>): (t: Trace)
    ensures |t.replies| == |posts|
  {
    if posts == [] then Trace(u, [])
    else
      var before := Run(u, posts[..|posts| - 1]);
      var d := Step(before.uploads, posts[|posts| - 1]);
      Trace(d.uploads, before.replies + [d.reply])
  }

  /** `/files` keeps the entries whose name does not contain "_chunk_". */
  predicate Shown(name: string)
  {
    !Contains(name, SEPARATOR)
  }

  /** The listed entry of `name`: a file's size, or `dirSize` (what `stat`
      reports for a folder). */
  function EntryOf(u: Uploads, name: string, dirSize: nat): FileEntry
    requires name in u
  {
    FileEntry(name, if u[name].Blob? then |u[name].data| else dirSize, PublicPath(name))
  }

  /** `GET /files`, with `names` the entries of `uploads` in the order the
      directory read returns them: every entry whose name does not contain
      "_chunk_", in that order, with its size and public path. */
  function Listing(u: Uploads, names: seq<string>, dirSize: nat): (r: seq<FileEntry>)
    requires forall name | name in names :: name in u
    ensures |r| <= |names|
    ensures forall e | e in r :: exists name | name in names :: Shown(name) && e == EntryOf(u, name, dirSize)
    ensures forall name | name in names && Shown(name) :: EntryOf(u, name, dirSize) in r
    ensures (forall name | name in names :: Shown(name)) ==> |r| == |names|
  {
    if names == [] then []
    else
      var rest := Listing(u, names[1..], dirSize);
      assert forall name | name in names[1..] :: name in names;
      if Shown(names[0]) then [EntryOf(u, names[0], dirSize)] + rest else rest
  }

  /** No entry of the folder has "_chunk_" in its name. */
  ghost predicate NoChunkNames(u: Uploads)
  {
    forall name | name in u :: Shown(name)
  }

  class UploadsFolder {
    var entries: Uploads

    /** The `uploads` folder as the server finds it at startup (empty when
        it has to create it). */
    constructor (existing: Uploads)
      ensures entries == existing
    {
      entries := existing;
    }

    /** multer's disk storage for the `chunk` part: `destination` creates
        the folder when it is missing, `filename` keeps the original name. */
    method StoreChunk(originalname: string, data: Bytes) returns (stored: bool)
      modifies this
      ensures Receive(old(entries), originalname, data) == if stored then Some(entries) else None
      ensures !stored ==> entries == old(entries)
    {
      var chunkDir := PrefixBefore(originalname, SEPARATOR);
      assert chunkDir == Destination(originalname);
      if chunkDir in entries && entries[chunkDir].Blob? {
        return false;
      }
      var files := if chunkDir in entries then entries[chunkDir].files else map[];
      if chunkDir !in entries {
        entries := entries[chunkDir := Folder(map[])];
      }
      assert entries[chunkDir].files == files;
      entries := entries[chunkDir := Folder(entries[chunkDir].files[originalname := data])];
      assert entries == old(entries)[chunkDir := Folder(files[originalname := data])];
      return true;
    }

    /** The `/upload-chunk` handler. */
    method UploadChunk(filename: string, totalChunks: int) returns (response: Response)
      modifies this
      ensures Outcome(entries, response) == Handle(old(entries), filename, totalChunks)
    {
      if filename !in entries || entries[filename].Blob? {
        return Failure(SERVER_ERROR_500, ERROR_MESSAGE);
      }
      var chunkDir := entries[filename].files;
      var uploadedChunks := |set name | name in chunkDir && StartsWith(name, filename + SEPARATOR)|;
      if uploadedChunks != totalChunks {
        return Progress(CHUNK_MESSAGE, uploadedChunks, totalChunks);
      }
      response := CombineChunks(filename, uploadedChunks);
    }

    /** The combine block of the handler, once the folder holds n counted
        files. */
    method CombineChunks(filename: string, n: nat) returns (response: Response)
      requires filename in entries && entries[filename].Folder?
      modifies this
      ensures Outcome(entries, response) == Combine(old(entries), filename, n)
    {
      var output, left, k := CopyFiles(entries[filename].files, filename + SEPARATOR, n);
      if k < n || |left| > 0 {
        entries := entries[filename := Folder(left)];
        return Failure(SERVER_ERROR_500, ERROR_MESSAGE);
      }
      entries := entries[filename := Blob(output)];
      return Completed(COMPLETE_MESSAGE, PublicPath(filename));
    }

    /** A whole POST to /upload-chunk: the middleware, then the handler. */
    method HandlePost(post: Post) returns (reply: Reply)
      modifies this
      ensures Delivery(entries, reply) == Step(old(entries), post)
    {
      if post.part.Some? {
        var stored := StoreChunk(post.part.value.originalname, post.part.value.data);
        if !stored {
          return Lost;
        }
      }
      var response := UploadChunk(post.filename, post.totalChunks);
      return Answer(response);
    }
  }
}
