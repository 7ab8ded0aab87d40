/** `UploadChunk` and `GetFiles` of the ASP.NET `FileUploadController`, with
    the `uploads` folder as maps: the session folders
    `upload_{yyyyMMdd_HHmmss}`, the chunk folder `{fileName}_chunks` of a file
    in a session, holding one file per index named by the index's decimal
    text, and the combined files of each session. The session name is read
    from the clock in the source and is a parameter here. */
module SessionStore {
  import opened Common
  import opened Chunking
  import opened Protocol
  import opened NumberedFiles

  const NO_FILE_MESSAGE: string := "No file uploaded"
  const COMPLETE_MESSAGE: string := "File upload complete"
  const CHUNK_MESSAGE: string := "Chunk uploaded successfully"
  /** The text of the IOException that `Directory.Delete` throws. */
  const NOT_EMPTY_MESSAGE: string := "The directory is not empty."

  /** The text of the FileNotFoundException for a missing chunk file. */
  function MissingFileMessage(path: string): string
  {
    "Could not find file '" + path + "'."
  }

  /** The `uploads` folder: whether it exists, the session folders, the chunk
      folder of (session, fileName) with its files, and the combined file
      (session, fileName). */
  datatype Disk = Disk(
    uploadsExists: bool,
    sessionDirs: set<string>,
    chunkDirs: map<(string, string), map<string, Bytes>>,
    artifacts: map<(string, string), Bytes>)

  /** What one request leaves on disk, and the reply. */
  datatype Outcome = Outcome(disk: Disk, response: Response)

  /** The relative path of a file of the store. */
  function ChunkFilePath(session: string, fileName: string, i: int): string
  {
    "uploads/" + session + "/" + fileName + "_chunks/" + IntText(i)
  }

  /** The `filePath` of a completion reply. */
  function PublicPath(session: string, fileName: string): string
  {
    "/uploads/" + session + "/" + fileName
  }

  /** The combine: the output file is created empty, chunk files 0..n-1 are
      appended to it and deleted one by one, and the chunk folder is then
      deleted. A missing chunk file stops it with a FileNotFoundException,
      leaving the output written so far and the chunks not yet copied; a
      folder that is not empty makes the delete throw. */
  function Combine(d: Disk, session: string, fileName: string, n: nat): Outcome
    requires (session, fileName) in d.chunkDirs
  {
    var key := (session, fileName);
    var dir := d.chunkDirs[key];
    var k := FirstMissing(dir, "", n);
    var output := Written(dir, "", k);
    var left := dir - Names("", k);
    var written := d.(artifacts := d.artifacts[key := output]);
    if k < n then
      Outcome(written.(chunkDirs := d.chunkDirs[key := left]),
              Failure(BAD_REQUEST_400, MissingFileMessage(ChunkFilePath(session, fileName, k))))
    else if |left| > 0 then
      Outcome(written.(chunkDirs := d.chunkDirs[key := left]), Failure(BAD_REQUEST_400, NOT_EMPTY_MESSAGE))
    else
      Outcome(written.(chunkDirs := d.chunkDirs - {key}), Completed(COMPLETE_MESSAGE, PublicPath(session, fileName)))
  }

  /** The chunk written to its folder: the uploads, session and chunk
      folders exist and the file named `name` holds `data`. */
  function Store(d: Disk, session: string, fileName: string, name: string, data: Bytes): Disk
  {
    var key := (session, fileName);
    var dir := if key in d.chunkDirs then d.chunkDirs[key] else map[];
    Disk(true, d.sessionDirs + {session}, d.chunkDirs[key := dir[name := data]], d.artifacts)
  }

  /** One POST to api/FileUpload/chunk, in session folder `session`: a
      missing or empty chunk is refused before anything is created;
      otherwise the chunk is written under its index's name (replacing a
      file of that name), and the combine runs exactly when the chunk folder
      then holds totalChunks files. Every exception becomes a 400 reply with
      success false. */
  function Step(d: Disk, session: string, chunk: Option<Bytes>, fileName: string, chunkIndex: int, totalChunks: int)
    : Outcome
  {
    if chunk.None? || |chunk.value| == 0 then
      Outcome(d, Failure(BAD_REQUEST_400, NO_FILE_MESSAGE))
    else
      var stored := Store(d, session, fileName, IntText(chunkIndex), chunk.value);
      var count := |stored.chunkDirs[(session, fileName)]|;
      if count == totalChunks then Combine(stored, session, fileName, count)
      else Outcome(stored, Progress(CHUNK_MESSAGE, count, totalChunks))
  }

  /** Every folder and file lies in a session folder under `uploads`. */
  ghost predicate WellFormed(d: Disk)
  {
    && (forall k | k in d.chunkDirs :: k.0 in d.sessionDirs)
    && (forall k | k in d.artifacts :: k.0 in d.sessionDirs)
    && (d.sessionDirs != {} ==> d.uploadsExists)
  }

  /** A combine in an existing session folder keeps the disk well formed. */
  lemma CombineWellFormed(d: Disk, session: string, fileName: string, n: nat)
    requires WellFormed(d) && (session, fileName) in d.chunkDirs && session in d.sessionDirs
    ensures WellFormed(Combine(d, session, fileName, n).disk)
  {
  }

  /** The disk and the replies after a series of requests in one session. */
  datatype Trace = Trace(disk: Disk, responses: seq<Response>)

  /** The requests applied in order, all in the same session folder. */
  function Run(d: Disk, session: string, requests: seq<ChunkRequest>): (t: Trace)
    ensures |t.responses| == |requests|
  {
    if requests == [] then Trace(d, [])
    else
      var before := Run(d, session, requests[..|requests| - 1]);
      var r := requests[|requests| - 1];
      var o := Step(before.disk, session, Some(r.chunk), r.fileName, r.chunkIndex, r.totalChunks);
      Trace(o.disk, before.responses + [o.response])
  }

  /** `!file.Contains("_chunks")` on the full path of the file. */
  predicate Visible(root: string, key: (string, string))
  {
    !Contains(root + "/" + "uploads/" + key.0 + "/" + key.1, "_chunks")
  }

  /** The entry listed for a combined file. */
  function EntryOf(key: (string, string), data: Bytes): FileEntry
  {
    FileEntry(key.1, |data|, PublicPath(key.0, key.1))
  }

  class UploadsFolder {
    var uploadsExists: bool
    var sessionDirs: set<string>
    var chunkDirs: map<(string, string), map<string, Bytes>>
    var artifacts: map<(string, string), Bytes>

    /** The folder as a value. */
    function State(): Disk
      reads this
    {
      Disk(uploadsExists, sessionDirs, chunkDirs, artifacts)
    }

    /** Every folder and file lies in a session folder under `uploads`. */
    ghost predicate Valid()
      reads this
    {
      WellFormed(State())
    }

    /** A content root with no `uploads` folder yet. */
    constructor ()
      ensures Valid() && State() == Disk(false, {}, map[], map[])
    {
      uploadsExists, sessionDirs, chunkDirs, artifacts := false, {}, map[], map[];
    }

    /** UploadChunk(chunk, fileName, chunkIndex, totalChunks), with
        `session` the folder name the clock gives. */
    method UploadChunk(session: string, chunk: Option<Bytes>, fileName: string, chunkIndex: int, totalChunks: int)
      returns (response: Response)
      requires Valid()
      modifies this
      ensures Valid()
      ensures Outcome(State(), response) == Step(old(State()), session, chunk, fileName, chunkIndex, totalChunks)
    {
      if chunk.None? || |chunk.value| == 0 {
        return Failure(BAD_REQUEST_400, NO_FILE_MESSAGE);
      }
      uploadsExists := true;
      sessionDirs := sessionDirs + {session};
      var key := (session, fileName);
      if key !in chunkDirs {
        chunkDirs := chunkDirs[key := map[]];
      }
      chunkDirs := chunkDirs[key := chunkDirs[key][IntText(chunkIndex) := chunk.value]];
      assert State() == Store(old(State()), session, fileName, IntText(chunkIndex), chunk.value);
      var uploadedChunks := |chunkDirs[key]|;
      if uploadedChunks != totalChunks {
        return Progress(CHUNK_MESSAGE, uploadedChunks, totalChunks);
      }
      response := CombineChunks(session, fileName, uploadedChunks);
    }

    /** The combine block of UploadChunk, once the chunk folder holds n
        files. */
    method CombineChunks(session: string, fileName: string, n: nat) returns (response: Response)
      requires Valid() && (session, fileName) in chunkDirs && session in sessionDirs && uploadsExists
      modifies this
      ensures Valid()
      ensures Outcome(State(), response) == Combine(old(State()), session, fileName, n)
    {
      var key := (session, fileName);
      CombineWellFormed(State(), session, fileName, n);
      var output, left, k := CopyFiles(chunkDirs[key], "", n);
      artifacts := artifacts[key := output];
      if k < n {
        chunkDirs := chunkDirs[key := left];
        return Failure(BAD_REQUEST_400, MissingFileMessage(ChunkFilePath(session, fileName, k)));
      }
      if |left| > 0 {
        chunkDirs := chunkDirs[key := left];
        return Failure(BAD_REQUEST_400, NOT_EMPTY_MESSAGE);
      }
      chunkDirs := chunkDirs - {key};
      return Completed(COMPLETE_MESSAGE, PublicPath(session, fileName));
    }

    /** GetFiles(): an empty list without an `uploads` folder; otherwise,
        session by session in the order `sessions` enumerates them and file
        by file in the order `listing[s]` enumerates session s, every
        combined file whose full path (under `root`) does not contain
        "_chunks", with its name, size and public path. */
    method GetFiles(root: string, sessions: seq<string>, listing: map<string, seq<string>>)
      returns (entries: seq<FileEntry>)
      requires Valid()
      requires forall s :: s in sessions <==> s in sessionDirs
      requires forall s | s in sessions :: s in listing
      requires forall s, n | s in listing && n in listing[s] :: (s, n) in artifacts
      requires forall k | k in artifacts :: k.0 in listing && k.1 in listing[k.0]
      ensures !uploadsExists ==> entries == []
      ensures uploadsExists ==> forall k | k in artifacts && Visible(root, k) :: EntryOf(k, artifacts[k]) in entries
      ensures forall e | e in entries :: exists k | k in artifacts :: Visible(root, k) && e == EntryOf(k, artifacts[k])
    {
      if !uploadsExists {
        return [];
      }
      entries := [];
      for a := 0 to |sessions|
        invariant forall e | e in entries :: exists k | k in artifacts :: Visible(root, k) && e == EntryOf(k, artifacts[k])
        invariant forall k | k in artifacts && Visible(root, k) && k.0 in sessions[..a] :: EntryOf(k, artifacts[k]) in entries
      {
        var sessionDir := sessions[a];
        var names := listing[sessionDir];
        ghost var done := entries;
        for b := 0 to |names|
          invariant forall e | e in entries :: exists k | k in artifacts :: Visible(root, k) && e == EntryOf(k, artifacts[k])
          invariant forall e | e in done :: e in entries
          invariant forall n | n in names[..b] && Visible(root, (sessionDir, n)) ::
            EntryOf((sessionDir, n), artifacts[(sessionDir, n)]) in entries
        {
          var file := (sessionDir, names[b]);
          if !Contains(root + "/" + "uploads/" + sessionDir + "/" + names[b], "_chunks") {
            entries := entries + [EntryOf(file, artifacts[file])];
          }
          assert names[..b + 1] == names[..b] + [names[b]];
        }
        assert names[..|names|] == names;
        assert sessions[..a + 1] == sessions[..a] + [sessionDir];
      }
      assert sessions[..|sessions|] == sessions;
    }
  }
}
