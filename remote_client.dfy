/** The `FileUploader` of wwwroot/app.js, which posts each chunk to the server
    and retries it until a reply is accepted. The server is not modelled
    here: `replies[(f, i)]` lists what the successive attempts to post chunk
    i of file f get back, and once the list is used up every further attempt
    fails like the last, so the retry goes on for ever: the model then
    reports the upload as stalled. */
module RemoteClient {
  import opened Common
  import opened Chunking
  import opened Producer
  import opened Protocol

  /** A reply the uploader accepts: `response.ok` and `result.success`.
      Anything else is thrown and retried. */
  predicate Accepted(reply: Reply)
  {
    reply.Answer? && IsOk(reply.response) && reply.response.success
  }

  /** The position of the first accepted reply, or |replies| when there is
      none. */
  function FirstAccepted(replies: seq<Reply>): (k: nat)
    ensures k <= |replies|
    ensures forall j | 0 <= j < k :: !Accepted(replies[j])
    ensures k < |replies| ==> Accepted(replies[k])
  {
    if replies == [] then 0
    else if Accepted(replies[0]) then 0
    else 1 + FirstAccepted(replies[1..])
  }

  /** The replies to the attempts to post chunk i of f. */
  function RepliesFor(replies: map<(string, nat), seq<Reply>>, f: string, i: nat): seq<Reply>
  {
    if (f, i) in replies then replies[(f, i)] else []
  }

  /** `filePath.split('/')[2]`, None standing for `undefined` when the path
      has fewer than three segments. */
  function SessionOf(filePath: string): Option<string>
  {
    var parts := Split(filePath, '/');
    if |parts| > 2 then Some(parts[2]) else None
  }

  /** For the path the server sends on completion, `/uploads/{session}/{file}`,
      segment 2 is the session, whatever the file name holds. */
  lemma SessionOfUploadPath(session: string, fileName: string)
    requires '/' !in session
    ensures SessionOf("/uploads/" + session + "/" + fileName) == Some(session)
  {
    var rest := session + "/" + fileName;
    assert "/uploads/" + session + "/" + fileName == [] + ['/'] + ("uploads" + ['/'] + rest);
    SplitAtFirst([], '/', "uploads" + ['/'] + rest);
    SplitAtFirst("uploads", '/', rest);
    assert rest == session + ['/'] + fileName;
    SplitAtFirst(session, '/', fileName);
  }

  /** The session the uploader remembers after an accepted reply: a reply
      with a non-empty `filePath` replaces it, any other leaves it. */
  function SessionAfter(current: Option<string>, r: Response): Option<string>
  {
    if r.filePath.Some? && r.filePath.value != "" then SessionOf(r.filePath.value) else current
  }

  /** The form posted for chunk i of a file: the bytes of its range, the key,
      the index and the count. */
  function RequestFor(st: FileState, name: string, i: nat): ChunkRequest
  {
    ChunkRequest(ChunkBytes(st.file, CHUNK_SIZE, i), name, i, st.totalChunks)
  }

  class FileUploader {
    /** `this.files`: file key -> upload state */
    var files: map<string, FileState>
    /** The insertion order of `this.files`. */
    var order: seq<string>
    var uploadInProgress: bool
    var uploadPaused: bool
    /** `this.currentUploadSession` */
    var currentUploadSession: Option<string>

    /** Every file is consistent, and a file is left uploading only by an
        upload that is still running. */
    ghost predicate Valid()
      reads this
    {
      && Registered(files, order)
      && AllConsistent(files, CHUNK_SIZE)
      && (!uploadInProgress ==> forall k | k in files :: files[k].status != Uploading)
    }

    constructor ()
      ensures Valid()
      ensures files == map[] && order == [] && currentUploadSession == None
      ensures !uploadInProgress && !uploadPaused
    {
      files, order := map[], [];
      uploadInProgress, uploadPaused := false, false;
      currentUploadSession := None;
    }

    /** addFile(file): a key already tracked is left alone; a new key gets a
        pending state with nothing sent and ceil(size / CHUNK_SIZE) chunks. */
    method AddFile(fullPath: Option<string>, name: string, file: Bytes)
      requires Valid()
      modifies this
      ensures Valid()
      ensures var key := FileKey(fullPath, name);
        if key in old(files) then files == old(files) && order == old(order)
        else files == old(files)[key := NewFileState(file, CHUNK_SIZE)] && order == old(order) + [key]
      ensures uploadInProgress == old(uploadInProgress) && uploadPaused == old(uploadPaused)
      ensures currentUploadSession == old(currentUploadSession)
    {
      var fileKey := FileKey(fullPath, name);
      if fileKey in files {
        return;
      }
      NewFileStateConsistent(file, CHUNK_SIZE);
      AllConsistentUpdate(files, fileKey, NewFileState(file, CHUNK_SIZE), CHUNK_SIZE);
      files := files[fileKey := NewFileState(file, CHUNK_SIZE)];
      order := order + [fileKey];
    }

    /** startUpload(): while an upload runs it only sets the pause flag;
        otherwise it clears the flag and runs uploadFile on every pending or
        paused file in insertion order. The result `stalled` says that one
        chunk was never accepted, so the call would never return: the flag
        uploadInProgress stays set and that file stays uploading. */
    method StartUpload(pauseClicks: set<(string, nat)>, replies: map<(string, nat), seq<Reply>>)
      returns (stalled: bool)
      requires Valid()
      modifies this
      ensures Valid()
      ensures old(uploadInProgress) ==>
        && !stalled && uploadInProgress && uploadPaused
        && files == old(files) && order == old(order) && currentUploadSession == old(currentUploadSession)
      ensures !old(uploadInProgress) ==>
        && order == old(order) && files.Keys == old(files).Keys
        && (uploadInProgress <==> stalled)
        && (forall k | k in files :: Kept(old(files[k]), files[k]))
      ensures !old(uploadInProgress) && !stalled ==> forall k | k in files :: Swept(old(files[k]), files[k])
      ensures !old(uploadInProgress) && !stalled && pauseClicks == {} ==>
        !uploadPaused && forall k | k in files :: files[k].status == Completed
      ensures stalled ==> exists k | k in files ::
        && files[k].status == Uploading && files[k].currentChunk < files[k].totalChunks
        && FirstAccepted(RepliesFor(replies, k, files[k].currentChunk)) == |RepliesFor(replies, k, files[k].currentChunk)|
    {
      if uploadInProgress {
        uploadPaused := true;
        return false;
      }
      uploadInProgress := true;
      uploadPaused := false;
      ghost var before := files;
      for idx := 0 to |order|
        invariant Registered(files, order) && order == old(order) && uploadInProgress
        invariant AllConsistent(files, CHUNK_SIZE)
        invariant files.Keys == before.Keys
        invariant forall j | 0 <= j < idx ::
          Swept(before[order[j]], files[order[j]]) && (pauseClicks == {} ==> files[order[j]].status == Completed)
        invariant forall j | idx <= j < |order| :: files[order[j]] == before[order[j]]
        invariant pauseClicks == {} ==> !uploadPaused
      {
        var fileName := order[idx];
        stalled := UploadIfWaiting(fileName, pauseClicks, replies);
        forall j | idx < j < |order| ensures order[j] != fileName {
          assert order[idx] == fileName;
        }
        if stalled {
          forall k | k in files
            ensures Kept(before[k], files[k])
          {
            var j :| 0 <= j < |order| && order[j] == k;
          }
          return;
        }
      }
      forall k | k in files
        ensures Swept(before[k], files[k]) && (pauseClicks == {} ==> files[k].status == Completed)
      {
        var j :| 0 <= j < |order| && order[j] == k;
      }
      uploadInProgress := false;
      stalled := false;
    }

    /** The body of startUpload's loop for one file: a pending or paused file
        is uploaded, a completed one is left alone. */
    method UploadIfWaiting(fileName: string, pauseClicks: set<(string, nat)>, replies: map<(string, nat), seq<Reply>>)
      returns (stalled: bool)
      requires Registered(files, order) && AllConsistent(files, CHUNK_SIZE)
      requires fileName in files && files[fileName].status != Uploading
      modifies this
      ensures Registered(files, order) && AllConsistent(files, CHUNK_SIZE)
      ensures fileName in files && files == old(files)[fileName := files[fileName]] && order == old(order)
      ensures Kept(old(files[fileName]), files[fileName])
      ensures !stalled ==> Swept(old(files[fileName]), files[fileName])
      ensures stalled ==>
        && files[fileName].status == Uploading && files[fileName].currentChunk < files[fileName].totalChunks
        && var replies' := RepliesFor(replies, fileName, files[fileName].currentChunk);
           FirstAccepted(replies') == |replies'|
      ensures uploadInProgress == old(uploadInProgress)
      ensures old(uploadPaused) ==> uploadPaused && !stalled
      ensures pauseClicks == {} && !old(uploadPaused) && !stalled ==>
        !uploadPaused && files[fileName].status == Completed
    {
      stalled := false;
      var status := files[fileName].status;
      if status == Pending || status == Paused {
        ghost var files0 := files;
        assert FileConsistent(files, fileName, CHUNK_SIZE);
        var sent;
        stalled, sent := UploadFile(fileName, pauseClicks, replies);
        AllConsistentUpdate(files0, fileName, files[fileName], CHUNK_SIZE);
        assert Registered(files, order);
      }
    }

    /** uploadFile(fileName, fileState): marks the file uploading and, while
        chunks remain and no pause is requested, sends chunk currentChunk
        unless it is already acknowledged, then moves currentChunk forward.
        Unless a chunk stalls, it ends completed exactly when currentChunk
        reached totalChunks, and otherwise paused. `sent` lists the forms
        posted, one per index from where the file stood. */
    method UploadFile(name: string, pauseClicks: set<(string, nat)>, replies: map<(string, nat), seq<Reply>>)
      returns (stalled: bool, sent: seq<ChunkRequest>)
      requires name in files && Consistent(files[name], CHUNK_SIZE)
      modifies this
      ensures name in files && files == old(files)[name := files[name]] && order == old(order)
      ensures Consistent(files[name], CHUNK_SIZE)
      ensures files[name].file == old(files[name]).file
      ensures old(files[name]).currentChunk <= files[name].currentChunk
      ensures stalled ==>
        && files[name].status == Uploading && files[name].currentChunk < files[name].totalChunks
        && var replies' := RepliesFor(replies, name, files[name].currentChunk);
           FirstAccepted(replies') == |replies'|
      ensures !stalled ==>
        && (files[name].status == Completed <==> files[name].currentChunk == files[name].totalChunks)
        && (files[name].status != Completed ==> files[name].status == Paused && uploadPaused)
      ensures old(uploadPaused) ==> uploadPaused && !stalled && files[name].currentChunk == old(files[name]).currentChunk
      ensures !old(uploadPaused) && (forall c | c in pauseClicks :: c.0 != name) ==> !uploadPaused
      ensures uploadPaused ==> old(uploadPaused) || exists c | c in pauseClicks :: c.0 == name
      ensures uploadInProgress == old(uploadInProgress)
      ensures |sent| == files[name].currentChunk - old(files[name]).currentChunk + (if stalled then 1 else 0)
      ensures forall j | 0 <= j < |sent| :: sent[j] == RequestFor(files[name], name, old(files[name]).currentChunk + j)
    {
      var fileState := files[name].(status := Uploading);
      ghost var c0 := fileState.currentChunk;
      sent := [];
      stalled := false;
      while fileState.currentChunk < fileState.totalChunks && !uploadPaused
        invariant files == old(files) && order == old(order) && !stalled
        invariant Consistent(fileState, CHUNK_SIZE)
        invariant fileState.status == Uploading && fileState.file == old(files[name]).file
        invariant fileState.totalChunks == old(files[name]).totalChunks
        invariant c0 <= fileState.currentChunk
        invariant old(uploadPaused) ==> uploadPaused && fileState.currentChunk == c0
        invariant !old(uploadPaused) && (forall c | c in pauseClicks :: c.0 != name) ==> !uploadPaused
        invariant uploadPaused ==> old(uploadPaused) || exists c | c in pauseClicks :: c.0 == name
        invariant uploadInProgress == old(uploadInProgress)
        invariant |sent| == fileState.currentChunk - c0
        invariant forall j | 0 <= j < |sent| :: sent[j] == RequestFor(fileState, name, c0 + j)
        decreases fileState.totalChunks - fileState.currentChunk
      {
        var current := fileState.currentChunk;
        AcknowledgeAdvance(current);
        if current !in fileState.uploadedChunks {
          ghost var st0 := fileState;
          var request;
          fileState, stalled, request := UploadChunk(name, fileState, RepliesFor(replies, name, current));
          sent := sent + [request];
          if stalled {
            files := files[name := fileState];
            return;
          }
          AdvancedConsistent(st0, CHUNK_SIZE);
          if (name, current) in pauseClicks {
            uploadPaused := true;
          }
        } else {
          // currentChunk is never in uploadedChunks (Consistent), so the
          // skip does not happen
          assert false;
        }
        fileState := fileState.(currentChunk := current + 1);
      }
      if fileState.currentChunk == fileState.totalChunks {
        fileState := fileState.(status := Completed);
      } else if uploadPaused {
        fileState := fileState.(status := Paused);
      }
      files := files[name := fileState];
    }

    /** uploadChunk(fileName, fileState): posts the byte range of chunk
        currentChunk and retries it, never moving on, until a reply is
        accepted; only then is the index added to uploadedChunks, and a reply
        that carries a filePath sets the session. With no accepted reply the
        chunk stalls and the state is left as it was. */
    method UploadChunk(name: string, fileState: FileState, replies: seq<Reply>)
      returns (acknowledged: FileState, stalled: bool, request: ChunkRequest)
      requires fileState.currentChunk < fileState.totalChunks
      modifies this
      ensures request == RequestFor(fileState, name, fileState.currentChunk)
      ensures stalled <==> FirstAccepted(replies) == |replies|
      ensures stalled ==> acknowledged == fileState && currentUploadSession == old(currentUploadSession)
      ensures !stalled ==>
        && acknowledged == Acknowledged(fileState)
        && currentUploadSession == SessionAfter(old(currentUploadSession), replies[FirstAccepted(replies)].response)
      ensures files == old(files) && order == old(order)
      ensures uploadInProgress == old(uploadInProgress) && uploadPaused == old(uploadPaused)
    {
      var start := fileState.currentChunk * CHUNK_SIZE;
      var end := Min(start + CHUNK_SIZE, |fileState.file|);
      var chunk := Slice(fileState.file, start, end);
      request := ChunkRequest(chunk, name, fileState.currentChunk, fileState.totalChunks);
      var attempt := 0;
      while attempt < |replies| && !Accepted(replies[attempt])
        invariant attempt <= |replies|
        invariant forall j | 0 <= j < attempt :: !Accepted(replies[j])
        decreases |replies| - attempt
      {
        attempt := attempt + 1;
      }
      if attempt == |replies| {
        return fileState, true, request;
      }
      var result := replies[attempt].response;
      acknowledged := Acknowledged(fileState);
      if result.filePath.Some? && result.filePath.value != "" {
        currentUploadSession := SessionOf(result.filePath.value);
      }
      stalled := false;
    }
  }
}
