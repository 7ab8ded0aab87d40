/** The `FileUploader` of app.js, which uploads into the in-memory `storage`
    of the same file: registering files, the pause/resume entry point, the
    per-file chunk loop and the transfer of one chunk with its combine
    trigger. The class invariant ties each file's progress to what the
    storage holds, so that a completed file is published byte for byte. */
module LocalClient {
  import opened Common
  import opened Chunking
  import opened Producer
  import MemoryStore

  /** Chunks 0..c-1 of the file, keyed by index, as the storage holds them. */
  function ChunkMap(file: Bytes, cs: nat, c: nat): map<nat, Bytes>
  {
    if c == 0 then map[] else ChunkMap(file, cs, c - 1)[c - 1 := ChunkBytes(file, cs, c - 1)]
  }

  /** ChunkMap(file, cs, c) maps exactly the indices below c, each to the
      bytes of that chunk. */
  lemma {:induction false} ChunkMapMembers(file: Bytes, cs: nat, c: nat)
    ensures forall j: nat :: j in ChunkMap(file, cs, c) <==> j < c
    ensures forall j: nat | j < c :: ChunkMap(file, cs, c)[j] == ChunkBytes(file, cs, j)
  {
    if c > 0 {
      ChunkMapMembers(file, cs, c - 1);
    }
  }

  /** How the storage reflects one file's progress: nothing before the first
      chunk, chunks 0..c-1 while the upload is under way, and after the last
      chunk no chunk map but the artifact, equal to the file. */
  ghost predicate Mirrors(st: FileState, key: string, chunks: map<string, map<nat, Bytes>>,
                          arts: map<string, Bytes>, cs: nat)
  {
    var c, t := st.currentChunk, st.totalChunks;
    && (c == 0 ==> key !in chunks && key !in arts)
    && (0 < c < t ==> key in chunks && chunks[key] == ChunkMap(st.file, cs, c) && key !in arts)
    && (0 < c && c == t ==> key !in chunks && key in arts && arts[key] == st.file)
  }

  /** File k is consistent and the storage mirrors its progress. */
  ghost predicate Tracked(files: map<string, FileState>, k: string,
                          chunks: map<string, map<nat, Bytes>>, arts: map<string, Bytes>, cs: nat)
  {
    k in files && Consistent(files[k], cs) && Mirrors(files[k], k, chunks, arts, cs)
  }

  /** The uploader's files and the storage, seen as values. */
  ghost predicate Inv(files: map<string, FileState>, order: seq<string>,
                      chunks: map<string, map<nat, Bytes>>, arts: map<string, Bytes>, cs: nat)
  {
    && cs > 0
    && Registered(files, order)
    && (forall k | k in chunks :: k in files)
    && (forall k | k in arts :: k in files)
    && (forall k {:trigger Tracked(files, k, chunks, arts, cs)} | k in files :: Tracked(files, k, chunks, arts, cs))
  }

  /** The storage's chunk maps after chunk currentChunk of key was stored,
      with the combine when it was the last index. */
  function ChunksAfter(st: FileState, key: string, chunks: map<string, map<nat, Bytes>>, cs: nat)
    : map<string, map<nat, Bytes>>
  {
    var put := MemoryStore.Put(chunks, key, st.currentChunk, ChunkBytes(st.file, cs, st.currentChunk));
    if st.currentChunk == st.totalChunks - 1 then put - {key} else put
  }

  /** The storage's artifacts after the same step. */
  function FilesAfter(st: FileState, key: string, chunks: map<string, map<nat, Bytes>>,
                      arts: map<string, Bytes>, cs: nat): map<string, Bytes>
  {
    var put := MemoryStore.Put(chunks, key, st.currentChunk, ChunkBytes(st.file, cs, st.currentChunk));
    if st.currentChunk == st.totalChunks - 1
    then arts[key := MemoryStore.Assemble(put[key], st.totalChunks)]
    else arts
  }

  /** Storing chunk c (not the last) of a file whose chunks 0..c-1 are held
      leaves chunks 0..c held and nothing published. */
  lemma StepMirrorsMiddle(st: FileState, key: string, chunks: map<string, map<nat, Bytes>>,
                          arts: map<string, Bytes>, cs: nat)
    requires Consistent(st, cs) && Mirrors(st, key, chunks, arts, cs)
    requires st.currentChunk + 1 < st.totalChunks
    ensures Mirrors(Advanced(st), key, ChunksAfter(st, key, chunks, cs), FilesAfter(st, key, chunks, arts, cs), cs)
  {
    var c := st.currentChunk;
    var data := ChunkBytes(st.file, cs, c);
    var put := MemoryStore.Put(chunks, key, c, data);
    var before: map<nat, Bytes> := if key in chunks then chunks[key] else map[];
    assert before == ChunkMap(st.file, cs, c);
    assert put[key] == before[c := data];
    assert ChunksAfter(st, key, chunks, cs) == put;
    assert FilesAfter(st, key, chunks, arts, cs) == arts;
  }

  /** Storing chunk c of key extends the chunk map of key by it. */
  lemma PutFile(chunks: map<string, map<nat, Bytes>>, key: string, c: nat, data: Bytes)
    ensures MemoryStore.Put(chunks, key, c, data)[key] == (if key in chunks then chunks[key] else map[])[c := data]
  {
  }

  /** The chunk map once the last chunk is stored assembles to the file. */
  lemma LastChunkAssembles(file: Bytes, cs: nat, c: nat)
    requires cs > 0 && c + 1 == TotalChunks(|file|, cs)
    ensures MemoryStore.Assemble(ChunkMap(file, cs, c)[c := ChunkBytes(file, cs, c)], c + 1) == file
  {
    ChunkMapMembers(file, cs, c + 1);
    MemoryStore.AssembleChunksOfFile(ChunkMap(file, cs, c + 1), file, cs);
  }

  /** Storing the last chunk publishes the whole file and drops its chunk
      map. */
  lemma StepMirrorsLast(st: FileState, key: string, chunks: map<string, map<nat, Bytes>>,
                        arts: map<string, Bytes>, cs: nat)
    requires Consistent(st, cs) && Mirrors(st, key, chunks, arts, cs)
    requires st.currentChunk + 1 == st.totalChunks
    ensures Mirrors(Advanced(st), key, ChunksAfter(st, key, chunks, cs), FilesAfter(st, key, chunks, arts, cs), cs)
  {
    var c := st.currentChunk;
    var data := ChunkBytes(st.file, cs, c);
    var put := MemoryStore.Put(chunks, key, c, data);
    PutFile(chunks, key, c, data);
    LastChunkAssembles(st.file, cs, c);
    assert ChunksAfter(st, key, chunks, cs) == put - {key};
    assert FilesAfter(st, key, chunks, arts, cs) == arts[key := st.file];
  }

  /** Sending one chunk and moving on keeps the storage in step with the
      file: the chunk map grows by exactly that chunk, and the last chunk
      publishes the whole file and removes its chunk map. */
  lemma StepMirrors(st: FileState, key: string, chunks: map<string, map<nat, Bytes>>,
                    arts: map<string, Bytes>, cs: nat)
    requires Consistent(st, cs) && Mirrors(st, key, chunks, arts, cs)
    requires st.currentChunk < st.totalChunks
    ensures Mirrors(Advanced(st), key, ChunksAfter(st, key, chunks, cs), FilesAfter(st, key, chunks, arts, cs), cs)
  {
    if st.currentChunk + 1 < st.totalChunks {
      StepMirrorsMiddle(st, key, chunks, arts, cs);
    } else {
      StepMirrorsLast(st, key, chunks, arts, cs);
    }
  }

  /** A step on one file touches no other file's chunks or artifact. */
  lemma StepFrame(st: FileState, key: string, chunks: map<string, map<nat, Bytes>>,
                  arts: map<string, Bytes>, cs: nat)
    ensures ChunksAfter(st, key, chunks, cs) - {key} == chunks - {key}
    ensures FilesAfter(st, key, chunks, arts, cs) - {key} == arts - {key}
  {
    var put := MemoryStore.Put(chunks, key, st.currentChunk, ChunkBytes(st.file, cs, st.currentChunk));
    assert put - {key} == chunks - {key};
  }

  /** Once one file's upload has run, the invariant holds again when that
      file alone changed state and the storage changed only under its key. */
  lemma InvRestore(files: map<string, FileState>, order: seq<string>,
                   chunks: map<string, map<nat, Bytes>>, arts: map<string, Bytes>, cs: nat,
                   name: string, st: FileState,
                   chunks': map<string, map<nat, Bytes>>, arts': map<string, Bytes>)
    requires Inv(files, order, chunks, arts, cs) && name in files
    requires Consistent(st, cs) && Mirrors(st, name, chunks', arts', cs)
    requires chunks' - {name} == chunks - {name} && arts' - {name} == arts - {name}
    ensures Inv(files[name := st], order, chunks', arts', cs)
  {
    var files' := files[name := st];
    forall k | k in files'
      ensures Tracked(files', k, chunks', arts', cs)
    {
      if k != name {
        assert Tracked(files, k, chunks, arts, cs);
        assert (k in chunks') == (k in chunks - {name});
        assert (k in arts') == (k in arts - {name});
        assert k in chunks' ==> chunks'[k] == (chunks - {name})[k];
        assert k in arts' ==> arts'[k] == (arts - {name})[k];
      }
    }
    forall k | k in chunks' ensures k in files' {
      if k != name {
        assert k in chunks - {name};
      }
    }
    forall k | k in arts' ensures k in files' {
      if k != name {
        assert k in arts - {name};
      }
    }
    assert Registered(files', order);
  }

  /** Registering a new key keeps the invariant: the storage holds nothing
      under a key that is not tracked, which is what a pending file needs. */
  lemma InvAdd(files: map<string, FileState>, order: seq<string>,
               chunks: map<string, map<nat, Bytes>>, arts: map<string, Bytes>, cs: nat,
               key: string, file: Bytes)
    requires Inv(files, order, chunks, arts, cs) && key !in files
    ensures Inv(files[key := NewFileState(file, cs)], order + [key], chunks, arts, cs)
  {
    var files' := files[key := NewFileState(file, cs)];
    NewFileStateConsistent(file, cs);
    forall k | k in files' ensures Tracked(files', k, chunks, arts, cs) {
      if k != key {
        assert Tracked(files, k, chunks, arts, cs);
      }
    }
    assert Registered(files', order + [key]);
  }

  /** What the invariant promises the user: a completed non-empty file is
      published under its key with exactly its bytes, and a file that is not
      completed has no artifact, so listing never shows an upload in flight. */
  lemma CompletedIsPublished(files: map<string, FileState>, order: seq<string>,
                             chunks: map<string, map<nat, Bytes>>, arts: map<string, Bytes>, cs: nat, k: string)
    requires Inv(files, order, chunks, arts, cs) && k in files
    requires forall j | j in files :: files[j].status != Uploading
    ensures files[k].status == Completed && files[k].totalChunks > 0 ==> k in arts && arts[k] == files[k].file
    ensures files[k].status != Completed ==> k !in arts
  {
    assert Tracked(files, k, chunks, arts, cs);
  }

  class FileUploader {
    /** The module-level `storage` object the uploader writes to. */
    const storage: MemoryStore.Storage
    /** `this.files`: file key -> upload state */
    var files: map<string, FileState>
    /** The insertion order of `this.files`, which `for ... of` follows. */
    var order: seq<string>
    var uploadInProgress: bool
    var uploadPaused: bool

    ghost predicate Valid()
      reads this, storage
    {
      && storage.Valid()
      && Inv(files, order, storage.chunks, storage.files, CHUNK_SIZE)
      && (forall k | k in files :: files[k].status != Uploading)
    }

    /** The uploader at page load, with the storage empty. */
    constructor ()
      ensures Valid() && fresh(storage)
      ensures files == map[] && order == []
      ensures !uploadInProgress && !uploadPaused
    {
      storage := new MemoryStore.Storage();
      files, order := map[], [];
      uploadInProgress, uploadPaused := false, false;
    }

    /** addFile(file): a key already tracked is left alone; a new key gets a
        pending state with nothing sent and ceil(size / CHUNK_SIZE) chunks. */
    method AddFile(fullPath: Option<string>, name: string, file: Bytes)
      requires Valid()
      modifies this
      ensures Valid()
      ensures var key := FileKey(fullPath, name);
        if key in old(files) then files == old(files) && order == old(order)
        else files == old(files)[key := NewFileState(file, CHUNK_SIZE)] && order == old(order) + [key]
      ensures uploadInProgress == old(uploadInProgress) && uploadPaused == old(uploadPaused)
    {
      var fileKey := FileKey(fullPath, name);
      if fileKey in files {
        return;
      }
      InvAdd(files, order, storage.chunks, storage.files, CHUNK_SIZE, fileKey, file);
      files := files[fileKey := NewFileState(file, CHUNK_SIZE)];
      order := order + [fileKey];
    }

    /** startUpload(): while an upload runs it only sets the pause flag;
        otherwise it clears the flag and runs uploadFile on every pending or
        paused file in insertion order. `pauseClicks` holds the (file, chunk
        index) pairs during whose transfer the upload button is pressed
        again, which is that first branch. */
    method StartUpload(pauseClicks: set<(string, nat)>)
      requires Valid()
      modifies this, storage
      ensures Valid()
      ensures old(uploadInProgress) ==>
        uploadInProgress && uploadPaused && files == old(files) && order == old(order) && unchanged(storage)
      ensures !old(uploadInProgress) ==>
        && !uploadInProgress && order == old(order) && files.Keys == old(files).Keys
        && (forall k | k in files :: Swept(old(files[k]), files[k]))
        && (pauseClicks == {} ==> !uploadPaused && forall k | k in files :: files[k].status == Completed)
    {
      if uploadInProgress {
        uploadPaused := true;
        return;
      }
      uploadInProgress := true;
      uploadPaused := false;
      ghost var before := files;
      for idx := 0 to |order|
        invariant Valid() && order == old(order) && uploadInProgress
        invariant files.Keys == before.Keys
        invariant forall j | 0 <= j < idx :: Swept(before[order[j]], files[order[j]])
        invariant forall j | idx <= j < |order| :: files[order[j]] == before[order[j]]
        invariant pauseClicks == {} ==> !uploadPaused && forall j | 0 <= j < idx :: files[order[j]].status == Completed
      {
        var fileName := order[idx];
        UploadIfWaiting(fileName, pauseClicks);
        forall j | idx < j < |order| ensures order[j] != fileName {
          assert order[idx] == fileName;
        }
      }
      uploadInProgress := false;
    }

    /** The body of startUpload's loop for one file: a pending or paused file
        is uploaded, a completed one is left alone; either way the invariant
        is restored. */
    method UploadIfWaiting(fileName: string, pauseClicks: set<(string, nat)>)
      requires Valid() && fileName in files
      modifies this, storage
      ensures Valid()
      ensures fileName in files && files == old(files)[fileName := files[fileName]] && order == old(order)
      ensures Swept(old(files[fileName]), files[fileName])
      ensures uploadInProgress == old(uploadInProgress)
      ensures old(uploadPaused) ==> uploadPaused
      ensures pauseClicks == {} && !old(uploadPaused) ==> !uploadPaused && files[fileName].status == Completed
    {
      var status := files[fileName].status;
      if status == Pending || status == Paused {
        ghost var files0, chunks0, arts0 := files, storage.chunks, storage.files;
        assert Tracked(files, fileName, storage.chunks, storage.files, CHUNK_SIZE);
        UploadFile(fileName, pauseClicks);
        InvRestore(files0, order, chunks0, arts0, CHUNK_SIZE, fileName, files[fileName], storage.chunks, storage.files);
      }
    }

    /** uploadFile(fileName, fileState): marks the file uploading and, while
        chunks remain and no pause is requested, sends chunk currentChunk
        unless it is already acknowledged, then moves currentChunk forward.
        It ends completed exactly when currentChunk reached totalChunks, and
        otherwise paused. */
    method UploadFile(name: string, pauseClicks: set<(string, nat)>)
      requires storage.Valid() && name in files
      requires Tracked(files, name, storage.chunks, storage.files, CHUNK_SIZE)
      modifies this, storage
      ensures storage.Valid()
      ensures name in files && files == old(files)[name := files[name]] && order == old(order)
      ensures Tracked(files, name, storage.chunks, storage.files, CHUNK_SIZE)
      ensures storage.chunks - {name} == old(storage.chunks) - {name} && storage.files - {name} == old(storage.files) - {name}
      ensures files[name].file == old(files[name]).file
      ensures old(files[name]).currentChunk <= files[name].currentChunk
      ensures files[name].status == Completed <==> files[name].currentChunk == files[name].totalChunks
      ensures files[name].status != Completed ==> files[name].status == Paused && uploadPaused
      ensures old(uploadPaused) ==> uploadPaused && files[name].currentChunk == old(files[name]).currentChunk
      ensures !old(uploadPaused) && (forall c | c in pauseClicks :: c.0 != name) ==> !uploadPaused
      ensures uploadPaused ==> old(uploadPaused) || exists c | c in pauseClicks :: c.0 == name
      ensures uploadInProgress == old(uploadInProgress)
    {
      ghost var chunks0, arts0 := storage.chunks, storage.files;
      var fileState := files[name].(status := Uploading);
      while fileState.currentChunk < fileState.totalChunks && !uploadPaused
        invariant storage.Valid() && files == old(files) && order == old(order)
        invariant Consistent(fileState, CHUNK_SIZE) && Mirrors(fileState, name, storage.chunks, storage.files, CHUNK_SIZE)
        invariant storage.chunks - {name} == chunks0 - {name} && storage.files - {name} == arts0 - {name}
        invariant fileState.status == Uploading && fileState.file == old(files[name]).file
        invariant old(files[name]).currentChunk <= fileState.currentChunk
        invariant old(uploadPaused) ==> uploadPaused && fileState.currentChunk == old(files[name]).currentChunk
        invariant !old(uploadPaused) && (forall c | c in pauseClicks :: c.0 != name) ==> !uploadPaused
        invariant uploadPaused ==> old(uploadPaused) || exists c | c in pauseClicks :: c.0 == name
        invariant uploadInProgress == old(uploadInProgress)
        decreases fileState.totalChunks - fileState.currentChunk
      {
        var current := fileState.currentChunk;
        AcknowledgeAdvance(current);
        if current !in fileState.uploadedChunks {
          ghost var st0, chunks1, arts1 := fileState, storage.chunks, storage.files;
          fileState := UploadChunk(name, fileState);
          assert fileState.(currentChunk := current + 1) == Advanced(st0);
          StepMirrors(st0, name, chunks1, arts1, CHUNK_SIZE);
          StepFrame(st0, name, chunks1, arts1, CHUNK_SIZE);
          AdvancedConsistent(st0, CHUNK_SIZE);
          if (name, current) in pauseClicks {
            uploadPaused := true;
          }
        } else {
          // currentChunk is never in uploadedChunks (Consistent), so the
          // skip does not happen
          assert false;
        }
        fileState := fileState.(currentChunk := current + 1);
      }
      if fileState.currentChunk == fileState.totalChunks {
        fileState := fileState.(status := Completed);
      } else if uploadPaused {
        fileState := fileState.(status := Paused);
      }
      files := files[name := fileState];
    }

    /** uploadChunk(fileName, fileState): stores the byte range of chunk
        currentChunk, combines when it is the last index, and acknowledges
        the index. */
    method UploadChunk(name: string, fileState: FileState) returns (acknowledged: FileState)
      requires storage.Valid() && fileState.currentChunk < fileState.totalChunks
      modifies storage
      ensures storage.Valid()
      ensures acknowledged == Acknowledged(fileState)
      ensures storage.chunks == ChunksAfter(fileState, name, old(storage.chunks), CHUNK_SIZE)
      ensures storage.files == FilesAfter(fileState, name, old(storage.chunks), old(storage.files), CHUNK_SIZE)
    {
      var start := fileState.currentChunk * CHUNK_SIZE;
      var end := Min(start + CHUNK_SIZE, |fileState.file|);
      var chunk := Slice(fileState.file, start, end);
      assert chunk == ChunkBytes(fileState.file, CHUNK_SIZE, fileState.currentChunk);
      ghost var put := MemoryStore.Put(storage.chunks, name, fileState.currentChunk, chunk);
      storage.StoreChunk(name, fileState.currentChunk, chunk);
      assert storage.chunks == put;
      if fileState.currentChunk == fileState.totalChunks - 1 {
        var completeFile := storage.CombineChunks(name, fileState.totalChunks);
        assert storage.chunks == put - {name};
      }
      acknowledged := Acknowledged(fileState);
    }
  }
}
