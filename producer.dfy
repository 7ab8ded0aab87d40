/** The per-file upload state that both `FileUploader` classes keep, and the
    bookkeeping facts that hold between chunk transfers. */
module Producer {
  import opened Common
  import opened Chunking

  /** `fileState.status` */
  datatype Status = Pending | Uploading | Paused | Completed

  /** `fileState`: the file's bytes, the set of indices acknowledged, the next
      index to send, the chunk count and the status. */
  datatype FileState = FileState(
    file: Bytes,
    uploadedChunks: set<nat>,
    currentChunk: nat,
    totalChunks: nat,
    status: Status)

  /** `file.fullPath || file.name`: an empty or missing full path falls back
      to the name. */
  function FileKey(fullPath: Option<string>, name: string): string
  {
    if fullPath.Some? && fullPath.value != "" then fullPath.value else name
  }

  /** The state `addFile` creates for a new file. */
  function NewFileState(file: Bytes, chunkSize: nat): FileState
    requires chunkSize > 0
  {
    FileState(file, {}, 0, TotalChunks(|file|, chunkSize), Pending)
  }

  /** The indices 0..c-1, built one index at a time. */
  function Upto(c: nat): set<nat>
  {
    if c == 0 then {} else Upto(c - 1) + {c - 1}
  }

  /** Upto(c) holds exactly the indices below c. */
  lemma {:induction false} UptoMembers(c: nat)
    ensures forall j: nat :: j in Upto(c) <==> j < c
  {
    if c > 0 {
      UptoMembers(c - 1);
    }
  }

  /** What holds of a file's state between chunk transfers: the count is the
      ceiling of size over chunk size, the indices acknowledged are exactly
      those below currentChunk, a pending file has sent nothing, a paused one
      has chunks left and a completed one none. */
  ghost predicate Consistent(st: FileState, chunkSize: nat)
  {
    && chunkSize > 0
    && st.totalChunks == TotalChunks(|st.file|, chunkSize)
    && st.currentChunk <= st.totalChunks
    && st.uploadedChunks == Upto(st.currentChunk)
    && (st.status == Pending ==> st.currentChunk == 0)
    && (st.status == Paused ==> st.currentChunk < st.totalChunks)
    && (st.status == Completed ==> st.currentChunk == st.totalChunks)
  }

  /** A new file state is consistent: pending, nothing sent, nothing
      acknowledged, and ceil(size / chunkSize) chunks. */
  lemma NewFileStateConsistent(file: Bytes, chunkSize: nat)
    requires chunkSize > 0
    ensures Consistent(NewFileState(file, chunkSize), chunkSize)
    ensures NewFileState(file, chunkSize).totalChunks * chunkSize >= |file|
    ensures NewFileState(file, chunkSize).totalChunks == 0 <==> |file| == 0
  {
    assert Upto(0) == {};
  }

  /** The acknowledged set grows with currentChunk: acknowledging index c and
      then moving to c + 1 keeps uploadedChunks == 0..currentChunk-1, which is
      why the skip of an already-acknowledged index never fires. */
  lemma AcknowledgeAdvance(c: nat)
    ensures Upto(c) + {c} == Upto(c + 1)
    ensures c !in Upto(c)
  {
    UptoMembers(c);
  }

  /** The names of the files that are registered, in insertion order, each
      named once. */
  ghost predicate Registered(files: map<string, FileState>, order: seq<string>)
  {
    && NoDuplicates(order)
    && (forall k | k in order :: k in files)
    && (forall k | k in files :: k in order)
  }

  /** File k is tracked and consistent. */
  ghost predicate FileConsistent(files: map<string, FileState>, k: string, cs: nat)
  {
    k in files && Consistent(files[k], cs)
  }

  /** Every tracked file is consistent. */
  ghost predicate AllConsistent(files: map<string, FileState>, cs: nat)
  {
    forall k {:trigger FileConsistent(files, k, cs)} | k in files :: FileConsistent(files, k, cs)
  }

  /** Replacing or adding one consistent state keeps every file consistent. */
  lemma AllConsistentUpdate(files: map<string, FileState>, key: string, st: FileState, cs: nat)
    requires AllConsistent(files, cs) && Consistent(st, cs)
    ensures AllConsistent(files[key := st], cs)
  {
    var files' := files[key := st];
    forall k | k in files' ensures FileConsistent(files', k, cs) {
      if k != key {
        assert FileConsistent(files, k, cs);
      }
    }
  }

  /** The file's state once chunk currentChunk is acknowledged. */
  function Acknowledged(st: FileState): FileState
  {
    st.(uploadedChunks := st.uploadedChunks + {st.currentChunk})
  }

  /** The file's state once chunk currentChunk is acknowledged and the loop
      has moved on. */
  function Advanced(st: FileState): FileState
  {
    Acknowledged(st).(currentChunk := st.currentChunk + 1)
  }

  /** An uploading file that moves past an unsent index stays consistent. */
  lemma AdvancedConsistent(st: FileState, cs: nat)
    requires Consistent(st, cs) && st.status == Uploading && st.currentChunk < st.totalChunks
    ensures Consistent(Advanced(st), cs)
  {
    AcknowledgeAdvance(st.currentChunk);
  }

  /** The same bytes and no lost progress. */
  ghost predicate Kept(before: FileState, after: FileState)
  {
    && after.file == before.file
    && before.currentChunk <= after.currentChunk
  }

  /** What one pass of startUpload leaves of a file that was not uploading:
      the same bytes, no lost progress, a completed file untouched, and every
      file either completed or paused. */
  ghost predicate Swept(before: FileState, after: FileState)
  {
    && Kept(before, after)
    && (before.status == Completed ==> after == before)
    && (after.status == Completed || after.status == Paused)
  }
}
