/** The chunk folder a disk-based server builds when the chunks of one file
    are posted in some order: chunk i of the file under the name
    `Numbered(prefix, i)`. Shared by the proofs about the ASP.NET controller
    (empty prefix) and the Express server (`{filename}_chunk_`). */
module PostedChunks {
  import opened Common
  import opened Chunking
  import opened NumberedFiles

  /** The number of chunks of a file. */
  function Count(file: Bytes): nat
  {
    TotalChunks(|file|, CHUNK_SIZE)
  }

  /** The order of the posts is some permutation of 0..n-1. */
  ghost predicate Permutation(idxs: seq<nat>, n: nat)
  {
    |idxs| == n && NoDuplicates(idxs) && forall i: nat :: i in idxs <==> i < n
  }

  /** A prefix of a sequence without duplicates has none. */
  lemma PrefixNoDuplicates<T>(s: seq<T>, m: nat)
    requires NoDuplicates(s) && m <= |s|
    ensures NoDuplicates(s[..m])
  {
    forall a, b | 0 <= a < b < m ensures s[..m][a] != s[..m][b] {
      assert s[..m][a] == s[a] && s[..m][b] == s[b];
    }
  }

  /** The chunk folder after chunks `idxs` of `file` were written, in order. */
  function DirOf(file: Bytes, prefix: string, idxs: seq<nat>): map<string, Bytes>
  {
    if idxs == [] then map[]
    else
      var i := idxs[|idxs| - 1];
      DirOf(file, prefix, idxs[..|idxs| - 1])[Numbered(prefix, i) := ChunkBytes(file, CHUNK_SIZE, i)]
  }

  /** The folder holds the file of chunk i exactly when i was posted, and
      that file holds chunk i. */
  lemma {:induction false} DirOfHolds(file: Bytes, prefix: string, idxs: seq<nat>, i: nat)
    ensures Numbered(prefix, i) in DirOf(file, prefix, idxs) <==> i in idxs
    ensures i in idxs ==> DirOf(file, prefix, idxs)[Numbered(prefix, i)] == ChunkBytes(file, CHUNK_SIZE, i)
  {
    if idxs != [] {
      var init, last := idxs[..|idxs| - 1], idxs[|idxs| - 1];
      assert idxs == init + [last];
      DirOfHolds(file, prefix, init, i);
      if Numbered(prefix, i) == Numbered(prefix, last) {
        NumberedInjective(prefix, i, last);
      }
    }
  }

  /** Every file of the folder is the file of a posted index. */
  lemma {:induction false} DirOfNames(file: Bytes, prefix: string, idxs: seq<nat>, name: string)
    requires name in DirOf(file, prefix, idxs)
    ensures exists i | i in idxs :: name == Numbered(prefix, i)
  {
    var init, last := idxs[..|idxs| - 1], idxs[|idxs| - 1];
    assert idxs == init + [last];
    if name != Numbered(prefix, last) {
      DirOfNames(file, prefix, init, name);
      var i :| i in init && name == Numbered(prefix, i);
      assert i in idxs;
    }
  }

  /** Distinct indices give distinct files: the folder counts the posts. */
  lemma {:induction false} DirOfSize(file: Bytes, prefix: string, idxs: seq<nat>)
    requires NoDuplicates(idxs)
    ensures |DirOf(file, prefix, idxs)| == |idxs|
  {
    if idxs != [] {
      var init, last := idxs[..|idxs| - 1], idxs[|idxs| - 1];
      PrefixNoDuplicates(idxs, |idxs| - 1);
      DirOfSize(file, prefix, init);
      DirOfHolds(file, prefix, init, last);
      assert last !in init by {
        forall a | 0 <= a < |init| ensures init[a] != last {
          assert init[a] == idxs[a] && last == idxs[|idxs| - 1];
        }
      }
    }
  }

  /** Copying the files 0..k-1 of such a folder gives the first k chunks. */
  lemma {:induction false} WrittenChunks(file: Bytes, prefix: string, idxs: seq<nat>, k: nat)
    requires forall j: nat | j < k :: j in idxs
    requires forall j: nat | j < k :: Numbered(prefix, j) in DirOf(file, prefix, idxs)
    ensures Written(DirOf(file, prefix, idxs), prefix, k) == Flatten(Chunks(file, CHUNK_SIZE, k))
  {
    if k > 0 {
      WrittenChunks(file, prefix, idxs, k - 1);
      DirOfHolds(file, prefix, idxs, k - 1);
      ChunksSnoc(file, CHUNK_SIZE, k - 1);
      FlattenAppend(Chunks(file, CHUNK_SIZE, k - 1), ChunkBytes(file, CHUNK_SIZE, k - 1));
    }
  }

  /** With every chunk 0..n-1 posted once, the combine loop over the folder
      finds all n files, writes the original file back and leaves nothing
      behind. */
  lemma CopyWhole(file: Bytes, prefix: string, idxs: seq<nat>)
    requires Permutation(idxs, Count(file))
    ensures var dir := DirOf(file, prefix, idxs); var n := Count(file);
      && FirstMissing(dir, prefix, n) == n
      && Written(dir, prefix, n) == file
      && dir - Names(prefix, n) == map[]
  {
    var n := Count(file);
    var dir := DirOf(file, prefix, idxs);
    forall j: nat | j < n ensures Numbered(prefix, j) in dir {
      DirOfHolds(file, prefix, idxs, j);
    }
    FirstMissingIs(dir, prefix, n, n);
    WrittenChunks(file, prefix, idxs, n);
    Reassemble(file, CHUNK_SIZE);
    var left := dir - Names(prefix, n);
    forall name | name in left ensures false {
      DirOfNames(file, prefix, idxs, name);
      var i :| i in idxs && name == Numbered(prefix, i);
      NamesHold(prefix, i, n);
    }
    assert left.Keys == {};
  }
}
