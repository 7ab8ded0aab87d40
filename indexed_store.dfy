/** The `FileStorage` of wwwroot/app.js with the IndexedDB object stores as
    maps: the `chunks` store keyed by [fileName, chunkIndex] and the `files`
    store keyed by name. */
module IndexedStore {
  import opened Common
  import opened Chunking

  /** The MIME type of every combined blob. */
  const OCTET_STREAM: string := "application/octet-stream"

  /** A record of the `files` store. */
  datatype FileRecord = FileRecord(name: string, data: Bytes, size: nat, mimeType: string, lastModified: int)

  /** `store.get([fileName, chunkIndex])` followed by `?.data`. */
  function Lookup(records: map<(string, nat), Bytes>, f: string, i: nat): Option<Bytes>
  {
    if (f, i) in records then Some(records[(f, i)]) else None
  }

  /** `put` replaces the record under its key: a lookup of that key sees the
      latest data and every other key sees what it saw before. */
  lemma StoreThenLookup(records: map<(string, nat), Bytes>, f: string, i: nat, d: Bytes, g: string, j: nat)
    ensures Lookup(records[(f, i) := d], g, j) == if (g, j) == (f, i) then Some(d) else Lookup(records, g, j)
  {
  }

  /** Every index 0..n-1 of f has a record. */
  predicate AllPresent(records: map<(string, nat), Bytes>, f: string, n: nat)
  {
    forall i | 0 <= i < n :: (f, i) in records
  }

  /** The data of records 0..n-1 of f, in index order. */
  function StoredChunks(records: map<(string, nat), Bytes>, f: string, n: nat): (r: seq<Bytes>)
    requires AllPresent(records, f, n)
    ensures |r| == n && forall i | 0 <= i < n :: r[i] == records[(f, i)]
  {
    seq(n, i requires 0 <= i < n => records[(f, i)])
  }

  /** The records of every file but f. */
  function WithoutFile(records: map<(string, nat), Bytes>, f: string): (r: map<(string, nat), Bytes>)
    ensures forall k | k in r :: k.0 != f && k in records && r[k] == records[k]
    ensures forall k | k in records && k.0 != f :: k in r
  {
    map k | k in records && k.0 != f :: records[k]
  }

  /** When the records of f hold the chunks of `file`, the stored chunks
      concatenated in index order are the file. */
  lemma StoredChunksReassemble(records: map<(string, nat), Bytes>, f: string, file: Bytes)
    requires forall i | 0 <= i < TotalChunks(|file|, CHUNK_SIZE) ::
      (f, i) in records && records[(f, i)] == ChunkBytes(file, CHUNK_SIZE, i)
    ensures AllPresent(records, f, TotalChunks(|file|, CHUNK_SIZE))
    ensures Flatten(StoredChunks(records, f, TotalChunks(|file|, CHUNK_SIZE))) == file
  {
    var n := TotalChunks(|file|, CHUNK_SIZE);
    assert StoredChunks(records, f, n) == Chunks(file, CHUNK_SIZE, n);
    Reassemble(file, CHUNK_SIZE);
  }

  class FileStorage {
    /** The `chunks` object store. */
    var chunkRecords: map<(string, nat), Bytes>
    /** The `files` object store. */
    var fileRecords: map<string, FileRecord>

    /** A file record sits under its own name and describes its blob. */
    ghost predicate Valid()
      reads this
    {
      forall k | k in fileRecords ::
        && fileRecords[k].name == k
        && fileRecords[k].size == |fileRecords[k].data|
        && fileRecords[k].mimeType == OCTET_STREAM
    }

    /** A fresh, empty database. */
    constructor ()
      ensures Valid()
      ensures chunkRecords == map[] && fileRecords == map[]
    {
      chunkRecords, fileRecords := map[], map[];
    }

    /** storeChunk(fileName, chunkIndex, chunkData): `put` of one record. */
    method StoreChunk(fileName: string, chunkIndex: nat, chunkData: Bytes)
      modifies this
      ensures chunkRecords == old(chunkRecords)[(fileName, chunkIndex) := chunkData]
      ensures fileRecords == old(fileRecords)
    {
      chunkRecords := chunkRecords[(fileName, chunkIndex) := chunkData];
    }

    /** getChunk(fileName, chunkIndex): the data last stored under that key,
        or undefined. */
    function GetChunk(fileName: string, chunkIndex: nat): (r: Option<Bytes>)
      reads this
      ensures r.Some? <==> (fileName, chunkIndex) in chunkRecords
      ensures r.Some? ==> r.value == chunkRecords[(fileName, chunkIndex)]
    {
      Lookup(chunkRecords, fileName, chunkIndex)
    }

    /** combineChunks(fileName, totalChunks): null, with nothing written, as
        soon as one index is missing; otherwise the in-order concatenation,
        stored as a record with its size, the octet-stream type and the time
        `now`, after which the file's chunk records are deleted. */
    method CombineChunks(fileName: string, totalChunks: nat, now: int) returns (complete: Option<Bytes>)
      requires Valid()
      modifies this
      ensures Valid()
      ensures !AllPresent(old(chunkRecords), fileName, totalChunks) ==> complete == None && unchanged(this)
      ensures AllPresent(old(chunkRecords), fileName, totalChunks) ==>
        && complete == Some(Flatten(StoredChunks(old(chunkRecords), fileName, totalChunks)))
        && fileRecords == old(fileRecords)[fileName :=
             FileRecord(fileName, complete.value, |complete.value|, OCTET_STREAM, now)]
        && chunkRecords == WithoutFile(old(chunkRecords), fileName)
    {
      var chunks: seq<Bytes> := [];
      for i := 0 to totalChunks
        invariant AllPresent(chunkRecords, fileName, i)
        invariant chunks == StoredChunks(chunkRecords, fileName, i)
      {
        var chunk := GetChunk(fileName, i);
        if chunk.None? {
          return None;
        }
        chunks := chunks + [chunk.value];
      }
      var completeFile := Flatten(chunks);
      fileRecords := fileRecords[fileName :=
        FileRecord(fileName, completeFile, |completeFile|, OCTET_STREAM, now)];
      CleanupChunks(fileName);
      return Some(completeFile);
    }

    /** cleanupChunks(fileName): deletes the file's records one at a time,
        as the cursor visits them, and leaves every other record alone. */
    method CleanupChunks(fileName: string)
      modifies this
      ensures chunkRecords == WithoutFile(old(chunkRecords), fileName)
      ensures fileRecords == old(fileRecords)
    {
      while exists k | k in chunkRecords :: k.0 == fileName
        invariant WithoutFile(chunkRecords, fileName) == WithoutFile(old(chunkRecords), fileName)
        invariant fileRecords == old(fileRecords)
        decreases |chunkRecords|
      {
        var k :| k in chunkRecords && k.0 == fileName;
        ghost var before := chunkRecords;
        chunkRecords := chunkRecords - {k};
        assert WithoutFile(chunkRecords, fileName) == WithoutFile(before, fileName);
      }
      assert chunkRecords == WithoutFile(chunkRecords, fileName);
    }

    /** listFiles(): the records of the `files` store, each the published
        blob of the file it is named after. */
    function ListFiles(): (records: set<FileRecord>)
      reads this
      requires Valid()
      ensures forall r :: r in records <==> r.name in fileRecords && fileRecords[r.name] == r
      ensures forall r | r in records :: r.size == |r.data| && r.mimeType == OCTET_STREAM
    {
      set k | k in fileRecords :: fileRecords[k]
    }
  }
}
