/** The in-memory `storage` object of app.js: chunks held per file name and
    chunk index, a completion check over the indices, and a combine that
    publishes the artifact and drops the file's chunks. */
module MemoryStore {
  import opened Common
  import Chunking

  /** The bytes of the text "undefined": `new Blob([...])` turns an
      `undefined` part (a missing chunk) into this text. */
  const UNDEFINED_TEXT: Bytes := [0x75, 0x6e, 0x64, 0x65, 0x66, 0x69, 0x6e, 0x65, 0x64]

  /** The Blob part that `fileChunks.get(i)` contributes. */
  function Part(fileChunks: map<nat, Bytes>, i: nat): Bytes
  {
    if i in fileChunks then fileChunks[i] else UNDEFINED_TEXT
  }

  /** Parts 0..n-1, in index order. */
  function Parts(fileChunks: map<nat, Bytes>, n: nat): (r: seq<Bytes>)
    ensures |r| == n && forall i | 0 <= i < n :: r[i] == Part(fileChunks, i)
  {
    seq(n, i requires 0 <= i => Part(fileChunks, i))
  }

  /** The blob that combineChunks builds from a file's chunk map. */
  function Assemble(fileChunks: map<nat, Bytes>, n: nat): Bytes
  {
    Flatten(Parts(fileChunks, n))
  }

  /** Every index 0..n-1 is present. */
  predicate Complete(fileChunks: map<nat, Bytes>, n: nat)
  {
    forall i | 0 <= i < n :: i in fileChunks
  }

  /** `chunks.get(f).set(i, d)` after creating the map for f on first use:
      index i of f now holds d, every other file and every other index keeps
      its payload, and an index stored twice is overwritten, not added. */
  function Put(chunks: map<string, map<nat, Bytes>>, f: string, i: nat, d: Bytes)
    : (r: map<string, map<nat, Bytes>>)
    ensures r.Keys == chunks.Keys + {f}
    ensures i in r[f] && r[f][i] == d
    ensures f in chunks ==> r[f].Keys == chunks[f].Keys + {i}
    ensures f !in chunks ==> r[f].Keys == {i}
    ensures forall j | j in r[f] && j != i :: f in chunks && j in chunks[f] && r[f][j] == chunks[f][j]
    ensures forall g | g in chunks && g != f :: r[g] == chunks[g]
  {
    var fileChunks := if f in chunks then chunks[f] else map[];
    chunks[f := fileChunks[i := d]]
  }

  /** Storing an index twice overwrites it: the file's chunk count grows by
      one only for an index not stored before. */
  lemma PutCount(chunks: map<string, map<nat, Bytes>>, f: string, i: nat, d: Bytes)
    ensures var r := Put(chunks, f, i, d);
      |r[f]| == if f in chunks && i in chunks[f] then |chunks[f]| else (if f in chunks then |chunks[f]| else 0) + 1
  {
  }

  /** When every index is present, the assembled blob is the stored
      payloads in index order; for the chunks of a file it is the file. */
  lemma AssembleChunksOfFile(fileChunks: map<nat, Bytes>, file: Bytes, cs: nat)
    requires cs > 0
    requires forall i | 0 <= i < Chunking.TotalChunks(|file|, cs) ::
      i in fileChunks && fileChunks[i] == Chunking.ChunkBytes(file, cs, i)
    ensures Complete(fileChunks, Chunking.TotalChunks(|file|, cs))
    ensures Assemble(fileChunks, Chunking.TotalChunks(|file|, cs)) == file
  {
    var n := Chunking.TotalChunks(|file|, cs);
    assert Parts(fileChunks, n) == Chunking.Chunks(file, cs, n);
    Chunking.Reassemble(file, cs);
  }

  /** A missing index does not stop the combine: the artifact then carries
      the text "undefined" where that chunk belongs. */
  lemma {:induction false} AssembleMissing(fileChunks: map<nat, Bytes>, n: nat, m: nat)
    requires m < n && m !in fileChunks
    ensures var at := |Assemble(fileChunks, m)|;
      at + |UNDEFINED_TEXT| <= |Assemble(fileChunks, n)| &&
      Assemble(fileChunks, n)[at..at + |UNDEFINED_TEXT|] == UNDEFINED_TEXT
  {
    var parts := Parts(fileChunks, n);
    assert parts[..m] == Parts(fileChunks, m);
    FlattenAt(parts, m);
  }

  class Storage {
    /** `chunks`: file name -> (chunk index -> payload) */
    var chunks: map<string, map<nat, Bytes>>
    /** `files`: file name -> complete artifact */
    var files: map<string, Bytes>
    /** The insertion order of the `files` Map, which `keys()` follows. */
    var fileOrder: seq<string>

    ghost predicate Valid()
      reads this
    {
      && NoDuplicates(fileOrder)
      && (forall k | k in fileOrder :: k in files)
      && (forall k | k in files :: k in fileOrder)
    }

    constructor ()
      ensures Valid()
      ensures chunks == map[] && files == map[] && fileOrder == []
    {
      chunks, files, fileOrder := map[], map[], [];
    }

    /** storeChunk(fileName, chunkIndex, chunkData) */
    method StoreChunk(fileName: string, chunkIndex: nat, chunkData: Bytes)
      requires Valid()
      modifies this
      ensures Valid()
      ensures chunks == Put(old(chunks), fileName, chunkIndex, chunkData)
      ensures files == old(files) && fileOrder == old(fileOrder)
    {
      ghost var before := chunks;
      if fileName !in chunks {
        chunks := chunks[fileName := map[]];
      }
      var fileChunks: map<nat, Bytes> := chunks[fileName];
      assert fileChunks == if fileName in before then before[fileName] else map[];
      chunks := chunks[fileName := fileChunks[chunkIndex := chunkData]];
      assert chunks == before[fileName := fileChunks[chunkIndex := chunkData]];
    }

    /** hasAllChunks(fileName, totalChunks) */
    method HasAllChunks(fileName: string, totalChunks: nat) returns (all: bool)
      ensures all <==> fileName in chunks && Complete(chunks[fileName], totalChunks)
    {
      if fileName !in chunks {
        return false;
      }
      var fileChunks := chunks[fileName];
      for i := 0 to totalChunks
        invariant forall j | 0 <= j < i :: j in fileChunks
      {
        if i !in fileChunks {
          return false;
        }
      }
      return true;
    }

    /** combineChunks(fileName, totalChunks): null for an unknown file;
        otherwise the blob of parts 0..totalChunks-1, published under the
        file name, with the file's chunk map deleted. */
    method CombineChunks(fileName: string, totalChunks: nat) returns (complete: Option<Bytes>)
      requires Valid()
      modifies this
      ensures Valid()
      ensures old(fileName !in chunks) ==> complete == None && unchanged(this)
      ensures old(fileName in chunks) ==>
        && complete == Some(Assemble(old(chunks[fileName]), totalChunks))
        && files == old(files)[fileName := complete.value]
        && chunks == old(chunks) - {fileName}
        && fileOrder == if fileName in old(files) then old(fileOrder) else old(fileOrder) + [fileName]
    {
      if fileName !in chunks {
        return None;
      }
      var fileChunks := chunks[fileName];
      var parts: seq<Bytes> := [];
      for i := 0 to totalChunks
        invariant parts == Parts(fileChunks, i)
      {
        parts := parts + [if i in fileChunks then fileChunks[i] else UNDEFINED_TEXT];
      }
      var blob := Flatten(parts);
      if fileName !in files {
        fileOrder := fileOrder + [fileName];
      }
      files := files[fileName := blob];
      chunks := chunks - {fileName};
      return Some(blob);
    }

    /** getFile(fileName) */
    function GetFile(fileName: string): (r: Option<Bytes>)
      reads this
      ensures r.Some? <==> fileName in files
      ensures r.Some? ==> r.value == files[fileName]
    {
      if fileName in files then Some(files[fileName]) else None
    }

    /** listFiles(): the names of the published artifacts, each once, in the
        order they were first published; chunk maps are never listed. */
    function ListFiles(): (names: seq<string>)
      reads this
      requires Valid()
      ensures NoDuplicates(names)
      ensures forall n :: n in names <==> n in files
    {
      fileOrder
    }
  }
}
