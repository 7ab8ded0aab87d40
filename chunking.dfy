/** How both uploaders cut a file into chunks: the chunk count, the byte range
    of chunk i and `Blob.slice`, and the facts that the ranges tile the file
    and that the chunks, put back together in index order, are the file. */
module Chunking {
  import opened Common

  /** The uploaders' chunk size, 1 MiB. */
  const CHUNK_SIZE: nat := 1024 * 1024

  function Min(a: int, b: int): int
  {
    if a <= b then a else b
  }

  /** `Math.ceil(size / chunkSize)`, computed on integers. */
  function TotalChunks(size: nat, chunkSize: nat): (n: nat)
    requires chunkSize > 0
    ensures n * chunkSize >= size
    ensures n > 0 ==> (n - 1) * chunkSize < size
    ensures n == 0 <==> size == 0
  {
    CeilBounds(size, chunkSize);
    (size + chunkSize - 1) / chunkSize
  }

  lemma CeilBounds(size: nat, cs: nat)
    requires cs > 0
    ensures ((size + cs - 1) / cs) * cs >= size
    ensures (size + cs - 1) / cs > 0 ==> ((size + cs - 1) / cs - 1) * cs < size
    ensures (size + cs - 1) / cs == 0 <==> size == 0
  {
    var q, r := (size + cs - 1) / cs, (size + cs - 1) % cs;
    assert size + cs - 1 == q * cs + r && 0 <= r < cs;
    assert q * cs >= size;
    if q > 0 {
      assert (q - 1) * cs == q * cs - cs;
    }
    if size > 0 {
      assert q * cs > 0;
    }
  }

  /** `start = currentChunk * chunkSize` */
  function ChunkStart(i: nat, chunkSize: nat): nat
  {
    i * chunkSize
  }

  /** `end = Math.min(start + chunkSize, file.size)` */
  function ChunkEnd(i: nat, chunkSize: nat, size: nat): nat
  {
    Min(i * chunkSize + chunkSize, size)
  }

  /** `Blob.slice(start, end)`: both ends are clamped to the blob's size and a
      reversed range gives the empty blob. */
  function Slice(b: Bytes, start: nat, end: nat): (r: Bytes)
    ensures start <= end <= |b| ==> r == b[start..end]
    ensures start <= |b| <= end ==> r == b[start..]
    ensures |b| <= start || end <= start ==> r == []
    ensures |r| <= |b|
  {
    var s, e := Min(start, |b|), Min(end, |b|);
    if s <= e then b[s..e] else []
  }

  /** The bytes the uploaders send as chunk i of the file. */
  function ChunkBytes(file: Bytes, chunkSize: nat, i: nat): Bytes
  {
    Slice(file, ChunkStart(i, chunkSize), ChunkEnd(i, chunkSize, |file|))
  }

  /** Every chunk of a file carries at least one byte and at most a chunk
      size of them, so a server never sees an empty chunk from an uploader. */
  lemma ChunkNotEmpty(file: Bytes, cs: nat, i: nat)
    requires cs > 0 && i < TotalChunks(|file|, cs)
    ensures 0 < |ChunkBytes(file, cs, i)| <= cs
  {
    ChunkRange(|file|, cs, i);
  }

  /** Chunks 0..k-1 of the file, in index order. */
  function Chunks(file: Bytes, chunkSize: nat, k: nat): (r: seq<Bytes>)
    ensures |r| == k
    ensures forall i | 0 <= i < k :: r[i] == ChunkBytes(file, chunkSize, i)
  {
    seq(k, i requires 0 <= i => ChunkBytes(file, chunkSize, i))
  }

  /** One more chunk is the chunks so far and then that chunk. */
  lemma ChunksSnoc(file: Bytes, chunkSize: nat, k: nat)
    ensures Chunks(file, chunkSize, k + 1) == Chunks(file, chunkSize, k) + [ChunkBytes(file, chunkSize, k)]
  {
  }

  lemma MulMonotone(a: nat, b: nat, c: nat)
    ensures a <= b ==> a * c <= b * c
  {
  }

  /** Every chunk below the count is a non-empty range inside the file, at most
      one chunk long, and exactly one chunk long unless it is the last. */
  lemma ChunkRange(size: nat, cs: nat, i: nat)
    requires cs > 0 && i < TotalChunks(size, cs)
    ensures ChunkStart(i, cs) < ChunkEnd(i, cs, size) <= size
    ensures ChunkEnd(i, cs, size) - ChunkStart(i, cs) <= cs
    ensures i + 1 < TotalChunks(size, cs) ==> ChunkEnd(i, cs, size) - ChunkStart(i, cs) == cs
  {
    var n := TotalChunks(size, cs);
    MulMonotone(i, n - 1, cs);
    assert i * cs + cs == (i + 1) * cs;
    MulMonotone(i + 1, n - 1, cs);
  }

  /** The ranges tile [0, size): the first starts at 0, each ends where the
      next starts, and the last ends at the file's size. */
  lemma {:induction false} RangesTile(size: nat, cs: nat)
    requires cs > 0
    ensures TotalChunks(size, cs) > 0 ==> ChunkStart(0, cs) == 0
    ensures forall i | 0 <= i && i + 1 < TotalChunks(size, cs) ::
      ChunkEnd(i, cs, size) == ChunkStart(i + 1, cs)
    ensures TotalChunks(size, cs) > 0 ==> ChunkEnd(TotalChunks(size, cs) - 1, cs, size) == size
  {
    var n := TotalChunks(size, cs);
    forall i | 0 <= i && i + 1 < n
      ensures ChunkEnd(i, cs, size) == ChunkStart(i + 1, cs)
    {
      ChunkRange(size, cs, i);
      assert i * cs + cs == (i + 1) * cs;
    }
    if n > 0 {
      assert (n - 1) * cs + cs == n * cs;
    }
  }

  /** The chunk whose range holds a byte position is unique. */
  lemma DivUnique(p: nat, cs: nat, i: nat)
    requires cs > 0 && i * cs <= p < i * cs + cs
    ensures i == p / cs
  {
    var q := p / cs;
    assert q * cs + p % cs == p;
    assert (i + 1) * cs == i * cs + cs && (q + 1) * cs == q * cs + cs;
    MulMonotone(i + 1, q, cs);
    MulMonotone(q + 1, i, cs);
  }

  /** No gap and no overlap: every byte position of the file lies in exactly
      one chunk range, the one numbered p / chunkSize. */
  lemma ByteInExactlyOneChunk(size: nat, cs: nat, p: nat, i: nat)
    requires cs > 0 && p < size
    ensures p / cs < TotalChunks(size, cs)
    ensures ChunkStart(p / cs, cs) <= p < ChunkEnd(p / cs, cs, size)
    ensures ChunkStart(i, cs) <= p < ChunkEnd(i, cs, size) ==> i == p / cs
  {
    var n, q := TotalChunks(size, cs), p / cs;
    assert q * cs + p % cs == p;
    MulMonotone(n, q, cs);
    if ChunkStart(i, cs) <= p < ChunkEnd(i, cs, size) {
      DivUnique(p, cs, i);
    }
  }

  /** The first k chunks, concatenated in order, are the file's first
      min(k * chunkSize, size) bytes. */
  lemma {:induction false} ReassemblePrefix(file: Bytes, cs: nat, k: nat)
    requires cs > 0 && k <= TotalChunks(|file|, cs)
    ensures Flatten(Chunks(file, cs, k)) == file[..Min(k * cs, |file|)]
  {
    if k == 0 {
      assert Chunks(file, cs, 0) == [];
    } else {
      ReassemblePrefix(file, cs, k - 1);
      ReassembleStep(file, cs, k - 1);
    }
  }

  /** One more chunk extends the prefix from the chunk's start to its end. */
  lemma ReassembleStep(file: Bytes, cs: nat, i: nat)
    requires cs > 0 && i < TotalChunks(|file|, cs)
    requires Flatten(Chunks(file, cs, i)) == file[..Min(i * cs, |file|)]
    ensures Flatten(Chunks(file, cs, i + 1)) == file[..Min((i + 1) * cs, |file|)]
  {
    ChunkRange(|file|, cs, i);
    ChunksSnoc(file, cs, i);
    StepBounds(|file|, cs, i);
    PrefixExtend(file, Chunks(file, cs, i), ChunkStart(i, cs), ChunkEnd(i, cs, |file|));
  }

  /** Where chunk i starts and ends, as the prefixes before and after it. */
  lemma StepBounds(size: nat, cs: nat, i: nat)
    requires cs > 0 && i < TotalChunks(size, cs)
    ensures Min(i * cs, size) == ChunkStart(i, cs)
    ensures Min((i + 1) * cs, size) == ChunkEnd(i, cs, size)
  {
    ChunkRange(size, cs, i);
    assert (i + 1) * cs == i * cs + cs;
  }

  /** A prefix of the file followed by the bytes from its end to `end` is
      the prefix up to `end`. */
  lemma PrefixExtend(file: Bytes, parts: seq<Bytes>, start: nat, end: nat)
    requires start <= end <= |file| && Flatten(parts) == file[..start]
    ensures Flatten(parts + [Slice(file, start, end)]) == file[..end]
  {
    FlattenAppend(parts, Slice(file, start, end));
    assert file[..start] + file[start..end] == file[..end];
  }

  /** Round trip: all the chunks of a file, concatenated in index order,
      reproduce the file byte for byte. */
  lemma Reassemble(file: Bytes, cs: nat)
    requires cs > 0
    ensures Flatten(Chunks(file, cs, TotalChunks(|file|, cs))) == file
  {
    var n := TotalChunks(|file|, cs);
    ReassemblePrefix(file, cs, n);
    assert file[..|file|] == file;
  }
}
