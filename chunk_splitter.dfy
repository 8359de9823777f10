/**
 * The client's chunk splitter: a file of `size` bytes is cut into
 * ceil(size / CHUNK_SIZE) consecutive ranges of CHUNK_SIZE bytes, the last
 * one possibly shorter. Every chunk can be recomputed from its index alone.
 */
module ChunkSplitter {
  import opened Bytes

  /** 2 MiB. */
  const CHUNK_SIZE: nat := 1024 * 1024 * 2

  function Min(a: int, b: int): int { if a <= b then a else b }

  /** Math.ceil(size / CHUNK_SIZE), in exact integer arithmetic. */
  function TotalChunks(size: nat): (n: nat)
    ensures size <= n * CHUNK_SIZE
    ensures n == 0 || (n - 1) * CHUNK_SIZE < size
    ensures n == 0 <==> size == 0
  {
    (size + CHUNK_SIZE - 1) / CHUNK_SIZE
  }

  /** Offset of the first byte of chunk `i`. */
  function ChunkStart(i: nat): nat { i * CHUNK_SIZE }

  /** Offset one past the last byte of chunk `i`: Math.min(start + CHUNK_SIZE, size). */
  function ChunkEnd(i: nat, size: nat): nat { Min((i + 1) * CHUNK_SIZE, size) }

  /** file.slice(start, Math.min(end, totalSize)) for chunk `i`. */
  function Slice(bytes: seq<byte>, i: nat): (c: seq<byte>)
    requires i < TotalChunks(|bytes|)
    ensures 0 < |c| <= CHUNK_SIZE
    ensures |c| == CHUNK_SIZE || i == TotalChunks(|bytes|) - 1
  {
    bytes[ChunkStart(i)..ChunkEnd(i, |bytes|)]
  }

  /** The first `k` chunks of `bytes`, in index order. */
  function Chunks(bytes: seq<byte>, k: nat): (cs: seq<seq<byte>>)
    requires k <= TotalChunks(|bytes|)
    ensures |cs| == k
  {
    seq(k, i requires 0 <= i < k => Slice(bytes, i))
  }

  /** The bytes carried by the first `k` chunks. */
  function Sent(bytes: seq<byte>, k: nat): (s: seq<byte>)
  {
    bytes[..Min(k * CHUNK_SIZE, |bytes|)]
  }

  /** Chunks never overlap: chunk i ends where or before chunk j starts. */
  lemma ChunksDisjoint(size: nat, i: nat, j: nat)
    requires i < j < TotalChunks(size)
    ensures ChunkStart(i) < ChunkEnd(i, size) <= ChunkStart(j) < ChunkEnd(j, size)
  {
    assert (i + 1) * CHUNK_SIZE <= j * CHUNK_SIZE;
  }

  /** The bytes of the first i chunks followed by chunk i are the bytes of the first i + 1 chunks. */
  lemma SentStep(bytes: seq<byte>, i: nat)
    requires i < TotalChunks(|bytes|)
    ensures Sent(bytes, i) + Slice(bytes, i) == Sent(bytes, i + 1)
  {
    assert i * CHUNK_SIZE < |bytes|;
    assert Sent(bytes, i) == bytes[..i * CHUNK_SIZE];
  }

  /** All chunks together carry the whole file. */
  lemma SentAll(bytes: seq<byte>)
    ensures Sent(bytes, TotalChunks(|bytes|)) == bytes
  {
  }

  /** Joining the first k chunks gives the first k * CHUNK_SIZE bytes of the file. */
  lemma {:induction false} ChunksJoin(bytes: seq<byte>, k: nat)
    requires k <= TotalChunks(|bytes|)
    ensures Flatten(Chunks(bytes, k)) == Sent(bytes, k)
  {
    if k > 0 {
      ChunksJoin(bytes, k - 1);
      assert Chunks(bytes, k) == Chunks(bytes, k - 1) + [Slice(bytes, k - 1)];
      FlattenAppend(Chunks(bytes, k - 1), Slice(bytes, k - 1));
      SentStep(bytes, k - 1);
    }
  }

  /** Splitting a file into all of its chunks and joining them gives the file back. */
  lemma SplitJoin(bytes: seq<byte>)
    ensures Flatten(Chunks(bytes, TotalChunks(|bytes|))) == bytes
  {
    ChunksJoin(bytes, TotalChunks(|bytes|));
    SentAll(bytes);
  }

  /** A file of 5 MiB is sent as three chunks of 2, 2 and 1 MiB. */
  lemma FiveMiBExample(bytes: seq<byte>)
    requires |bytes| == 5 * 1024 * 1024
    ensures TotalChunks(|bytes|) == 3
    ensures |Slice(bytes, 0)| == 2 * 1024 * 1024
    ensures |Slice(bytes, 1)| == 2 * 1024 * 1024
    ensures |Slice(bytes, 2)| == 1024 * 1024
  {
  }
}
