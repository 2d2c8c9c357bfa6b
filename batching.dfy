/**
 * The chunked upsert shared by the forecast, bike and weather loaders: with
 * no rows nothing is sent; otherwise `ceil(total / chunk_size)` slices
 * `[i * chunk_size, min((i + 1) * chunk_size, total))` are sent in order.
 */
module Batching {
  import opened Tables

  /** What one run of the chunk loop sends to the store. */
  datatype Upload<T> =
    | NoRows                          // total == 0: returns before any call
    | ZeroChunkSize                   // `total / 0` raises ZeroDivisionError
    | Sent(chunks: seq<seq<T>>)       // the slices passed to upsert_df, in order

  function Min(a: int, b: int): int {
    if a <= b then a else b
  }

  /** `math.ceil(total / size)` for a positive total and size. */
  function CeilDiv(total: nat, size: nat): (n: nat)
    requires size > 0
    ensures n * size >= total
    ensures total > 0 ==> (n - 1) * size < total
    ensures total > 0 ==> n >= 1
  {
    var n := (total + size - 1) / size;
    assert n * size + (total + size - 1) % size == total + size - 1;
    n
  }

  lemma MulMonotone(a: nat, b: nat, size: nat)
    requires a <= b
    ensures a * size <= b * size
  {
  }

  /** Chunk `k` is a non-empty range of rows. */
  ghost predicate ChunkOf<T>(rows: seq<T>, k: nat, size: nat) {
    k * size < Min((k + 1) * size, |rows|)
  }

  /** Chunk `k`: rows `[k * size, min((k + 1) * size, total))`. */
  function Chunk<T>(rows: seq<T>, k: nat, size: nat): seq<T>
    requires ChunkOf(rows, k, size)
  {
    rows[k * size .. Min((k + 1) * size, |rows|)]
  }

  lemma ChunkBounds(i: nat, n: nat, size: nat, total: nat)
    requires size > 0 && total > 0 && n == CeilDiv(total, size) && i < n
    ensures i * size < total
    ensures (i + 1) * size == i * size + size
    ensures i * size == Min(i * size, total)
    ensures i * size < Min((i + 1) * size, total)
  {
    MulMonotone(i, n - 1, size);
  }

  lemma ChunkLength<T>(rows: seq<T>, k: nat, size: nat)
    requires size > 0 && ChunkOf(rows, k, size)
    ensures 0 < |Chunk(rows, k, size)| <= size
  {
    assert (k + 1) * size == k * size + size;
  }

  /**
   * The loop of `upsert_*`: chunk `i` is `rows[i * size .. min((i + 1) * size, total)]`
   * for each `i < ceil(total / size)`; the chunks are non-empty, at most `size`
   * long, and together give back every row exactly once in order.
   */
  method UpsertInBatches<T>(rows: seq<T>, chunkSize: int) returns (upload: Upload<T>)
    ensures rows == [] <==> upload == NoRows
    ensures rows != [] && chunkSize == 0 <==> upload == ZeroChunkSize
    ensures rows != [] && chunkSize < 0 ==> upload == Sent([])
    ensures rows != [] && chunkSize > 0 ==>
      && upload.Sent?
      && |upload.chunks| == CeilDiv(|rows|, chunkSize)
      && (forall i :: 0 <= i < |upload.chunks| ==>
            ChunkOf(rows, i, chunkSize) && upload.chunks[i] == Chunk(rows, i, chunkSize))
      && (forall i :: 0 <= i < |upload.chunks| ==> 0 < |upload.chunks[i]| <= chunkSize)
      && Flatten(upload.chunks) == rows
  {
    var total := |rows|;
    if total == 0 {
      return NoRows;
    }
    if chunkSize == 0 {
      return ZeroChunkSize;
    }
    if chunkSize < 0 {
      // a negative quotient makes `range(n_chunks)` empty
      return Sent([]);
    }
    var nChunks := CeilDiv(total, chunkSize);
    var chunks: seq<seq<T>> := [];
    var i := 0;
    while i < nChunks
      invariant 0 <= i <= nChunks
      invariant |chunks| == i
      invariant forall k :: 0 <= k < i ==> ChunkOf(rows, k, chunkSize) && chunks[k] == Chunk(rows, k, chunkSize)
      invariant Flatten(chunks) == rows[..Min(i * chunkSize, total)]
    {
      ChunkBounds(i, nChunks, chunkSize, total);
      var start := i * chunkSize;
      var end := Min((i + 1) * chunkSize, total);
      FlattenSnoc(chunks, rows[start..end]);
      assert rows[..start] + rows[start..end] == rows[..end];
      assert Chunk(rows, i, chunkSize) == rows[start..end];
      chunks := chunks + [rows[start..end]];
      i := i + 1;
    }
    assert Min(nChunks * chunkSize, total) == total;
    forall k | 0 <= k < |chunks| ensures 0 < |chunks[k]| <= chunkSize {
      ChunkLength(rows, k, chunkSize);
    }
    return Sent(chunks);
  }
}
