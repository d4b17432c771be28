/** Long value lists are sent to the database in consecutive slices. */
module Chunking {
  const QUERY_CHUNK_SIZE := 2000

  /** The end of the slice that starts at `i`. */
  function ChunkEnd(i: nat, n: nat): (j: nat)
    requires i < n
    ensures i < j <= n
  {
    if i + QUERY_CHUNK_SIZE < n then i + QUERY_CHUNK_SIZE else n
  }
}
