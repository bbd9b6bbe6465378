/** Versions of a backing file and the check a copy makes against them before it commits. */
module Backing {
  import opened Options
  import opened CacheRows

  newtype Byte = x: int | 0 <= x < 256
  type Bytes = seq<Byte>

  const CHUNK: nat := 256 * 1024

  datatype Version = Version(mtime: Stamp, bytes: Bytes)

  function StatOf(v: Version, attrs: Attrs): Stat { Stat(v.mtime, |v.bytes|, attrs) }

  /** An abort seen, or a final stat that differs from the first, makes the copy fail. */
  predicate PassesCheck(aborted: bool, first: Stat, live: Option<Stat>) {
    !aborted && (live.Some? ==> live.value.size == first.size && live.value.mtime == first.mtime)
  }

  /** What one read of a file holding `bytes` may return after `sofar`: its next bytes, at most a
      buffer full, and none only at the end. */
  predicate IsNextOf(bytes: Bytes, sofar: Bytes, chunk: Bytes) {
    && |chunk| <= CHUNK
    && (|sofar| <= |bytes| ==>
          && |sofar| + |chunk| <= |bytes| && chunk == bytes[|sofar|..|sofar| + |chunk|]
          && (chunk == [] ==> |sofar| == |bytes|))
  }

  lemma ChunkExtendsPrefix(bytes: Bytes, sofar: Bytes, chunk: Bytes)
    requires sofar <= bytes && IsNextOf(bytes, sofar, chunk)
    ensures sofar + chunk <= bytes
  {
  }
}
