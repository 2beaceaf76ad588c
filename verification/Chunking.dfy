/** Cutting a byte sequence into chunks of one size, the last possibly shorter. */
module Chunking {
  import opened Basics

  /** Number of chunks of n bytes: n over c, rounded up. */
  function ChunkCount(n: nat, c: nat): nat
    requires c > 0
  {
    (n + c - 1) / c
  }

  lemma ProductMonotone(a: nat, b: nat, c: nat)
    ensures a <= b ==> a * c <= b * c
  {}

  lemma QuotientBounds(p: nat, c: nat)
    requires c > 0
    ensures p / c * c <= p < p / c * c + c
  {}

  lemma QuotientUnique(p: nat, c: nat, i: nat)
    requires c > 0
    ensures p / c == i <==> i * c <= p < i * c + c
  {
    QuotientBounds(p, c);
    ProductMonotone(p / c + 1, i, c);
    ProductMonotone(i + 1, p / c, c);
  }

  /** A chunk index is in range exactly when its first byte is. */
  lemma CountMeaning(n: nat, c: nat, i: nat)
    requires c > 0
    ensures i < ChunkCount(n, c) <==> i * c < n
  {
    var q := ChunkCount(n, c);
    QuotientBounds(n + c - 1, c);
    ProductMonotone(i + 1, q, c);
    ProductMonotone(q, i, c);
  }

  function ChunkEnd(n: nat, c: nat, i: nat): (e: nat)
    ensures e <= n
  {
    if i * c + c <= n then i * c + c else n
  }

  function ChunkAt(source: seq<Byte>, c: nat, i: nat): (chunk: seq<Byte>)
    requires c > 0 && i < ChunkCount(|source|, c)
    ensures 0 < |chunk| <= c && i * c + |chunk| == ChunkEnd(|source|, c, i)
  {
    CountMeaning(|source|, c, i);
    source[i * c..ChunkEnd(|source|, c, i)]
  }

  /** Chunk i is the source from i chunk sizes on: a whole chunk size of it, or all that is left. */
  lemma ChunkMeaning(source: seq<Byte>, c: nat, i: nat, k: nat)
    requires c > 0 && i < ChunkCount(|source|, c)
    ensures |ChunkAt(source, c, i)| == c || i * c + |ChunkAt(source, c, i)| == |source|
    ensures k < |ChunkAt(source, c, i)| ==> i * c + k < |source| && ChunkAt(source, c, i)[k] == source[i * c + k]
  {
    CountMeaning(|source|, c, i);
  }

  /** The chunks up to the k-th, joined. */
  function Joined(source: seq<Byte>, c: nat, k: nat): seq<Byte>
    requires c > 0 && k <= ChunkCount(|source|, c)
  {
    if k == 0 then [] else Joined(source, c, k - 1) + ChunkAt(source, c, k - 1)
  }

  function Through(n: nat, c: nat, k: nat): (e: nat)
    ensures e <= n
  {
    if k * c <= n then k * c else n
  }

  lemma ChunkFollows(source: seq<Byte>, c: nat, k: nat)
    requires c > 0 && k < ChunkCount(|source|, c)
    ensures source[..Through(|source|, c, k)] + ChunkAt(source, c, k) == source[..Through(|source|, c, k + 1)]
  {}

  lemma {:induction false} JoinedIsPrefix(source: seq<Byte>, c: nat, k: nat)
    requires c > 0 && k <= ChunkCount(|source|, c)
    ensures Joined(source, c, k) == source[..Through(|source|, c, k)]
    decreases k
  {
    if k > 0 {
      JoinedIsPrefix(source, c, k - 1);
      ChunkFollows(source, c, k - 1);
    }
  }

  /** All the chunks joined are the source. */
  lemma JoinedWhole(source: seq<Byte>, c: nat)
    requires c > 0
    ensures Joined(source, c, ChunkCount(|source|, c)) == source
  {
    var n := ChunkCount(|source|, c);
    JoinedIsPrefix(source, c, n);
    CountMeaning(|source|, c, n);
  }
}
