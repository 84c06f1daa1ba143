/** `splitTermsIntoChunks`: cutting the term list into consecutive groups
    of a fixed size, one group per batch request. */
module Chunking {

  /** Group size used when the caller gives none. */
  const DefaultChunkSize: nat := 100

  /** The groups concatenated back in order. */
  function Flatten<T>(groups: seq<seq<T>>): seq<T>
    decreases |groups|
  {
    if |groups| == 0 then [] else groups[0] + Flatten(groups[1..])
  }

  /** `r` cuts `s` into consecutive slices of `size` elements; only the
      last may be shorter, and none is empty. */
  ghost predicate IsChunking<T>(r: seq<seq<T>>, s: seq<T>, size: nat) {
    && Flatten(r) == s
    && (|s| == 0 ==> |r| == 0)
    && (|s| > 0 ==> size * (|r| - 1) < |s| <= size * |r|)
    && (forall k :: 0 <= k < |r| ==> 0 < |r[k]| <= size)
    && (forall k :: 0 <= k < |r| - 1 ==> |r[k]| == size)
    && (|r| > 0 ==> |r[|r| - 1]| == |s| - size * (|r| - 1))
  }

  /** A full first slice in front of a chunking of the rest is a chunking
      of the whole. */
  lemma ChunkingCons<T>(s: seq<T>, size: nat, rest: seq<seq<T>>)
    requires 0 < size < |s| && IsChunking(rest, s[size..], size)
    ensures IsChunking([s[..size]] + rest, s, size)
  {
    var r := [s[..size]] + rest;
    assert r[1..] == rest;
    assert forall k :: 1 <= k < |r| ==> r[k] == rest[k - 1];
    assert s[..size] + s[size..] == s;
    assert size * (|r| - 1) == size * (|rest| - 1) + size;
  }

  /** Consecutive slices of `size` elements; only the last may be shorter,
      and none is empty. */
  function SplitIntoChunks<T>(s: seq<T>, size: nat): (r: seq<seq<T>>)
    requires size > 0
    decreases |s|
    ensures Flatten(r) == s
    ensures |s| == 0 ==> |r| == 0
    ensures |s| > 0 ==> size * (|r| - 1) < |s| <= size * |r|
    ensures forall k :: 0 <= k < |r| ==> 0 < |r[k]| <= size
    ensures forall k :: 0 <= k < |r| - 1 ==> |r[k]| == size
    ensures |r| > 0 ==> |r[|r| - 1]| == |s| - size * (|r| - 1)
  {
    if |s| == 0 then []
    else if |s| <= size then
      assert Flatten([s]) == s + Flatten([s][1..]);
      [s]
    else
      var rest := SplitIntoChunks(s[size..], size);
      ChunkingCons(s, size, rest);
      [s[..size]] + rest
  }
}
