/** Cutting the processed list into the fixed-size chunks that are each
    written in one transaction. */
module Chunking {

  /** The chunk size of the persistence loop. */
  const ChunkSize: nat := 25

  function Min(a: int, b: int): int {
    if a <= b then a else b
  }

  function Flatten<T>(xss: seq<seq<T>>): seq<T>
    decreases |xss|
  {
    if |xss| == 0 then [] else xss[0] + Flatten(xss[1..])
  }

  lemma {:induction false} FlattenAppend<T>(a: seq<seq<T>>, b: seq<seq<T>>)
    ensures Flatten(a + b) == Flatten(a) + Flatten(b)
    decreases |a|
  {
    if |a| == 0 {
      assert a + b == b;
    } else {
      FlattenAppend(a[1..], b);
      assert (a + b)[1..] == a[1..] + b;
    }
  }

  /** The chunks `xs[i .. i + 25]`, `xs[i + 25 .. i + 50]`, ... of the loop
      `for (i = from; i < length; i += 25)`. */
  function ChunksFrom<T>(xs: seq<T>, from: nat): (r: seq<seq<T>>)
    ensures Flatten(r) == if from < |xs| then xs[from..] else []
    ensures from >= |xs| ==> r == []
    decreases |xs| - from
  {
    if from >= |xs| then []
    else
      var rest := ChunksFrom(xs, from + ChunkSize);
      var r := [xs[from .. Min(from + ChunkSize, |xs|)]] + rest;
      assert r[1..] == rest;
      assert xs[from..] == xs[from .. Min(from + ChunkSize, |xs|)] + (if from + ChunkSize < |xs| then xs[from + ChunkSize..] else []);
      r
  }

  lemma ChunksFromUnfold<T>(xs: seq<T>, from: nat)
    requires from < |xs|
    ensures ChunksFrom(xs, from) == [xs[from .. Min(from + ChunkSize, |xs|)]] + ChunksFrom(xs, from + ChunkSize)
  {
  }

  /** There are `ceil((|xs| - from) / 25)` chunks. */
  lemma {:induction false} ChunksFromCount<T>(xs: seq<T>, from: nat)
    requires from < |xs|
    ensures |ChunksFrom(xs, from)| == (|xs| - from + ChunkSize - 1) / ChunkSize
    decreases |xs| - from
  {
    ChunksFromUnfold(xs, from);
    if from + ChunkSize < |xs| {
      ChunksFromCount(xs, from + ChunkSize);
    }
  }

  /** Every chunk holds one to 25 elements, and all but the last exactly 25. */
  lemma {:induction false} ChunksFromSizes<T>(xs: seq<T>, from: nat)
    ensures forall k :: 0 <= k < |ChunksFrom(xs, from)| ==> 0 < |ChunksFrom(xs, from)[k]| <= ChunkSize
    ensures forall k :: 0 <= k < |ChunksFrom(xs, from)| - 1 ==> |ChunksFrom(xs, from)[k]| == ChunkSize
    decreases |xs| - from
  {
    if from < |xs| {
      var r := ChunksFrom(xs, from);
      var rest := ChunksFrom(xs, from + ChunkSize);
      ChunksFromUnfold(xs, from);
      ChunksFromSizes(xs, from + ChunkSize);
      assert forall k :: 1 <= k < |r| ==> r[k] == rest[k - 1];
      if from + ChunkSize < |xs| {
        assert |r[0]| == ChunkSize;
      }
    }
  }

  /** The chunks of the whole list: they concatenate back to the list, and
      every chunk but the last holds exactly 25 elements. */
  function Chunks<T>(xs: seq<T>): (r: seq<seq<T>>)
    ensures Flatten(r) == xs
    ensures |r| == (|xs| + ChunkSize - 1) / ChunkSize
    ensures forall k :: 0 <= k < |r| ==> 0 < |r[k]| <= ChunkSize
    ensures forall k :: 0 <= k < |r| - 1 ==> |r[k]| == ChunkSize
  {
    ChunksFromSizes(xs, 0);
    if |xs| > 0 then ChunksFromCount(xs, 0); ChunksFrom(xs, 0) else ChunksFrom(xs, 0)
  }

  /** Chunks that are all full hold 25 elements each. */
  lemma {:induction false} FlattenFullLength<T>(p: seq<seq<T>>)
    requires forall j :: 0 <= j < |p| ==> |p[j]| == ChunkSize
    ensures |Flatten(p)| == |p| * ChunkSize
    decreases |p|
  {
    if |p| > 0 {
      FlattenFullLength(p[1..]);
      assert |Flatten(p)| == ChunkSize + |Flatten(p[1..])|;
    }
  }

  /** The first `k` chunks hold exactly the first `25 k` elements (all of
      them once `k` reaches the chunk count), in order. */
  lemma ChunkPrefix<T>(xs: seq<T>, k: nat)
    requires k <= |Chunks(xs)|
    ensures Flatten(Chunks(xs)[..k]) == xs[..Min(k * ChunkSize, |xs|)]
  {
    var cs := Chunks(xs);
    var pre := Flatten(cs[..k]);
    assert cs == cs[..k] + cs[k..];
    FlattenAppend(cs[..k], cs[k..]);
    assert xs == pre + Flatten(cs[k..]);
    if k < |cs| {
      FlattenFullLength(cs[..k]);
      assert |pre| == k * ChunkSize;
    } else if k > 0 {
      var full := cs[..k - 1];
      assert cs == full + [cs[k - 1]];
      FlattenAppend(full, [cs[k - 1]]);
      FlattenFullLength(full);
      assert Flatten([cs[k - 1]]) == cs[k - 1];
      assert |xs| <= k * ChunkSize;
    }
    assert xs[..|pre|] == pre;
  }
}
