/** `_partition_chunks`: the key list cut into consecutive slices of at
    most `size` keys, one slice per step of `xrange(0, len(items), size)`. */
module Chunks {

  /** The batch limit `mget` cuts its keys by. */
  const BATCH_LIMIT := 100

  function Min(a: int, b: int): int
  {
    if a <= b then a else b
  }

  /** The slices `items[x:x + size]`, `items[x + size:x + 2 * size]`, ...
      up to the end of `items`; Python's slice stops at the end of the list. */
  function ChunksFrom<T>(items: seq<T>, size: nat, x: nat): (chunks: seq<seq<T>>)
    requires size > 0
    ensures forall i :: 0 <= i < |chunks| ==> 0 < |chunks[i]| <= size
    decreases |items| - x
  {
    if x >= |items| then []
    else [items[x..Min(x + size, |items|)]] + ChunksFrom(items, size, x + size)
  }

  /** `_partition_chunks(items, size)`; a size of 0 makes `xrange` raise. */
  function Partition<T>(items: seq<T>, size: nat): (chunks: seq<seq<T>>)
    requires size > 0
    ensures forall i :: 0 <= i < |chunks| ==> 0 < |chunks[i]| <= size
    ensures chunks == [] <==> items == []
  {
    ChunksFrom(items, size, 0)
  }

  function Flatten<T>(chunks: seq<seq<T>>): seq<T>
  {
    if chunks == [] then [] else chunks[0] + Flatten(chunks[1..])
  }

  lemma {:induction false} FlattenFrom<T>(items: seq<T>, size: nat, x: nat)
    requires size > 0 && x <= |items|
    ensures Flatten(ChunksFrom(items, size, x)) == items[x..]
    decreases |items| - x
  {
    if x < |items| {
      var cs := ChunksFrom(items, size, x);
      var end := Min(x + size, |items|);
      assert cs[1..] == ChunksFrom(items, size, x + size);
      if x + size <= |items| {
        FlattenFrom(items, size, x + size);
        assert items[x..] == items[x..end] + items[x + size..];
      } else {
        assert ChunksFrom(items, size, x + size) == [];
        assert items[x..] == items[x..end];
      }
    }
  }

  /** Concatenating the chunks gives the list back. */
  lemma {:induction false} PartitionConcat<T>(items: seq<T>, size: nat)
    requires size > 0
    ensures Flatten(Partition(items, size)) == items
  {
    FlattenFrom(items, size, 0);
  }

  lemma {:induction false} ShapeFrom<T>(items: seq<T>, size: nat, x: nat)
    requires size > 0
    ensures var cs := ChunksFrom(items, size, x);
            forall i :: 0 <= i < |cs| - 1 ==> |cs[i]| == size
    decreases |items| - x
  {
    if x < |items| {
      ShapeFrom(items, size, x + size);
      var cs := ChunksFrom(items, size, x);
      assert cs[1..] == ChunksFrom(items, size, x + size);
      forall i | 0 <= i < |cs| - 1 ensures |cs[i]| == size {
        if i > 0 { assert cs[i] == cs[1..][i - 1]; }
        else if |cs| > 1 { assert x + size < |items|; }
      }
    }
  }

  /** Every chunk but the last holds exactly `size` keys. */
  lemma {:induction false} PartitionShape<T>(items: seq<T>, size: nat)
    requires size > 0
    ensures var cs := Partition(items, size);
            forall i :: 0 <= i < |cs| - 1 ==> |cs[i]| == size
  {
    assert Partition(items, size) == ChunksFrom(items, size, 0);
    ShapeFrom(items, size, 0);
  }

  lemma {:induction false} CountFrom<T>(items: seq<T>, size: nat, x: nat)
    requires size > 0 && x <= |items|
    ensures var n := |ChunksFrom(items, size, x)|;
            (n - 1) * size < |items| - x <= n * size
            || (n == 0 && x == |items|)
    decreases |items| - x
  {
    if x < |items| {
      var n := |ChunksFrom(items, size, x)|;
      if x + size < |items| {
        CountFrom(items, size, x + size);
        assert n - 1 == |ChunksFrom(items, size, x + size)|;
        assert (n - 1) * size == (n - 2) * size + size;
        assert n * size == (n - 1) * size + size;
      } else {
        assert ChunksFrom(items, size, x + size) == [];
        assert n == 1;
      }
    }
  }

  lemma {:induction false} ProductAtLeast(d: int, size: nat)
    requires d >= 1
    ensures d * size >= size
  {
    assert d * size == (d - 1) * size + size;
    assert (d - 1) * size >= 0;
  }

  lemma {:induction false} DivisionUnique(a: int, size: nat, q: int, t: int)
    requires size > 0 && a == q * size + t && 0 <= t < size
    ensures a / size == q
  {
    var p, r := a / size, a % size;
    assert a == p * size + r && 0 <= r < size;
    var d := q - p;
    assert d * size == q * size - p * size;
    assert d * size == r - t;
    if d > 0 {
      ProductAtLeast(d, size);
    } else if d < 0 {
      ProductAtLeast(-d, size);
    }
  }

  lemma {:induction false} CeilDivision(len: nat, size: nat, n: nat)
    requires size > 0
    requires (n - 1) * size < len <= n * size || (n == 0 && len == 0)
    ensures n == (len + size - 1) / size
  {
    if n > 0 {
      assert n * size == (n - 1) * size + size;
      DivisionUnique(len + size - 1, size, n, len + size - 1 - n * size);
    } else {
      DivisionUnique(size - 1, size, 0, size - 1);
    }
  }

  /** There are ceil(len / size) chunks, and none at all for an empty list. */
  lemma {:induction false} PartitionCount<T>(items: seq<T>, size: nat)
    requires size > 0
    ensures |Partition(items, size)| == (|items| + size - 1) / size
    ensures |Partition(items, size)| == 0 <==> |items| == 0
  {
    CountFrom(items, size, 0);
    CeilDivision(|items|, size, |Partition(items, size)|);
  }

  lemma {:induction false} ChunkAtFrom<T>(items: seq<T>, size: nat, x: nat, i: nat)
    requires size > 0
    requires i < |ChunksFrom(items, size, x)|
    ensures x + i * size < |items|
    ensures ChunksFrom(items, size, x)[i] == items[x + i * size..Min(x + i * size + size, |items|)]
    decreases i
  {
    if i > 0 {
      var cs := ChunksFrom(items, size, x);
      assert cs[1..] == ChunksFrom(items, size, x + size);
      assert cs[i] == ChunksFrom(items, size, x + size)[i - 1];
      ChunkAtFrom(items, size, x + size, i - 1);
      assert x + size + (i - 1) * size == x + i * size;
    }
  }

  /** Chunk `i` is the slice that starts at `i * size`. */
  lemma {:induction false} PartitionChunkAt<T>(items: seq<T>, size: nat, i: nat)
    requires size > 0 && i < |Partition(items, size)|
    ensures i * size < |items|
    ensures Partition(items, size)[i] == items[i * size..Min(i * size + size, |items|)]
  {
    ChunkAtFrom(items, size, 0, i);
  }
}
