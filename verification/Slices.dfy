/**
 * The packed-table idiom of the analyses: count per key, prefix sums, then a cursor-driven fill
 * (children and frontiers in src/analysis/dominator.c, uses in src/analysis/use_def.c).
 */
module Slices {

  /** Lists of items by key, stored back to back. */
  datatype Table<T> = Table(start: seq<nat>, count: seq<nat>, items: seq<T>) {
    ghost predicate Valid() {
      && |start| == |count|
      && (forall k :: 0 <= k < |start| ==> start[k] + count[k] <= |items|)
    }

    function Slice(k: nat): (r: seq<T>)
      requires k < |start| && |start| == |count| && start[k] + count[k] <= |items|
      ensures |r| == count[k]
    {
      items[start[k]..start[k] + count[k]]
    }
  }

  function Sum(s: seq<nat>, k: nat): nat
    requires k <= |s|
  {
    if k == 0 then 0 else Sum(s, k - 1) + s[k - 1]
  }

  ghost predicate IsPrefixSum(start: seq<nat>, count: seq<nat>) {
    |start| == |count| && forall k {:trigger start[k]} :: 0 <= k < |start| ==> start[k] == Sum(count, k)
  }

  lemma {:induction false} SumMonotone(s: seq<nat>, i: nat, j: nat)
    requires i <= j <= |s|
    ensures Sum(s, i) <= Sum(s, j)
    ensures i < j ==> Sum(s, i) + s[i] <= Sum(s, j)
    decreases j
  {
    if i < j { SumMonotone(s, i, j - 1); }
  }

  /** Slices lie within the items and do not overlap. */
  lemma SlicesApart(count: seq<nat>, start: seq<nat>, k: nat)
    requires IsPrefixSum(start, count) && k < |count|
    ensures start[k] + count[k] <= Sum(count, |count|)
    ensures forall j :: 0 <= j < k ==> start[j] + count[j] <= start[k]
    ensures forall j :: k < j < |count| ==> start[k] + count[k] <= start[j]
  {
    SumMonotone(count, k, |count|);
    forall j | 0 <= j < k ensures start[j] + count[j] <= start[k] { SumMonotone(count, j, k); }
    forall j | k < j < |count| ensures start[k] + count[k] <= start[j] { SumMonotone(count, k, j); }
  }

  /** The prefix-sum loop: where each key's slice starts, and how many items there are. */
  method PrefixSums(count: seq<nat>) returns (start: array<nat>, total: nat)
    ensures fresh(start) && start.Length == |count|
    ensures IsPrefixSum(start[..], count) && total == Sum(count, |count|)
  {
    start := new nat[|count|](_ => 0);
    total := 0;
    var i := 0;
    while i < |count|
      invariant 0 <= i <= |count| && total == Sum(count, i)
      invariant forall k {:trigger start[k]} :: 0 <= k < i ==> start[k] == Sum(count, k)
    {
      start[i] := total;
      total := total + count[i];
      i := i + 1;
    }
  }

  /** The fill: each key has a cursor into its own slice. */
  class Packer<T(0)> {
    const start: array<nat>
    const cursor: array<nat>
    const items: array<T>
    ghost const count: seq<nat>

    ghost predicate Valid()
      reads start, cursor
    {
      && start != cursor && (items as object) != start && (items as object) != cursor
      && IsPrefixSum(start[..], count) && cursor.Length == |count| && items.Length == Sum(count, |count|)
      && (forall k :: 0 <= k < |count| ==> cursor[k] <= count[k])
      && (forall k :: 0 <= k < |count| ==> start[k] + cursor[k] <= items.Length)
    }

    /** What has been stored for key k so far. */
    ghost function Contents(k: nat): (r: seq<T>)
      requires Valid() && k < |count|
      reads start, cursor, items
      ensures |r| == cursor[k]
    {
      items[start[k]..start[k] + cursor[k]]
    }

    constructor (count: seq<nat>)
      ensures Valid() && this.count == count
      ensures forall k :: 0 <= k < |count| ==> Contents(k) == []
      ensures fresh(start) && fresh(cursor) && fresh(items)
    {
      var s, total := PrefixSums(count);
      this.count := count;
      start := s;
      cursor := new nat[|count|](_ => 0);
      items := new T[total];
      new;
      forall k | 0 <= k < |count| ensures start[k] <= items.Length {
        SumMonotone(count, k, |count|);
      }
    }

    /** Stores x in the next free cell of key k's slice; no other slice changes. */
    method Put(k: nat, x: T)
      requires Valid() && k < |count| && |Contents(k)| < count[k]
      modifies cursor, items
      ensures Valid()
      ensures Contents(k) == old(Contents(k)) + [x]
      ensures forall j :: 0 <= j < |count| && j != k ==> Contents(j) == old(Contents(j))
    {
      SlicesApart(count, start[..], k);
      hide IsPrefixSum, Sum;
      var pos := start[k] + cursor[k];
      items[pos] := x;
      cursor[k] := cursor[k] + 1;
      assert Contents(k) == old(Contents(k)) + [x];
      forall j | 0 <= j < |count| && j != k ensures Contents(j) == old(Contents(j)) {
        assert start[j] + cursor[j] <= pos || start[j] > pos;
      }
    }

    /** When every slice is full, the arrays are the table. */
    method Finish() returns (t: Table<T>)
      requires Valid() && forall k :: 0 <= k < |count| ==> |Contents(k)| == count[k]
      ensures t.Valid() && t.count == count && IsPrefixSum(t.start, t.count)
      ensures forall k :: 0 <= k < |count| ==> t.Slice(k) == Contents(k)
    {
      assert start.Length == |count|;
      hide IsPrefixSum, Sum;
      assert cursor[..] == count;
      t := Table(start[..], cursor[..], items[..]);
      forall k | 0 <= k < |count| ensures t.start[k] + t.count[k] <= |t.items| && t.Slice(k) == Contents(k) {
        assert items[..][start[k]..start[k] + cursor[k]] == items[start[k]..start[k] + cursor[k]];
      }
    }
  }
}
