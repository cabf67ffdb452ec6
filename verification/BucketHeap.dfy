/** A heap of positions in an array of buckets, the least bucket first. */
module BucketHeap {
  import opened GreedySchedule
  import opened Ordering
  import opened Wrappers

  /** `Less` where either bucket may be absent: an absent one is less than none, and more than any that is there. */
  predicate BucketLess(left: Option<Bucket>, right: Option<Bucket>) {
    if left.None? || right.None? then left.Some?
    else Less(left.value, right.value)
  }

  function Parent(j: int): int
    requires j > 0
  {
    (j - 1) / 2
  }

  /** The heap lists every bucket index once. */
  ghost predicate Covers(h: seq<nat>, m: nat) {
    && |h| == m && NoRepeats(h)
    && (forall i :: 0 <= i < |h| ==> h[i] < m)
    && (forall b: nat :: b < m ==> b in h)
  }

  ghost predicate InOrder(buckets: seq<Bucket>, h: seq<nat>, parent: nat, child: nat)
    requires parent < |h| && child < |h|
  {
    h[parent] < |buckets| && h[child] < |buckets| && !Less(buckets[h[child]], buckets[h[parent]])
  }

  ghost predicate HeapOrdered(buckets: seq<Bucket>, h: seq<nat>) {
    forall j :: 0 < j < |h| ==> InOrder(buckets, h, Parent(j), j)
  }

  /** Heap order but for the children of `hole`, which are still no less than the parent of `hole`. */
  ghost predicate HeapExcept(buckets: seq<Bucket>, h: seq<nat>, hole: nat) {
    && (forall j :: 0 < j < |h| && Parent(j) != hole ==> InOrder(buckets, h, Parent(j), j))
    && (forall j :: 0 < j < |h| && Parent(j) == hole && hole > 0 ==> InOrder(buckets, h, Parent(hole), j))
  }

  lemma {:induction false} RootLeast(buckets: seq<Bucket>, h: seq<nat>, i: nat)
    requires HeapOrdered(buckets, h) && i < |h| && h[0] < |buckets|
    ensures h[i] < |buckets| && !Less(buckets[h[i]], buckets[h[0]])
  {
    if i > 0 {
      RootLeast(buckets, h, Parent(i));
      assert InOrder(buckets, h, Parent(i), i);
    }
  }

  /** The root of the heap is a least bucket. */
  lemma RootIsLeast(buckets: seq<Bucket>, h: seq<nat>)
    requires Covers(h, |buckets|) && HeapOrdered(buckets, h) && h != []
    ensures IsLeast(buckets, h[0])
  {
    forall c | 0 <= c < |buckets| ensures !Less(buckets[c], buckets[h[0]]) {
      var b: nat := c;
      assert b in h;
      var i :| 0 <= i < |h| && h[i] == b;
      RootLeast(buckets, h, i);
    }
  }

  ghost function Swapped(h: seq<nat>, i: nat, j: nat): seq<nat>
    requires i < |h| && j < |h|
  {
    h[i := h[j]][j := h[i]]
  }

  lemma SwapCovers(h: seq<nat>, m: nat, i: nat, j: nat)
    requires Covers(h, m) && i < j < |h|
    ensures Covers(Swapped(h, i, j), m)
  {
    var s := Swapped(h, i, j);
    forall b: nat | b < m ensures b in s {
      assert b in h;
      var k :| 0 <= k < |h| && h[k] == b;
      assert s[if k == i then j else if k == j then i else k] == b;
    }
  }

  /** Moving the smaller child up moves the hole down to that child. */
  lemma SwapDown(buckets: seq<Bucket>, h: seq<nat>, hole: nat, smallest: nat)
    requires Covers(h, |buckets|) && HeapExcept(buckets, h, hole)
    requires hole < smallest < |h| && Parent(smallest) == hole
    requires Less(buckets[h[smallest]], buckets[h[hole]])
    requires forall j :: 0 < j < |h| && Parent(j) == hole ==> !Less(buckets[h[j]], buckets[h[smallest]])
    ensures HeapExcept(buckets, Swapped(h, hole, smallest), smallest)
  {
    var s := Swapped(h, hole, smallest);
    forall j | 0 < j < |s| && Parent(j) != smallest ensures InOrder(buckets, s, Parent(j), j) {
      if Parent(j) != hole {
        assert InOrder(buckets, h, Parent(j), j);
        if j == hole { assert InOrder(buckets, h, Parent(hole), smallest); }
      }
    }
    forall j | 0 < j < |s| && Parent(j) == smallest ensures InOrder(buckets, s, Parent(smallest), j) {
      assert InOrder(buckets, h, Parent(j), j);
    }
  }

  lemma HoleFilled(buckets: seq<Bucket>, h: seq<nat>, hole: nat)
    requires Covers(h, |buckets|) && HeapExcept(buckets, h, hole) && hole < |h|
    requires forall j :: 0 < j < |h| && Parent(j) == hole ==> !Less(buckets[h[j]], buckets[h[hole]])
    ensures HeapOrdered(buckets, h)
  {
  }

  /** What `h[index]` points to, if both exist. */
  function BucketAt(buckets: seq<Bucket>, h: seq<nat>, index: nat): Option<Bucket> {
    if index < |h| && h[index] < |buckets| then Some(buckets[h[index]]) else None
  }

  /** The children of a position are the two after twice its index. */
  lemma Children(buckets: seq<Bucket>, h: seq<nat>, index: nat, smallest: nat)
    requires Covers(h, |buckets|) && index < |h| && smallest < |h|
    requires 2 * index + 1 < |h| ==> !Less(buckets[h[2 * index + 1]], buckets[h[smallest]])
    requires 2 * index + 2 < |h| ==> !Less(buckets[h[2 * index + 2]], buckets[h[smallest]])
    ensures forall j :: 0 < j < |h| && Parent(j) == index ==> !Less(buckets[h[j]], buckets[h[smallest]])
  {
    forall j | 0 < j < |h| && Parent(j) == index ensures !Less(buckets[h[j]], buckets[h[smallest]]) {
      assert j == 2 * index + 1 || j == 2 * index + 2;
    }
  }

  /** Restore the heap order after the bucket at `start` changed. */
  method SiftDown(buckets: array<Bucket>, heap: array<nat>, start: nat)
    requires start < heap.Length && Covers(heap[..], buckets.Length) && HeapExcept(buckets[..], heap[..], start)
    modifies heap
    ensures Covers(heap[..], buckets.Length) && HeapOrdered(buckets[..], heap[..])
  {
    var size, index := heap.Length, start;
    while true
      invariant index < size == heap.Length && Covers(heap[..], buckets.Length)
      invariant HeapExcept(buckets[..], heap[..], index)
      decreases size - index
    {
      ghost var h := heap[..];
      var left, right, smallest := 2 * index + 1, 2 * index + 2, index;
      var smallestBucket := BucketAt(buckets[..], heap[..], index);
      var leftBucket := if left < size then BucketAt(buckets[..], heap[..], left) else None;
      var rightBucket := if right < size then BucketAt(buckets[..], heap[..], right) else None;
      if leftBucket.Some? && smallestBucket.Some? && BucketLess(leftBucket, smallestBucket) {
        smallest := left;
        smallestBucket := leftBucket;
      }
      if rightBucket.Some? && smallestBucket.Some? && BucketLess(rightBucket, smallestBucket) {
        smallest := right;
      }
      Children(buckets[..], h, index, smallest);
      if smallest == index {
        HoleFilled(buckets[..], h, index);
        return;
      }
      SwapDown(buckets[..], h, index, smallest);
      SwapCovers(h, buckets.Length, index, smallest);
      heap[index], heap[smallest] := heap[smallest], heap[index];
      assert heap[..] == Swapped(h, index, smallest);
      index := smallest;
    }
  }

  /** Growing the root's bucket leaves only the root out of order. */
  lemma GrowRoot(w: string -> real, buckets: seq<Bucket>, h: seq<nat>, file: string)
    requires Covers(h, |buckets|) && HeapOrdered(buckets, h) && h != []
    ensures HeapExcept(Put(w, buckets, h[0], file), h, 0)
  {
    var after := Put(w, buckets, h[0], file);
    forall j | 0 < j < |h| && Parent(j) != 0 ensures InOrder(after, h, Parent(j), j) {
      assert InOrder(buckets, h, Parent(j), j);
    }
  }

  lemma NewHeap(m: nat)
    ensures Covers(seq(m, i => i), m) && HeapOrdered(seq(m, _ => Bucket(0.0, [])), seq(m, i => i))
  {
    var h: seq<nat> := seq(m, i => i);
    forall b: nat | b < m ensures b in h { assert h[b] == b; }
  }
}
