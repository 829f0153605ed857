/**
 The binary heap that both schedulers keep in a Python list, with the operations they
 take from the `heapq` module: push, pop and heapify.  A position's parent is (i - 1) / 2.
 `SiftDown` moves an entry towards the root and `SiftUp` sinks it to a leaf first and then
 moves it back, as `heapq` does, so the array layout is the one the original would have.
 */
module Heapq {

  /** A heap entry, ordered by (key, ticket); the packet takes no part in the order. */
  datatype Entry<+P> = Entry(key: real, ticket: nat, packet: P)

  predicate Less<P>(a: Entry<P>, b: Entry<P>) {
    a.key < b.key || (a.key == b.key && a.ticket < b.ticket)
  }

  function Parent(i: nat): nat
    requires i > 0
  {
    (i - 1) / 2
  }

  function Swap<P>(h: seq<Entry<P>>, i: nat, j: nat): (r: seq<Entry<P>>)
    requires i < |h| && j < |h|
    ensures |r| == |h|
  {
    h[i := h[j]][j := h[i]]
  }

  /** Moves the entry at pos towards `start` while it is less than its parent. */
  function SiftDown<P>(h: seq<Entry<P>>, start: nat, pos: nat): (r: seq<Entry<P>>)
    requires pos < |h|
    ensures |r| == |h|
    decreases pos
  {
    if pos > start && Less(h[pos], h[Parent(pos)])
    then SiftDown(Swap(h, pos, Parent(pos)), start, Parent(pos))
    else h
  }

  /** The smaller child of pos; the right one unless the left one is strictly less. */
  function SmallerChild<P>(h: seq<Entry<P>>, pos: nat): (c: nat)
    requires 2 * pos + 1 < |h|
    ensures pos < c < |h| && Parent(c) == pos
  {
    if 2 * pos + 2 < |h| && !Less(h[2 * pos + 1], h[2 * pos + 2]) then 2 * pos + 2 else 2 * pos + 1
  }

  /** Sinks the entry at pos to a leaf, pulling smaller children up; returns the leaf too. */
  function Sink<P>(h: seq<Entry<P>>, pos: nat): (r: (seq<Entry<P>>, nat))
    requires pos < |h|
    ensures |r.0| == |h| && r.1 < |h|
    decreases |h| - pos
  {
    if 2 * pos + 1 < |h| then
      var c := SmallerChild(h, pos);
      Sink(Swap(h, pos, c), c)
    else (h, pos)
  }

  function SiftUp<P>(h: seq<Entry<P>>, pos: nat): (r: seq<Entry<P>>)
    requires pos < |h|
    ensures |r| == |h|
  {
    var (sunk, leaf) := Sink(h, pos);
    SiftDown(sunk, pos, leaf)
  }

  function Push<P>(h: seq<Entry<P>>, e: Entry<P>): (r: seq<Entry<P>>)
    ensures |r| == |h| + 1
  {
    SiftDown(h + [e], 0, |h|)
  }

  /** What is left after the root is popped and the last entry takes its place. */
  function PopRest<P>(h: seq<Entry<P>>): (r: seq<Entry<P>>)
    requires |h| > 0
    ensures |r| == |h| - 1
  {
    var rest := h[..|h| - 1];
    if rest == [] then [] else SiftUp(rest[0 := h[|h| - 1]], 0)
  }

  /** Sifts the positions n - 1, ..., 0. */
  function HeapifyBelow<P>(h: seq<Entry<P>>, n: nat): (r: seq<Entry<P>>)
    requires n <= |h|
    ensures |r| == |h|
    decreases n
  {
    if n == 0 then h else HeapifyBelow(SiftUp(h, n - 1), n - 1)
  }

  function Heapify<P>(h: seq<Entry<P>>): (r: seq<Entry<P>>)
    ensures |r| == |h|
  {
    HeapifyBelow(h, |h| / 2)
  }

  // ----- The heap property -----

  /** Every position whose parent is at `start` or after is no less than that parent. */
  ghost predicate HeapFrom<P>(h: seq<Entry<P>>, start: nat) {
    forall i | 0 < i < |h| && Parent(i) >= start :: !Less(h[i], h[Parent(i)])
  }

  ghost predicate IsHeap<P>(h: seq<Entry<P>>) {
    HeapFrom(h, 0)
  }

  /** pos lies in the subtree rooted at `start`. */
  ghost predicate Under(start: nat, pos: nat)
    decreases pos
  {
    pos == start || (pos > start && Under(start, Parent(pos)))
  }

  /** A heap from `start` on, except that the entry at pos may be less than its parent. */
  ghost predicate AlmostHeapUp<P>(h: seq<Entry<P>>, start: nat, pos: nat) {
    && (forall i | 0 < i < |h| && Parent(i) >= start && i != pos :: !Less(h[i], h[Parent(i)]))
    && (pos > start ==> forall c | 0 < c < |h| && Parent(c) == pos :: !Less(h[c], h[Parent(pos)]))
  }

  /** A heap from `start` on, except around the entry at pos, which is on its way to a leaf. */
  ghost predicate AlmostHeapDown<P>(h: seq<Entry<P>>, start: nat, pos: nat) {
    && (forall i | 0 < i < |h| && Parent(i) >= start && i != pos && Parent(i) != pos :: !Less(h[i], h[Parent(i)]))
    && (pos > start ==> forall c | 0 < c < |h| && Parent(c) == pos :: !Less(h[c], h[Parent(pos)]))
  }

  lemma {:induction false} SiftDownKeepsEntries<P>(h: seq<Entry<P>>, start: nat, pos: nat)
    requires pos < |h|
    ensures multiset(SiftDown(h, start, pos)) == multiset(h)
    decreases pos
  {
    if pos > start && Less(h[pos], h[Parent(pos)]) {
      SiftDownKeepsEntries(Swap(h, pos, Parent(pos)), start, Parent(pos));
    }
  }

  lemma {:induction false} SiftDownRestores<P>(h: seq<Entry<P>>, start: nat, pos: nat)
    requires pos < |h| && Under(start, pos) && AlmostHeapUp(h, start, pos)
    ensures HeapFrom(SiftDown(h, start, pos), start)
    decreases pos
  {
    if pos > start && Less(h[pos], h[Parent(pos)]) {
      var up, h' := Parent(pos), Swap(h, pos, Parent(pos));
      if up > start {
        forall c | 0 < c < |h'| && Parent(c) == up
          ensures !Less(h'[c], h'[Parent(up)])
        {
          assert Under(start, Parent(up));
          assert !Less(h[up], h[Parent(up)]);
          assert c != pos ==> !Less(h[c], h[up]);
        }
      }
      SiftDownRestores(h', start, up);
    }
  }

  lemma SwapKeepsEntries<P>(h: seq<Entry<P>>, i: nat, j: nat)
    requires i < |h| && j < |h|
    ensures multiset(Swap(h, i, j)) == multiset(h)
  {
  }

  lemma SinkStep<P>(h: seq<Entry<P>>, start: nat, pos: nat)
    requires 2 * pos + 1 < |h| && Under(start, pos) && AlmostHeapDown(h, start, pos)
    ensures var c := SmallerChild(h, pos); Under(start, c) && AlmostHeapDown(Swap(h, pos, c), start, c)
  {
    var c := SmallerChild(h, pos);
    var h' := Swap(h, pos, c);
    forall i | 0 < i < |h'| && Parent(i) >= start && i != c && Parent(i) != c
      ensures !Less(h'[i], h'[Parent(i)])
    {
      if i == pos {
        assert !Less(h[c], h[Parent(pos)]);
      } else if Parent(i) == pos {
        assert i == 2 * pos + 1 || i == 2 * pos + 2;
      }
    }
    forall d | 0 < d < |h'| && Parent(d) == c
      ensures !Less(h'[d], h'[Parent(c)])
    {
      assert !Less(h[d], h[c]);
    }
  }

  lemma {:induction false} SinkReachesLeaf<P>(h: seq<Entry<P>>, start: nat, pos: nat)
    requires pos < |h| && Under(start, pos) && AlmostHeapDown(h, start, pos)
    ensures var (r, leaf) := Sink(h, pos);
            Under(start, leaf) && AlmostHeapUp(r, start, leaf) && multiset(r) == multiset(h)
    decreases |h| - pos
  {
    if 2 * pos + 1 < |h| {
      var c := SmallerChild(h, pos);
      SinkStep(h, start, pos);
      SwapKeepsEntries(h, pos, c);
      SinkReachesLeaf(Swap(h, pos, c), start, c);
    }
  }

  lemma SiftUpRestores<P>(h: seq<Entry<P>>, pos: nat)
    requires pos < |h| && HeapFrom(h, pos + 1)
    ensures HeapFrom(SiftUp(h, pos), pos) && multiset(SiftUp(h, pos)) == multiset(h)
  {
    SinkReachesLeaf(h, pos, pos);
    var (r, leaf) := Sink(h, pos);
    SiftDownRestores(r, pos, leaf);
    SiftDownKeepsEntries(r, pos, leaf);
  }

  lemma PushRestores<P>(h: seq<Entry<P>>, e: Entry<P>)
    requires IsHeap(h)
    ensures IsHeap(Push(h, e)) && multiset(Push(h, e)) == multiset(h) + multiset{e}
  {
    UnderRoot(|h|);
    SiftDownRestores(h + [e], 0, |h|);
    SiftDownKeepsEntries(h + [e], 0, |h|);
  }

  lemma {:induction false} UnderRoot(pos: nat)
    ensures Under(0, pos)
  {
    if pos > 0 { UnderRoot(Parent(pos)); }
  }

  lemma {:induction false} HeapifyBelowRestores<P>(h: seq<Entry<P>>, n: nat)
    requires n <= |h| && HeapFrom(h, n)
    ensures IsHeap(HeapifyBelow(h, n)) && multiset(HeapifyBelow(h, n)) == multiset(h)
    decreases n
  {
    if n > 0 {
      SiftUpRestores(h, n - 1);
      HeapifyBelowRestores(SiftUp(h, n - 1), n - 1);
    }
  }

  /** Heapify makes a heap of any array and keeps its entries. */
  lemma HeapifyRestores<P>(h: seq<Entry<P>>)
    ensures IsHeap(Heapify(h)) && multiset(Heapify(h)) == multiset(h)
  {
    HeapifyBelowRestores(h, |h| / 2);
  }

  /** The root of a heap is a least entry. */
  lemma {:induction false} RootIsLeast<P>(h: seq<Entry<P>>, i: nat)
    requires IsHeap(h) && i < |h|
    ensures !Less(h[i], h[0])
  {
    if i > 0 { RootIsLeast(h, Parent(i)); }
  }

  /** A pop removes exactly the root and leaves a heap. */
  lemma PopRestores<P>(h: seq<Entry<P>>)
    requires |h| > 0 && IsHeap(h)
    ensures IsHeap(PopRest(h)) && multiset(PopRest(h)) == multiset(h) - multiset{h[0]}
  {
    var rest := h[..|h| - 1];
    assert h == rest + [h[|h| - 1]];
    if rest != [] {
      var moved := rest[0 := h[|h| - 1]];
      assert multiset(moved) == multiset(rest) - multiset{h[0]} + multiset{h[|h| - 1]};
      SiftUpRestores(moved, 0);
    }
  }
}
