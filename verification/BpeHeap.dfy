/**
 The binary heap of candidate merges: `(rank, node, version)` entries ordered by rank, then by node,
 as pure facts about sequences. Slot `i` of the program's 1-based arrays is element `i - 1` here.
 */
module BpeHeap {
  import opened Heaps

  datatype Entry = Entry(rank: int, node: int, ver: nat)

  predicate NotAfter(a: Entry, b: Entry) {
    a.rank < b.rank || (a.rank == b.rank && a.node <= b.node)
  }

  ghost predicate IsHeap(h: seq<Entry>) {
    forall p, c :: 0 <= p < c < |h| && Parent(p, c) ==> NotAfter(h[p], h[c])
  }

  /** A heap except that the element at `x` may be too small for its place. */
  ghost predicate HeapButUp(h: seq<Entry>, x: nat) {
    && (forall p, c :: 0 <= p < c < |h| && Parent(p, c) && c != x ==> NotAfter(h[p], h[c]))
    && (forall p, c :: 0 <= p < c < |h| && Parent(p, x) && Parent(x, c) ==> NotAfter(h[p], h[c]))
  }

  /** A heap except that the element at `x` may be too large for its place. */
  ghost predicate HeapButDown(h: seq<Entry>, x: nat) {
    && (forall p, c :: 0 <= p < c < |h| && Parent(p, c) && p != x ==> NotAfter(h[p], h[c]))
    && (forall p, c :: 0 <= p < c < |h| && Parent(p, x) && Parent(x, c) ==> NotAfter(h[p], h[c]))
  }

  lemma SwapMultiset(h: seq<Entry>, g: seq<Entry>, i: nat, j: nat)
    requires IsSwap(h, g, i, j)
    ensures multiset(g) == multiset(h)
  {
    assert g == h[i := h[j]][j := h[i]];
  }

  lemma SiftUpDone(h: seq<Entry>, x: nat)
    requires 1 <= x < |h| && HeapButUp(h, x) && NotAfter(h[(x - 1) / 2], h[x])
    ensures IsHeap(h)
  {
  }

  lemma SiftUpTop(h: seq<Entry>)
    requires h != [] && HeapButUp(h, 0)
    ensures IsHeap(h)
  {
  }

  lemma SiftUpStep(h: seq<Entry>, g: seq<Entry>, x: nat)
    requires 1 <= x < |h| && HeapButUp(h, x) && !NotAfter(h[(x - 1) / 2], h[x])
    requires IsSwap(h, g, x, (x - 1) / 2)
    ensures HeapButUp(g, (x - 1) / 2) && multiset(g) == multiset(h)
  {
    SwapMultiset(h, g, x, (x - 1) / 2);
  }

  lemma SiftDownDone(h: seq<Entry>, x: nat)
    requires x < |h| && HeapButDown(h, x)
    requires forall c :: x < c < |h| && Parent(x, c) ==> NotAfter(h[x], h[c])
    ensures IsHeap(h)
  {
  }

  lemma SiftDownStep(h: seq<Entry>, g: seq<Entry>, x: nat, c: nat)
    requires x < c < |h| && Parent(x, c) && HeapButDown(h, x)
    requires NotAfter(h[c], h[x])
    requires forall k :: x < k < |h| && Parent(x, k) ==> NotAfter(h[c], h[k])
    requires IsSwap(h, g, x, c)
    ensures HeapButDown(g, c) && multiset(g) == multiset(h)
  {
    SwapMultiset(h, g, x, c);
  }

  /** Taking the last element to the root leaves only the root out of place. */
  lemma RootReplaced(h: seq<Entry>, g: seq<Entry>)
    requires |h| > 1 && IsHeap(h) && IsSwap(h, g, 0, |h| - 1)
    ensures HeapButDown(g[..|h| - 1], 0)
    ensures multiset(g[..|h| - 1]) == multiset(h) - multiset{h[0]}
  {
    SwapMultiset(h, g, 0, |h| - 1);
    assert g == g[..|h| - 1] + [h[0]];
  }

  lemma RootIsLeast(h: seq<Entry>, k: nat)
    requires IsHeap(h) && k < |h|
    ensures NotAfter(h[0], h[k])
  {
    LeastAtRoot(h, |h|, NotAfter, k);
  }

  lemma RootIsLeastOf(h: seq<Entry>, e: Entry)
    requires IsHeap(h) && e in multiset(h)
    ensures NotAfter(h[0], e)
  {
    assert e in h;
    var k :| 0 <= k < |h| && h[k] == e;
    RootIsLeast(h, k);
  }
}
