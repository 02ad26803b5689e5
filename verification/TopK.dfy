/** Selecting the k best scores with a heap of the k best so far, the worst of them at the root. */
module TopK {
  import opened Heaps

  // ---------------------------------------------------------------- heaps

  /** Every entry of `[0, n)` is at most its children, the edges into `up` and out of `down` excepted. */
  ghost predicate HeapBut(s: seq<real>, n: nat, up: int, down: int) {
    && n <= |s|
    && (forall p: nat, c: nat :: c < n && Parent(p, c) && c != up && p != down ==> s[p] <= s[c])
  }

  /** The parent of the exception is at most its children. */
  ghost predicate Bridged(s: seq<real>, n: nat, at: nat) {
    && n <= |s|
    && (forall p: nat, c: nat :: at < n && c < n && Parent(p, at) && Parent(at, c) ==> s[p] <= s[c])
  }

  ghost predicate IsHeap(s: seq<real>, n: nat) {
    HeapBut(s, n, -1, -1)
  }

  lemma RootIsLeast(s: seq<real>, n: nat, i: nat)
    requires IsHeap(s, n) && i < n
    ensures s[0] <= s[i]
  {
    LeastAtRoot(s, n, (a: real, b: real) => a <= b, i);
  }

  // ---------------------------------------------------------------- what is selected

  /** Distinct indices below `e`, each with its own score. */
  ghost predicate Picks(scores: seq<real>, e: nat, score: seq<real>, idx: seq<int>, n: nat) {
    && n <= |score| && n <= |idx| && e <= |scores|
    && (forall i :: 0 <= i < n ==> 0 <= idx[i] < e && score[i] == scores[idx[i]])
    && (forall i, j :: 0 <= i < j < n ==> idx[i] != idx[j])
  }

  predicate Chosen(idx: seq<int>, n: nat, u: int)
    requires n <= |idx|
  {
    u in idx[..n]
  }

  ghost predicate AllChosen(idx: seq<int>, n: nat) {
    n <= |idx| && forall u :: 0 <= u < n ==> Chosen(idx, n, u)
  }

  /** No score left out exceeds one selected. */
  ghost predicate Best(scores: seq<real>, e: nat, score: seq<real>, idx: seq<int>, n: nat) {
    && n <= |score| && n <= |idx| && e <= |scores|
    && (forall u, i :: 0 <= u < e && !Chosen(idx, n, u) && 0 <= i < n ==> scores[u] <= score[i])
  }

  lemma SwapKeepsPicks(scores: seq<real>, e: nat, a: seq<real>, b: seq<int>, a': seq<real>, b': seq<int>, n: nat,
                       i: nat, j: nat)
    requires Picks(scores, e, a, b, n) && i < n && j < n && IsSwap(a, a', i, j) && IsSwap(b, b', i, j)
    ensures Picks(scores, e, a', b', n)
    ensures forall u :: Chosen(b, n, u) <==> Chosen(b', n, u)
    ensures Best(scores, e, a, b, n) ==> Best(scores, e, a', b', n)
  {
    forall u ensures Chosen(b, n, u) <==> Chosen(b', n, u) {
      assert b[..n][i] == b'[..n][j] && b[..n][j] == b'[..n][i];
      if Chosen(b, n, u) {
        var k :| 0 <= k < n && b[..n][k] == u;
        assert b'[..n][if k == i then j else if k == j then i else k] == u;
      }
      if Chosen(b', n, u) {
        var k :| 0 <= k < n && b'[..n][k] == u;
        assert b[..n][if k == i then j else if k == j then i else k] == u;
      }
    }
  }

  // ---------------------------------------------------------------- the loops

  method Swap(score: array<real>, idx: array<int>, i: nat, j: nat)
    requires i < score.Length && j < score.Length && i < idx.Length && j < idx.Length
    modifies score, idx
    ensures IsSwap(old(score[..]), score[..], i, j) && IsSwap(old(idx[..]), idx[..], i, j)
  {
    var ts := score[i];
    score[i] := score[j];
    score[j] := ts;
    var ti := idx[i];
    idx[i] := idx[j];
    idx[j] := ti;
  }

  /** One step down keeps the heap but for the place stepped to. */
  lemma StepDown(s: seq<real>, t: seq<real>, n: nat, pos: nat, small: nat)
    requires HeapBut(s, n, -1, pos) && Bridged(s, n, pos) && small < n && Parent(pos, small) && s[small] < s[pos]
    requires forall c: nat :: c < n && Parent(pos, c) ==> s[small] <= s[c]
    requires IsSwap(s, t, pos, small)
    ensures HeapBut(t, n, -1, small) && Bridged(t, n, small)
  {
    forall p: nat, c: nat | c < n && Parent(p, c) && p != small ensures t[p] <= t[c] {
      if c == pos {
        assert Parent(p, pos) && Parent(pos, small);
      }
    }
  }

  lemma SiftedDown(s: seq<real>, n: nat, pos: nat)
    requires HeapBut(s, n, -1, pos) && forall c: nat :: c < n && Parent(pos, c) ==> s[pos] <= s[c]
    ensures IsHeap(s, n)
  {
  }

  lemma StepUp(s: seq<real>, t: seq<real>, n: nat, pos: nat, parent: nat)
    requires HeapBut(s, n, pos, -1) && Bridged(s, n, pos) && pos < n && Parent(parent, pos) && s[parent] > s[pos]
    requires IsSwap(s, t, pos, parent)
    ensures HeapBut(t, n, parent, -1) && Bridged(t, n, parent)
  {
  }

  /** `topk_heap_sift_down`. */
  method SiftDown(ghost scores: seq<real>, ghost e: nat, score: array<real>, idx: array<int>, n: nat, start: nat)
    requires n <= score.Length && n <= idx.Length && (start < n || start == n == 0)
    requires HeapBut(score[..], n, -1, start) && Bridged(score[..], n, start) && Picks(scores, e, score[..], idx[..], n)
    modifies score, idx
    ensures IsHeap(score[..], n) && Picks(scores, e, score[..], idx[..], n)
    ensures old(Best(scores, e, score[..], idx[..], n)) ==> Best(scores, e, score[..], idx[..], n)
  {
    hide Picks, Best, Chosen, HeapBut, Bridged, IsHeap, IsSwap;
    var pos := start;
    while true
      invariant (pos < n || pos == n == 0) && HeapBut(score[..], n, -1, pos) && Bridged(score[..], n, pos)
      invariant Picks(scores, e, score[..], idx[..], n)
      invariant old(Best(scores, e, score[..], idx[..], n)) ==> Best(scores, e, score[..], idx[..], n)
      decreases n - pos
    {
      var l, r, smallest := 2 * pos + 1, 2 * pos + 2, pos;
      if l < n && score[l] < score[smallest] {
        smallest := l;
      }
      if r < n && score[r] < score[smallest] {
        smallest := r;
      }
      ghost var s, x := score[..], idx[..];
      if smallest == pos {
        SiftedDown(s, n, pos);
        return;
      }
      Swap(score, idx, pos, smallest);
      StepDown(s, score[..], n, pos, smallest);
      SwapKeepsPicks(scores, e, s, x, score[..], idx[..], n, pos, smallest);
      pos := smallest;
    }
  }

  /** The sift-up loop of `topk_heap_select`. */
  method SiftUp(ghost scores: seq<real>, ghost e: nat, score: array<real>, idx: array<int>, n: nat)
    requires 0 < n <= score.Length && n <= idx.Length
    requires HeapBut(score[..], n, n - 1, -1) && Bridged(score[..], n, n - 1) && Picks(scores, e, score[..], idx[..], n)
    modifies score, idx
    ensures IsHeap(score[..], n) && Picks(scores, e, score[..], idx[..], n)
    ensures forall u :: old(Chosen(idx[..], n, u)) ==> Chosen(idx[..], n, u)
  {
    var pos: nat := n - 1;
    while pos > 0
      invariant pos < n && HeapBut(score[..], n, pos, -1) && Bridged(score[..], n, pos)
      invariant Picks(scores, e, score[..], idx[..], n)
      invariant forall u :: old(Chosen(idx[..], n, u)) ==> Chosen(idx[..], n, u)
    {
      hide Picks, Best, Chosen;
      var parent := (pos - 1) / 2;
      assert Parent(parent, pos);
      if score[parent] <= score[pos] {
        OnlyParent(parent, pos);
        return;
      }
      ghost var s, x := score[..], idx[..];
      Swap(score, idx, pos, parent);
      StepUp(s, score[..], n, pos, parent);
      SwapKeepsPicks(scores, e, s, x, score[..], idx[..], n, pos, parent);
      pos := parent;
    }
  }

  lemma OnlyParent(p: nat, c: nat)
    requires Parent(p, c)
    ensures forall q: nat :: Parent(q, c) ==> q == p
  {
  }

  /** While there is room every score is taken. */
  method Admit(scores: seq<real>, e: nat, score: array<real>, idx: array<int>)
    requires e < score.Length && e < idx.Length && e < |scores|
    requires IsHeap(score[..], e) && Picks(scores, e, score[..], idx[..], e)
    requires AllChosen(idx[..], e)
    modifies score, idx
    ensures IsHeap(score[..], e + 1) && Picks(scores, e + 1, score[..], idx[..], e + 1)
    ensures AllChosen(idx[..], e + 1)
  {
    ghost var s, x := score[..], idx[..];
    idx[e] := e;
    score[e] := scores[e];
    assert score[..] == s[e := scores[e]] && idx[..] == x[e := e];
    Added(scores, e, s, x);
    SiftUp(scores, e + 1, score, idx, e + 1);
  }

  lemma Added(scores: seq<real>, e: nat, s: seq<real>, x: seq<int>)
    requires e < |s| && e < |x| && e < |scores| && IsHeap(s, e) && Picks(scores, e, s, x, e)
    requires AllChosen(x, e)
    ensures var t, y := s[e := scores[e]], x[e := e];
      && HeapBut(t, e + 1, e, -1) && Bridged(t, e + 1, e) && Picks(scores, e + 1, t, y, e + 1)
      && AllChosen(y, e + 1)
  {
    var y := x[e := e];
    var n := e + 1;
    forall u | 0 <= u < n ensures Chosen(y, n, u) {
      if u == e {
        assert y[..n][e] == u;
      } else {
        assert Chosen(x, e, u);
        var k :| 0 <= k < e && x[..e][k] == u;
        assert y[..n][k] == u;
      }
    }
  }

  /** `topk_heap_select`: the `min(k, n)` best in no particular order; the first slot is used even for `k` below 1. */
  method Select(scores: seq<real>, k: int, score: array<real>, idx: array<int>) returns (hn: nat)
    requires k <= score.Length && k <= idx.Length && (scores == [] || (0 < score.Length && 0 < idx.Length))
    modifies score, idx
    ensures hn == if k <= 0 then 0 else if |scores| < k then |scores| else k
    ensures Picks(scores, |scores|, score[..], idx[..], hn) && Best(scores, |scores|, score[..], idx[..], hn)
  {
    hn := 0;
    var e := 0;
    while e < |scores| && hn < k
      invariant e == hn <= |scores| && (hn <= k || hn == 0)
      invariant IsHeap(score[..], hn) && Picks(scores, e, score[..], idx[..], hn)
      invariant AllChosen(idx[..], hn)
    {
      Admit(scores, e, score, idx);
      hn := hn + 1;
      e := e + 1;
    }
    while e < |scores|
      invariant hn <= e <= |scores| && hn <= score.Length && hn <= idx.Length
      invariant IsHeap(score[..], hn) && Picks(scores, e, score[..], idx[..], hn)
      invariant Best(scores, e, score[..], idx[..], hn)
    {
      Consider(scores, e, score, idx, hn);
      e := e + 1;
    }
  }

  /** One more score: it takes the root's place if it is better. */
  method Consider(scores: seq<real>, e: nat, score: array<real>, idx: array<int>, hn: nat)
    requires hn <= score.Length && hn <= idx.Length && 0 < score.Length && 0 < idx.Length && e < |scores|
    requires IsHeap(score[..], hn) && Picks(scores, e, score[..], idx[..], hn)
    requires Best(scores, e, score[..], idx[..], hn)
    modifies score, idx
    ensures IsHeap(score[..], hn) && Picks(scores, e + 1, score[..], idx[..], hn)
    ensures Best(scores, e + 1, score[..], idx[..], hn)
  {
    ghost var s, x := score[..], idx[..];
    forall i: nat | i < hn ensures s[0] <= s[i] {
      RootIsLeast(s, hn, i);
    }
    if scores[e] > score[0] {
      score[0] := scores[e];
      idx[0] := e;
      assert score[..] == s[0 := scores[e]] && idx[..] == x[0 := e];
      Replaced(scores, e, s, x, hn);
      SiftDown(scores, e + 1, score, idx, hn, 0);
    } else {
      NotTaken(scores, e, s, x, hn);
    }
  }

  lemma NotTaken(scores: seq<real>, e: nat, s: seq<real>, x: seq<int>, n: nat)
    requires e < |scores| && Picks(scores, e, s, x, n) && Best(scores, e, s, x, n) && s != []
    requires scores[e] <= s[0] && forall i: nat :: i < n ==> s[0] <= s[i]
    ensures Picks(scores, e + 1, s, x, n) && Best(scores, e + 1, s, x, n)
  {
  }

  lemma ChosenStays(x: seq<int>, n: nat, u: int, e: int)
    requires 0 < n <= |x| && Chosen(x, n, u) && u != x[0]
    ensures Chosen(x[0 := e], n, u)
  {
    var k :| 0 <= k < n && x[..n][k] == u;
    assert x[0 := e][..n][k] == u;
  }

  lemma Replaced(scores: seq<real>, e: nat, s: seq<real>, x: seq<int>, n: nat)
    requires e < |scores| && Picks(scores, e, s, x, n) && Best(scores, e, s, x, n) && s != [] && x != [] && IsHeap(s, n)
    requires scores[e] > s[0] && forall i: nat :: i < n ==> s[0] <= s[i]
    ensures var t, y := s[0 := scores[e]], x[0 := e];
      Picks(scores, e + 1, t, y, n) && Best(scores, e + 1, t, y, n) && HeapBut(t, n, -1, 0) && Bridged(t, n, 0)
  {
    var t, y := s[0 := scores[e]], x[0 := e];
    forall u, i | 0 <= u < e + 1 && !Chosen(y, n, u) && 0 <= i < n ensures scores[u] <= t[i] {
      assert y[..n][0] == e;
      if u == x[0] {
        assert scores[u] == s[0];
      } else if Chosen(x, n, u) {
        ChosenStays(x, n, u, e);
      }
    }
  }

  // ---------------------------------------------------------------- the candidate list

  datatype Candidate = Candidate(v: real, i: int)

  /** Distinct tokens with their own logits, none of the others better than any of them. */
  ghost predicate TopOf(logits: seq<real>, out: seq<Candidate>) {
    && (forall k :: 0 <= k < |out| ==> 0 <= out[k].i < |logits| && out[k].v == logits[out[k].i])
    && (forall k, l :: 0 <= k < l < |out| ==> out[k].i != out[l].i)
    && (forall u, k :: 0 <= u < |logits| && (forall l :: 0 <= l < |out| ==> out[l].i != u) && 0 <= k < |out| ==>
          logits[u] <= out[k].v)
  }

  ghost predicate Descending(out: seq<Candidate>) {
    forall k, l :: 0 <= k < l < |out| ==> out[k].v >= out[l].v
  }

  /** `top_k_heap`. */
  method TopKHeap(logits: seq<real>, k: int) returns (out: seq<Candidate>)
    ensures TopOf(logits, out)
    ensures |out| == if k <= 0 then 0 else if k > |logits| then |logits| else k
  {
    var kept := if k > |logits| then |logits| else k;
    if kept <= 0 {
      return [];
    }
    var score, idx := new real[kept], new int[kept];
    var hn := Select(logits, kept, score, idx);
    out := [];
    for n := 0 to hn
      invariant |out| == n && forall l :: 0 <= l < n ==> out[l] == Candidate(score[l], idx[l])
    {
      out := out + [Candidate(score[n], idx[n])];
    }
    Listed(logits, score[..], idx[..], hn, out);
  }

  lemma Listed(logits: seq<real>, score: seq<real>, idx: seq<int>, n: nat, out: seq<Candidate>)
    requires Picks(logits, |logits|, score, idx, n) && Best(logits, |logits|, score, idx, n)
    requires |out| == n && forall l :: 0 <= l < n ==> out[l] == Candidate(score[l], idx[l])
    ensures TopOf(logits, out)
  {
    forall u, k | 0 <= u < |logits| && (forall l :: 0 <= l < |out| ==> out[l].i != u) && 0 <= k < |out|
      ensures logits[u] <= out[k].v
    {
      assert forall l :: 0 <= l < n ==> idx[..n][l] == out[l].i;
    }
  }

  /** The library's sort by descending score, as an insertion: a rearrangement in descending order. */
  method SortDescending(ghost logits: seq<real>, a: seq<Candidate>) returns (out: seq<Candidate>)
    requires TopOf(logits, a)
    ensures TopOf(logits, out) && Descending(out) && |out| == |a| && multiset(out) == multiset(a)
  {
    out := [];
    for n := 0 to |a|
      invariant |out| == n && Descending(out) && multiset(out) == multiset(a[..n])
    {
      assert a[..n + 1] == a[..n] + [a[n]];
      out := InsertDescending(out, a[n]);
    }
    assert a[..|a|] == a;
    Rearranged(logits, a, out);
  }

  method InsertDescending(s: seq<Candidate>, c: Candidate) returns (out: seq<Candidate>)
    requires Descending(s)
    ensures Descending(out) && |out| == |s| + 1 && multiset(out) == multiset(s) + multiset{c}
  {
    hide Descending;
    var at: nat := |s|;
    while at > 0 && s[at - 1].v < c.v
      invariant at <= |s| && (at < |s| ==> c.v >= s[at].v)
    {
      at := at - 1;
    }
    assert s == s[..at] + s[at..];
    out := s[..at] + [c] + s[at..];
    PlacedDescending(s, at, c);
  }

  lemma PlacedDescending(s: seq<Candidate>, at: nat, c: Candidate)
    requires Descending(s) && at <= |s| && (at > 0 ==> s[at - 1].v >= c.v) && (at < |s| ==> c.v >= s[at].v)
    ensures Descending(s[..at] + [c] + s[at..])
  {
    var out := s[..at] + [c] + s[at..];
    forall k, l | 0 <= k < l < |out| ensures out[k].v >= out[l].v {
      var a := if k < at then s[k] else if k == at then c else s[k - 1];
      var b := if l < at then s[l] else if l == at then c else s[l - 1];
      assert out[k] == a && out[l] == b;
    }
  }

  lemma Rearranged(logits: seq<real>, a: seq<Candidate>, b: seq<Candidate>)
    requires TopOf(logits, a) && multiset(a) == multiset(b)
    ensures TopOf(logits, b)
  {
    forall k | 0 <= k < |b| ensures b[k] in a {
      assert b[k] in multiset(b);
    }
    forall k | 0 <= k < |a| ensures a[k] in b {
      assert a[k] in multiset(a);
    }
    forall k, l | 0 <= k < l < |b| ensures b[k].i != b[l].i {
      Twice(a, b, k, l);
    }
    forall u, k | 0 <= u < |logits| && (forall l :: 0 <= l < |b| ==> b[l].i != u) && 0 <= k < |b|
      ensures logits[u] <= b[k].v
    {
      assert forall l :: 0 <= l < |a| ==> a[l].i != u by {
        forall l | 0 <= l < |a| ensures a[l].i != u {
          assert a[l] in b;
        }
      }
      assert b[k] in a;
    }
  }

  /** A rearrangement of distinct tokens has no token twice. */
  lemma Twice(a: seq<Candidate>, b: seq<Candidate>, k: nat, l: nat)
    requires multiset(a) == multiset(b) && k < l < |b|
    requires forall m, n :: 0 <= m < n < |a| ==> a[m].i != a[n].i
    ensures b[k].i != b[l].i
  {
    var c, d := b[k], b[l];
    assert c in multiset(b) && d in multiset(b);
    assert c in a && d in a;
    var m :| 0 <= m < |a| && a[m] == c;
    var n :| 0 <= n < |a| && a[n] == d;
    OnlyOnce(a, m);
    if c.i == d.i {
      assert m == n;
      AtLeastTwo(b, k, l);
    }
  }

  lemma AtLeastTwo(b: seq<Candidate>, k: nat, l: nat)
    requires k < l < |b| && b[k] == b[l]
    ensures multiset(b)[b[k]] >= 2
  {
    assert b == b[..l] + b[l..];
    assert b[k] in multiset(b[..l]) && b[l] in multiset(b[l..]) by {
      assert b[..l][k] == b[k] && b[l..][0] == b[l];
    }
  }

  lemma OnlyOnce(a: seq<Candidate>, m: nat)
    requires m < |a| && forall k :: 0 <= k < |a| && k != m ==> a[k] != a[m]
    ensures multiset(a)[a[m]] == 1
  {
    assert a == a[..m] + [a[m]] + a[m + 1..];
    assert a[m] !in multiset(a[..m]) && a[m] !in multiset(a[m + 1..]);
  }

  /** `top_k_sorted`. */
  method TopKSorted(logits: seq<real>, k: int) returns (out: seq<Candidate>)
    ensures TopOf(logits, out) && Descending(out)
    ensures |out| == if k <= 0 then 0 else if k > |logits| then |logits| else k
  {
    var kept := TopKHeap(logits, k);
    out := SortDescending(logits, kept);
  }
}
