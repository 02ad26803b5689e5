/**
 The program's merge loop: pieces stay in an array and are linked left to right, candidate pairs sit
 in a heap whose entries are never updated, only recognised as out of date when they are popped.
 `MergeLoop` is proved to leave exactly the pieces of `BpeSpec.NaiveMerge`.
 */
module BpeMerge {
  import opened Bytes
  import opened BpeSpec
  import opened Heaps
  import opened BpeHeap

  // ---------------------------------------------------------------- values behind the arrays

  function Without(nodes: seq<int>, k: nat): seq<int>
    requires k < |nodes|
  {
    nodes[..k] + nodes[k + 1..]
  }

  /** The live pieces in text order: their array slots, the pieces, and the slots' versions. */
  datatype Chain = Chain(nodes: seq<int>, ps: seq<Piece>, vs: seq<nat>) {
    predicate Shaped() {
      |nodes| == |ps| == |vs|
    }

    predicate RankedAt(r: Rules, k: nat)
      requires Shaped()
    {
      k + 1 < |ps| && RankAt(r, ps, k) >= 0
    }

    /** The heap entry that describes the pair at position `k` as it is now. */
    function Current(r: Rules, k: nat): Entry
      requires Shaped() && k + 1 < |ps|
    {
      Entry(RankAt(r, ps, k), nodes[k], vs[k])
    }

    ghost predicate Increasing() {
      forall i, j :: 0 <= i < j < |nodes| ==> nodes[i] < nodes[j]
    }

    /** Every ranked pair has an up-to-date entry among the candidates. */
    ghost predicate CoveredBy(r: Rules, m: multiset<Entry>)
      requires Shaped()
    {
      forall k: nat :: RankedAt(r, k) ==> Current(r, k) in m
    }

    /** The chain after merging the pair at `k`: the right slot goes, the left slot's version moves on. */
    function Merged(r: Rules, k: nat): (c: Chain)
      requires Shaped() && k + 1 < |ps|
      ensures c.Shaped() && |c.nodes| == |nodes| - 1
    {
      Chain(Without(nodes, k + 1), MergeAt(r, ps, k), vs[..k] + [vs[k] + 1] + vs[k + 2..])
    }

    /** The pieces and versions are those the slots hold. */
    ghost predicate TiedTo(pcs: seq<Piece>, ver: seq<nat>) {
      && Shaped()
      && |pcs| == |ver|
      && forall k :: 0 <= k < |nodes| ==> 0 <= nodes[k] < |pcs| && ps[k] == pcs[nodes[k]] && vs[k] == ver[nodes[k]]
    }

    lemma TiedAfterFold(r: Rules, k: nat, pcs: seq<Piece>, ver: seq<nat>)
      requires TiedTo(pcs, ver) && Increasing() && k + 1 < |ps|
      ensures
        var nd, nx := nodes[k], nodes[k + 1];
        Merged(r, k).TiedTo(pcs[nd := MergePair(r, pcs[nd], pcs[nx])], ver[nx := ver[nx] + 1][nd := ver[nd] + 1])
    {
      var c := Merged(r, k);
      var nd, nx := nodes[k], nodes[k + 1];
      var pcs', ver' := pcs[nd := MergePair(r, pcs[nd], pcs[nx])], ver[nx := ver[nx] + 1][nd := ver[nd] + 1];
      forall j | 0 <= j < |c.nodes|
        ensures 0 <= c.nodes[j] < |pcs'| && c.ps[j] == pcs'[c.nodes[j]] && c.vs[j] == ver'[c.nodes[j]]
      {
        MergedParts(r, k, j);
        assert j != k ==> c.nodes[j] != nd && c.nodes[j] != nx;
      }
    }

    lemma MergedParts(r: Rules, k: nat, j: nat)
      requires Shaped() && k + 1 < |ps| && j + 1 < |ps|
      ensures
        var c := Merged(r, k);
        var was := if j <= k then j else j + 1;
        && c.nodes[j] == nodes[was]
        && c.ps[j] == (if j == k then MergePair(r, ps[k], ps[k + 1]) else ps[was])
        && c.vs[j] == if j == k then vs[k] + 1 else vs[was]
    {
    }

    /** How many of the candidates are up to date, over the first `n` pairs. */
    ghost function CurrentCount(r: Rules, m: multiset<Entry>, n: nat): nat
      requires Shaped() && n < |ps|
    {
      if n == 0 then 0
      else CurrentCount(r, m, n - 1) + if RankedAt(r, n - 1) then m[Current(r, n - 1)] else 0
    }

    lemma {:induction false} CurrentCountBound(r: Rules, m: multiset<Entry>, n: nat)
      requires Shaped() && n < |ps| && Increasing()
      ensures CurrentCount(r, m, n) <= |m|
    {
      if n > 0 {
        if RankedAt(r, n - 1) {
          var e := Current(r, n - 1);
          var rest := m[e := 0];
          assert m == rest + multiset{}[e := m[e]];
          CurrentCountBound(r, rest, n - 1);
          CurrentCountIgnores(r, m, rest, e, n - 1);
        } else {
          CurrentCountBound(r, m, n - 1);
        }
      }
    }

    /** The count does not look at entries that describe none of the counted pairs. */
    lemma {:induction false} CurrentCountIgnores(r: Rules, m: multiset<Entry>, m': multiset<Entry>, e: Entry, n: nat)
      requires Shaped() && n < |ps|
      requires forall k: nat :: k < n && RankedAt(r, k) ==> Current(r, k) != e
      requires forall x :: x != e ==> m[x] == m'[x]
      ensures CurrentCount(r, m, n) == CurrentCount(r, m', n)
    {
      if n > 0 {
        CurrentCountIgnores(r, m, m', e, n - 1);
      }
    }

    /** Adding the entry of the pair at `k` raises the count by one. */
    lemma {:induction false} CurrentCountAdd(r: Rules, m: multiset<Entry>, k: nat, n: nat)
      requires Shaped() && n < |ps| && Increasing() && RankedAt(r, k)
      ensures CurrentCount(r, m + multiset{Current(r, k)}, n) == CurrentCount(r, m, n) + if k < n then 1 else 0
    {
      if n > 0 {
        CurrentCountAdd(r, m, k, n - 1);
      }
    }

    /** The least candidate, if up to date, describes the pair the textbook rule merges next. */
    lemma LeastIsBest(r: Rules, h: seq<Entry>, k: nat)
      requires Shaped() && Increasing() && IsHeap(h) && |h| > 0
      requires CoveredBy(r, multiset(h))
      requires RankedAt(r, k) && h[0] == Current(r, k)
      ensures IsBest(r, ps, k)
    {
      forall j: nat | j + 1 < |ps| && RankAt(r, ps, j) >= 0
        ensures RankAt(r, ps, k) < RankAt(r, ps, j) || (RankAt(r, ps, k) == RankAt(r, ps, j) && k <= j)
      {
        assert RankedAt(r, j);
        RootIsLeastOf(h, Current(r, j));
      }
    }

    /** How many of the candidates `h` are out of date. */
    ghost function OutOfDate(r: Rules, h: seq<Entry>): int
      requires Shaped() && |ps| > 0
    {
      |h| - CurrentCount(r, multiset(h), |ps| - 1)
    }

    /** An entry that describes no present pair can be dropped. */
    lemma DropOutdated(r: Rules, h: seq<Entry>, h': seq<Entry>, e: Entry)
      requires Shaped() && |ps| > 0 && Increasing() && CoveredBy(r, multiset(h)) && e in multiset(h)
      requires forall j: nat :: RankedAt(r, j) ==> Current(r, j) != e
      requires multiset(h') == multiset(h) - multiset{e}
      ensures CoveredBy(r, multiset(h'))
      ensures 0 <= OutOfDate(r, h') == OutOfDate(r, h) - 1
    {
      CurrentCountIgnores(r, multiset(h), multiset(h'), e, |ps| - 1);
      CurrentCountBound(r, multiset(h'), |ps| - 1);
      assert |multiset(h')| == |multiset(h)| - 1;
    }

    /** Popping the entry of the pair at `k` leaves the entries of all other pairs. */
    lemma PopCurrent(r: Rules, m: multiset<Entry>, m': multiset<Entry>, k: nat)
      requires Shaped() && Increasing() && RankedAt(r, k) && CoveredBy(r, m)
      requires m' == m - multiset{Current(r, k)}
      ensures forall j: nat :: j != k && RankedAt(r, j) ==> Current(r, j) in m'
    {
      forall j: nat | j != k && RankedAt(r, j)
        ensures Current(r, j) in m'
      {
        assert nodes[j] != nodes[k];
      }
    }

    /** An up-to-date entry can be added any number of times. */
    lemma AddCurrent(r: Rules, h: seq<Entry>, h': seq<Entry>, k: nat)
      requires Shaped() && Increasing() && RankedAt(r, k) && CoveredBy(r, multiset(h))
      requires multiset(h') == multiset(h) + multiset{Current(r, k)}
      ensures CoveredBy(r, multiset(h'))
      ensures 0 <= OutOfDate(r, h') == OutOfDate(r, h)
    {
      CurrentCountAdd(r, multiset(h), k, |ps| - 1);
      CurrentCountBound(r, multiset(h'), |ps| - 1);
      assert |multiset(h')| == |multiset(h)| + 1;
    }

    lemma NothingLeft(r: Rules)
      requires Shaped() && CoveredBy(r, multiset{})
      ensures forall j: nat :: j + 1 < |ps| ==> RankAt(r, ps, j) < 0
    {
      forall j: nat | j + 1 < |ps|
        ensures RankAt(r, ps, j) < 0
      {
        assert !RankedAt(r, j);
      }
    }

    /** A merge disturbs only the pair left of it and the pair it forms; re-entering those two restores cover. */
    lemma MergedCovered(r: Rules, m: multiset<Entry>, k: nat, m': multiset<Entry>)
      requires Shaped() && k + 1 < |ps|
      requires forall j: nat :: j != k && RankedAt(r, j) ==> Current(r, j) in m
      requires m <= m'
      requires k > 0 && Merged(r, k).RankedAt(r, k - 1) ==> Merged(r, k).Current(r, k - 1) in m'
      requires Merged(r, k).RankedAt(r, k) ==> Merged(r, k).Current(r, k) in m'
      ensures Merged(r, k).CoveredBy(r, m')
    {
      var c := Merged(r, k);
      forall j: nat | c.RankedAt(r, j)
        ensures c.Current(r, j) in m'
      {
        if j + 1 < k {
          MergedElsewhere(r, k, j, j);
          assert RankedAt(r, j);
        } else if j > k {
          MergedElsewhere(r, k, j, j + 1);
          assert RankedAt(r, j + 1);
        }
      }
    }

    /** Pairs not touching the merged one keep their entry; those to the right move one position left. */
    lemma MergedElsewhere(r: Rules, k: nat, j: nat, was: nat)
      requires Shaped() && k + 1 < |ps| && j + 2 < |ps|
      requires (j + 1 < k && was == j) || (j > k && was == j + 1)
      ensures Merged(r, k).Current(r, j) == Current(r, was)
    {
      var c := Merged(r, k);
      assert c.ps[j] == ps[was] && c.ps[j + 1] == ps[was + 1];
    }
  }

  ghost predicate Ascending(n: nat, nodes: seq<int>) {
    && |nodes| > 0
    && nodes[0] == 0
    && (forall i :: 0 <= i < |nodes| ==> 0 <= nodes[i] < n)
    && (forall i, j :: 0 <= i < j < |nodes| ==> nodes[i] < nodes[j])
  }

  predicate NeighboursAt(nodes: seq<int>, prev: seq<int>, next: seq<int>, k: nat)
    requires k < |nodes| && 0 <= nodes[k] < |prev| == |next|
  {
    && next[nodes[k]] == (if k + 1 < |nodes| then nodes[k + 1] else -1)
    && prev[nodes[k]] == (if k > 0 then nodes[k - 1] else -1)
  }

  /** `next` and `prev` link consecutive members of `nodes`, with -1 beyond either end. */
  ghost predicate Neighbours(n: nat, nodes: seq<int>, prev: seq<int>, next: seq<int>)
    requires |prev| == |next| == n && Ascending(n, nodes)
  {
    forall k :: 0 <= k < |nodes| ==> NeighboursAt(nodes, prev, next, k)
  }

  ghost predicate AliveAre(n: nat, nodes: seq<int>, alive: seq<bool>) {
    && |alive| == n
    && forall i :: 0 <= i < n ==> (alive[i] <==> i in nodes)
  }

  /** `prev`, `next` and `alive` describe `nodes`, which lists the live slots from left to right. */
  ghost predicate Links(n: nat, nodes: seq<int>, prev: seq<int>, next: seq<int>, alive: seq<bool>) {
    && |prev| == |next| == n
    && Ascending(n, nodes)
    && Neighbours(n, nodes, prev, next)
    && AliveAre(n, nodes, alive)
  }

  function Upto(n: nat): (s: seq<int>)
    ensures |s| == n && forall i :: 0 <= i < n ==> s[i] == i
  {
    seq(n, i => i)
  }

  lemma FirstLinks(n: nat, prev: seq<int>, next: seq<int>, alive: seq<bool>)
    requires 0 < n == |prev| == |next| == |alive|
    requires forall j :: 0 <= j < n ==> prev[j] == j - 1
    requires forall j :: 0 <= j < n ==> next[j] == if j + 1 < n then j + 1 else -1
    requires forall j :: 0 <= j < n ==> alive[j]
    ensures Links(n, Upto(n), prev, next, alive)
  {
    forall i | 0 <= i < n
      ensures i in Upto(n)
    {
      assert Upto(n)[i] == i;
    }
  }

  lemma WithoutAscending(n: nat, nodes: seq<int>, k: nat)
    requires Ascending(n, nodes) && 0 < k < |nodes|
    ensures Ascending(n, Without(nodes, k))
    ensures forall i :: i in Without(nodes, k) <==> i in nodes && i != nodes[k]
  {
    var rest := Without(nodes, k);
    forall i | i in nodes && i != nodes[k]
      ensures i in rest
    {
      var j :| 0 <= j < |nodes| && nodes[j] == i;
      assert rest[if j < k then j else j - 1] == i;
    }
  }

  lemma NeighboursAfterUnlink(n: nat, nodes: seq<int>, prev: seq<int>, next: seq<int>,
                              prev': seq<int>, next': seq<int>, k: nat)
    requires |prev| == |next| == |prev'| == |next'| == n && Ascending(n, nodes) && Neighbours(n, nodes, prev, next)
    requires k + 1 < |nodes| && Ascending(n, Without(nodes, k + 1))
    requires next' == next[nodes[k] := next[nodes[k + 1]]]
    requires prev' == if k + 2 < |nodes| then prev[nodes[k + 2] := nodes[k]] else prev
    ensures Neighbours(n, Without(nodes, k + 1), prev', next')
  {
    var rest := Without(nodes, k + 1);
    forall j | 0 <= j < |rest|
      ensures NeighboursAt(rest, prev', next', j)
    {
      var was := if j <= k then j else j + 1;
      assert rest[j] == nodes[was];
      assert j > 0 ==> rest[j - 1] == if j <= k + 1 then nodes[j - 1] else nodes[j];
      assert j + 1 < |rest| ==> rest[j + 1] == if j < k then nodes[j + 1] else nodes[j + 2];
      assert NeighboursAt(nodes, prev, next, was) && NeighboursAt(nodes, prev, next, k + 1);
    }
  }

  // ---------------------------------------------------------------- the arrays

  class BpeState {
    const rules: Rules
    const npcs: nat
    const pcs: array<Piece>
    const prev: array<int>
    const next: array<int>
    const alive: array<bool>
    const ver: array<nat>
    const hrank: array<int>
    const hnode: array<int>
    const hver: array<nat>
    var hn: nat

    ghost var chain: Chain       // the live pieces, left to right
    ghost var heap: seq<Entry>   // slot `i` of the heap arrays is element `i - 1`

    ghost predicate Shape() {
      && npcs > 0
      && pcs.Length >= npcs
      && prev.Length == next.Length == alive.Length == ver.Length == npcs
      && hrank.Length == hnode.Length == hver.Length == 3 * npcs + 8
      && prev != next && prev != hrank && prev != hnode
      && next != hrank && next != hnode && hrank != hnode
      && ver != hver
    }

    ghost predicate HeapTied()
      reads this`hn, this`heap, hrank, hnode, hver
      requires Shape()
    {
      && |heap| == hn < hrank.Length
      && forall i :: 1 <= i <= hn ==> heap[i - 1] == Entry(hrank[i], hnode[i], hver[i])
    }

    ghost predicate Linked()
      reads this`chain, pcs, prev, next, alive, ver
      requires Shape()
    {
      && Links(npcs, chain.nodes, prev[..], next[..], alive[..])
      && chain.TiedTo(pcs[..npcs], ver[..])
    }

    // -------------------------------------------------------------- the heap

    method HeapSwap(i: nat, j: nat)
      requires Shape() && HeapTied() && 1 <= i <= hn && 1 <= j <= hn
      modifies this`heap, hrank, hnode, hver
      ensures HeapTied() && IsSwap(old(heap), heap, i - 1, j - 1)
    {
      var tr := hrank[i];
      hrank[i] := hrank[j];
      hrank[j] := tr;
      var tn := hnode[i];
      hnode[i] := hnode[j];
      hnode[j] := tn;
      var tv := hver[i];
      hver[i] := hver[j];
      hver[j] := tv;
      heap := heap[i - 1 := heap[j - 1]][j - 1 := heap[i - 1]];
    }

    method HeapPush(rank: int, node: int, v: nat)
      requires Shape() && HeapTied() && hn + 1 < hrank.Length && IsHeap(heap)
      modifies this`hn, this`heap, hrank, hnode, hver
      ensures HeapTied() && IsHeap(heap) && hn == old(hn) + 1
      ensures multiset(heap) == multiset(old(heap)) + multiset{Entry(rank, node, v)}
    {
      hn := hn + 1;
      hrank[hn] := rank;
      hnode[hn] := node;
      hver[hn] := v;
      heap := heap + [Entry(rank, node, v)];
      SiftUp(hn);
    }

    /** The entry at slot `start` climbs while its parent comes after it. */
    method SiftUp(start: nat)
      requires Shape() && HeapTied() && 1 <= start <= hn && HeapButUp(heap, start - 1)
      modifies this`heap, hrank, hnode, hver
      ensures HeapTied() && IsHeap(heap) && multiset(heap) == multiset(old(heap))
    {
      hide IsHeap, HeapButUp;
      var i := start;
      while i > 1
        invariant 1 <= i <= hn && HeapTied()
        invariant multiset(heap) == multiset(old(heap))
        invariant HeapButUp(heap, i - 1)
      {
        var par := i / 2;
        ghost var h := heap;
        if hrank[par] < hrank[i] || (hrank[par] == hrank[i] && hnode[par] <= hnode[i]) {
          SiftUpDone(h, i - 1);
          return;
        }
        assert (i - 1 - 1) / 2 == par - 1;
        HeapSwap(i, par);
        SiftUpStep(h, heap, i - 1);
        i := par;
      }
      SiftUpTop(heap);
    }

    method HeapPop() returns (rank: int, node: int, v: nat)
      requires Shape() && HeapTied() && 0 < hn && IsHeap(heap)
      modifies this`hn, this`heap, hrank, hnode, hver
      ensures HeapTied() && IsHeap(heap) && hn == old(hn) - 1
      ensures Entry(rank, node, v) == old(heap)[0]
      ensures multiset(heap) == multiset(old(heap)) - multiset{Entry(rank, node, v)}
    {
      rank, node, v := hrank[1], hnode[1], hver[1];
      var n := hn;
      if n <= 1 {
        hn := n - 1;
        assert heap == [Entry(rank, node, v)];
        heap := [];
        return;
      }
      LastToRoot();
      SiftDown();
    }

    /** The last entry takes the root's place and the heap shrinks by one. */
    method LastToRoot()
      requires Shape() && HeapTied() && 1 < hn && IsHeap(heap)
      modifies this`hn, this`heap, hrank, hnode, hver
      ensures HeapTied() && hn == old(hn) - 1 && HeapButDown(heap, 0)
      ensures multiset(heap) == multiset(old(heap)) - multiset{old(heap)[0]}
    {
      var n := hn;
      HeapSwap(1, n);
      RootReplaced(old(heap), heap);
      hn := n - 1;
      heap := heap[..n - 1];
    }

    /** The slot among `i` and its children whose entry comes first. */
    method LeastOfFamily(i: nat) returns (best: nat)
      requires Shape() && HeapTied() && 1 <= i <= hn
      ensures i <= best <= hn && (best == i || Parent(i - 1, best - 1))
      ensures best != i ==> NotAfter(heap[best - 1], heap[i - 1])
      ensures forall c :: i - 1 < c < hn && Parent(i - 1, c) ==> NotAfter(heap[best - 1], heap[c])
    {
      var l, r := 2 * i, 2 * i + 1;
      best := i;
      if l <= hn && (hrank[l] < hrank[best] || (hrank[l] == hrank[best] && hnode[l] < hnode[best])) {
        best := l;
      }
      if r <= hn && (hrank[r] < hrank[best] || (hrank[r] == hrank[best] && hnode[r] < hnode[best])) {
        best := r;
      }
    }

    /** The entry at the root sinks while a child comes before it. */
    method SiftDown()
      requires Shape() && HeapTied() && 1 <= hn && HeapButDown(heap, 0)
      modifies this`heap, hrank, hnode, hver
      ensures HeapTied() && IsHeap(heap) && multiset(heap) == multiset(old(heap))
    {
      var i := 1;
      while true
        invariant 1 <= i <= hn && HeapTied()
        invariant multiset(heap) == multiset(old(heap))
        invariant HeapButDown(heap, i - 1)
        decreases hn - i
      {
        var best := LeastOfFamily(i);
        ghost var h := heap;
        if best == i {
          SiftDownDone(h, i - 1);
          return;
        }
        HeapSwap(i, best);
        SiftDownStep(h, heap, i - 1, best - 1);
        i := best;
      }
    }

    // -------------------------------------------------------------- the linked pieces

    lemma LinksAt(k: nat)
      requires Shape() && Linked() && k < |chain.nodes|
      ensures 0 <= chain.nodes[k] < npcs && alive[chain.nodes[k]]
      ensures next[chain.nodes[k]] == if k + 1 < |chain.nodes| then chain.nodes[k + 1] else -1
      ensures prev[chain.nodes[k]] == if k > 0 then chain.nodes[k - 1] else -1
    {
      var nd := chain.nodes[k];
      assert NeighboursAt(chain.nodes, prev[..], next[..], k);
      assert next[nd] == next[..][nd] && prev[nd] == prev[..][nd] && alive[nd] == alive[..][nd];
    }

    /** Where a live slot sits in the chain, and what its links say. */
    lemma Locate(nd: nat) returns (k: nat)
      requires Shape() && Linked() && nd < npcs && alive[nd]
      ensures k < |chain.nodes| && chain.nodes[k] == nd
      ensures next[nd] == if k + 1 < |chain.nodes| then chain.nodes[k + 1] else -1
    {
      assert alive[..][nd];
      k :| 0 <= k < |chain.nodes| && chain.nodes[k] == nd;
      LinksAt(k);
    }

    method PairRankAt(i: nat, ghost k: nat) returns (rank: int)
      requires Shape() && Linked() && k + 1 < |chain.nodes| && chain.nodes[k] == i
      ensures rank == RankAt(rules, chain.ps, k)
    {
      LinksAt(k);
      LinksAt(k + 1);
      rank := PairRank(rules, pcs[i], pcs[next[i]]);
    }

    /** Fold the piece at slot `nx` into the one at `nd` and move both versions on. */
    method Fold(nd: nat, nx: nat, rank: int, ghost k: nat)
      requires Shape() && Ascending(npcs, chain.nodes) && chain.TiedTo(pcs[..npcs], ver[..])
      requires k + 1 < |chain.nodes| && chain.nodes[k] == nd && chain.nodes[k + 1] == nx
      requires rank == RankAt(rules, chain.ps, k) >= 0
      modifies pcs, ver
      ensures chain.Merged(rules, k).TiedTo(pcs[..npcs], ver[..])
      ensures ver[..] == old(ver[..])[nx := old(ver[nx]) + 1][nd := old(ver[nd]) + 1]
    {
      hide FnvUpdate;
      chain.TiedAfterFold(rules, k, pcs[..npcs], ver[..]);
      hide Chain.Merged, Chain.TiedTo;
      pcs[nd] := Piece(pcs[nd].text + pcs[nx].text, FnvUpdate(pcs[nd].hash, pcs[nx].text),
                       IdOrUnknown(rules, rules.mergedId(rank)), pcs[nd].locked);
      ver[nx] := ver[nx] + 1;
      ver[nd] := ver[nd] + 1;
      assert pcs[..npcs] == old(pcs[..npcs])[nd := MergePair(rules, old(pcs[nd]), old(pcs[nx]))];
    }

    /** Take the slot right of `nd` out of the links. */
    method Unlink(nd: nat, nx: nat, ghost k: nat)
      requires Shape() && Links(npcs, chain.nodes, prev[..], next[..], alive[..])
      requires k + 1 < |chain.nodes| && chain.nodes[k] == nd && chain.nodes[k + 1] == nx
      modifies prev, next, alive
      ensures Links(npcs, Without(chain.nodes, k + 1), prev[..], next[..], alive[..])
    {
      assert NeighboursAt(chain.nodes, prev[..], next[..], k + 1);
      assert next[nx] == next[..][nx];
      alive[nx] := false;
      next[nd] := next[nx];
      if next[nx] >= 0 {
        prev[next[nx]] := nd;
      }
      WithoutAscending(npcs, chain.nodes, k + 1);
      assert next[..] == old(next[..])[nd := old(next[nx])];
      NeighboursAfterUnlink(npcs, chain.nodes, old(prev[..]), old(next[..]), prev[..], next[..], k);
    }

    method Absorb(nd: nat, rank: int, ghost k: nat)
      requires Shape() && Linked() && k + 1 < |chain.nodes| && chain.nodes[k] == nd
      requires rank == RankAt(rules, chain.ps, k) >= 0
      modifies this`chain, pcs, prev, next, alive, ver
      ensures Linked() && chain == old(chain).Merged(rules, k)
      ensures forall i :: 0 <= i < npcs ==> ver[..][i] <= old(ver[..])[i] + 1
    {
      LinksAt(k);
      LinksAt(k + 1);
      var nx := next[nd];
      Fold(nd, nx, rank, k);
      Unlink(nd, nx, k);
      chain := chain.Merged(rules, k);
    }

    // -------------------------------------------------------------- the merge loop

    ghost predicate Entries(m: multiset<Entry>) {
      forall e :: e in m ==> e.rank >= 0 && 0 <= e.node < npcs
    }

    /** Each merge costs a slot and moves a version by one, so no version passes the number of merges. */
    ghost predicate VersionsBounded()
      reads this`chain, ver
      requires Shape()
    {
      forall i :: 0 <= i < npcs ==> ver[..][i] + |chain.nodes| <= npcs
    }

    /** What holds each time the loop looks at the heap. */
    ghost predicate Inv()
      reads this, pcs, prev, next, alive, ver, hrank, hnode, hver
    {
      && Shape() && HeapTied() && Linked() && VersionsBounded()
      && hn + |chain.nodes| < 2 * npcs
      && IsHeap(heap)
      && Entries(multiset(heap))
      && chain.CoveredBy(rules, multiset(heap))
    }

    /** Offer the pair starting at `nd` as a candidate, if it is ranked. */
    method Offer(nd: nat, ghost k: nat)
      requires Shape() && HeapTied() && Linked() && hn + 1 < hrank.Length && IsHeap(heap)
      requires Entries(multiset(heap))
      requires k + 1 < |chain.nodes| && chain.nodes[k] == nd
      modifies this`hn, this`heap, hrank, hnode, hver
      ensures HeapTied() && hn <= old(hn) + 1 && IsHeap(heap) && Entries(multiset(heap))
      ensures multiset(old(heap)) <= multiset(heap)
      ensures chain.RankedAt(rules, k) ==> chain.Current(rules, k) in multiset(heap)
    {
      var r := PairRankAt(nd, k);
      LinksAt(k);
      if r >= 0 {
        HeapPush(r, nd, ver[nd]);
        assert chain.Current(rules, k) == Entry(r, nd, ver[nd]);
      }
    }

    method OfferAround(nd: nat, ghost k: nat)
      requires Shape() && HeapTied() && Linked() && hn + 2 < hrank.Length && IsHeap(heap)
      requires Entries(multiset(heap))
      requires k < |chain.nodes| && chain.nodes[k] == nd
      modifies this`hn, this`heap, hrank, hnode, hver
      ensures HeapTied() && hn <= old(hn) + 2 && IsHeap(heap) && Entries(multiset(heap))
      ensures multiset(old(heap)) <= multiset(heap)
      ensures chain.RankedAt(rules, k) ==> chain.Current(rules, k) in multiset(heap)
      ensures k > 0 && chain.RankedAt(rules, k - 1) ==> chain.Current(rules, k - 1) in multiset(heap)
    {
      LinksAt(k);
      if prev[nd] >= 0 {
        Offer(prev[nd], k - 1);
      }
      if next[nd] >= 0 {
        Offer(nd, k);
      }
    }

    /** Merge the pair at `nd` and offer the two pairs the merge touches. */
    method MergeAtNode(nd: nat, rank: int, ghost k: nat)
      requires Shape() && HeapTied() && Linked() && VersionsBounded()
      requires hn + 1 + |chain.nodes| < 2 * npcs && IsHeap(heap) && Entries(multiset(heap))
      requires k + 1 < |chain.nodes| && chain.nodes[k] == nd && rank == RankAt(rules, chain.ps, k) >= 0
      requires forall j: nat :: j != k && chain.RankedAt(rules, j) ==> chain.Current(rules, j) in multiset(heap)
      modifies this, pcs, prev, next, alive, ver, hrank, hnode, hver
      ensures Inv() && chain == old(chain).Merged(rules, k)
    {
      Absorb(nd, rank, k);
      OfferAround(nd, k);
      old(chain).MergedCovered(rules, multiset(old(heap)), k, multiset(heap));
    }

    /** An entry the loop's tests turn away describes no present pair, so nothing is lost with it. */
    lemma TurnedAway(h: seq<Entry>, e: Entry)
      requires Shape() && Linked() && 0 <= e.node < npcs
      requires !alive[e.node] || ver[e.node] != e.ver || next[e.node] < 0
            || (next[e.node] < npcs && PairRank(rules, pcs[e.node], pcs[next[e.node]]) != e.rank)
      requires chain.CoveredBy(rules, multiset(h)) && e in multiset(h)
      requires multiset(heap) == multiset(h) - multiset{e}
      ensures chain.CoveredBy(rules, multiset(heap))
      ensures 0 <= chain.OutOfDate(rules, heap) == chain.OutOfDate(rules, h) - 1
    {
      forall j: nat | chain.RankedAt(rules, j)
        ensures chain.Current(rules, j) != e
      {
        LinksAt(j);
        LinksAt(j + 1);
      }
      chain.DropOutdated(rules, h, heap, e);
    }

    method MergeStep()
      requires Inv() && hn > 0
      modifies this, pcs, prev, next, alive, ver, hrank, hnode, hver
      ensures Inv()
      ensures NaiveMerge(rules, chain.ps) == NaiveMerge(rules, old(chain.ps))
      ensures |chain.ps| < old(|chain.ps|)
           || (chain == old(chain) && 0 <= chain.OutOfDate(rules, heap) < chain.OutOfDate(rules, old(heap)))
    {
      ghost var h := heap;
      var topRank, nd, topVer := HeapPop();
      ghost var top := Entry(topRank, nd, topVer);
      assert top in multiset(h);
      if !alive[nd] || ver[nd] != topVer || next[nd] < 0 {
        TurnedAway(h, top);
        return;
      }
      Examine(nd, topRank, h);
    }

    /** The popped entry's neighbour has changed: the pair that is there now, if ranked, goes back into the heap. */
    method Requeue(nd: nat, cur: int, ghost h: seq<Entry>, ghost top: Entry, ghost k: nat)
      requires Shape() && HeapTied() && Linked() && VersionsBounded() && Entries(multiset(heap))
      requires hn + 1 + |chain.nodes| < 2 * npcs && IsHeap(heap)
      requires chain.CoveredBy(rules, multiset(h)) && top in multiset(h)
      requires multiset(heap) == multiset(h) - multiset{top}
      requires k + 1 < |chain.nodes| && chain.nodes[k] == nd == top.node
      requires cur == RankAt(rules, chain.ps, k) != top.rank
      modifies this`hn, this`heap, hrank, hnode, hver
      ensures Inv() && 0 <= chain.OutOfDate(rules, heap) < chain.OutOfDate(rules, h)
    {
      LinksAt(k);
      LinksAt(k + 1);
      TurnedAway(h, top);
      if cur >= 0 {
        Reenter(nd, cur, k);
      }
    }

    /** The popped entry's slot is live and unchanged: merge there, unless its neighbour has changed. */
    method Examine(nd: nat, topRank: int, ghost h: seq<Entry>)
      requires Shape() && HeapTied() && Linked() && VersionsBounded() && Entries(multiset(heap))
      requires hn + 1 + |chain.nodes| < 2 * npcs && IsHeap(h) && IsHeap(heap)
      requires chain.CoveredBy(rules, multiset(h))
      requires nd < npcs && alive[nd] && next[nd] >= 0 && topRank >= 0 && |h| > 0 && h[0] == Entry(topRank, nd, ver[nd])
      requires multiset(heap) == multiset(h) - multiset{h[0]}
      modifies this, pcs, prev, next, alive, ver, hrank, hnode, hver
      ensures Inv()
      ensures NaiveMerge(rules, chain.ps) == NaiveMerge(rules, old(chain.ps))
      ensures |chain.ps| < old(|chain.ps|)
           || (chain == old(chain) && 0 <= chain.OutOfDate(rules, heap) < chain.OutOfDate(rules, h))
    {
      hide NaiveMerge, FnvUpdate, MergeAt, IsHeap, HeapTied;
      ghost var top := h[0];
      assert top in multiset(h);
      ghost var k := Locate(nd);
      var cur := PairRankAt(nd, k);
      if cur != topRank {
        Requeue(nd, cur, h, top, k);
        return;
      }
      chain.LeastIsBest(rules, h, k);
      NaiveMergeStep(rules, chain.ps, k);
      chain.PopCurrent(rules, multiset(h), multiset(heap), k);
      MergeAtNode(nd, cur, k);
    }

    /** Re-entering a present pair adds an entry that is not out of date. */
    method Reenter(nd: nat, cur: int, ghost k: nat)
      requires Inv() && hn + 1 + |chain.nodes| < 2 * npcs
      requires k + 1 < |chain.nodes| && chain.nodes[k] == nd && cur == RankAt(rules, chain.ps, k) >= 0
      modifies this`hn, this`heap, hrank, hnode, hver
      ensures Inv() && 0 <= chain.OutOfDate(rules, heap) == chain.OutOfDate(rules, old(heap))
    {
      LinksAt(k);
      HeapPush(cur, nd, ver[nd]);
      chain.AddCurrent(rules, old(heap), heap, k);
    }

    /**
     Drain the heap. An entry is ignored if its slot died or moved on to another version; it is
     re-entered under its present rank if the neighbour it was computed for has changed.
     The heap never outgrows `2 * npcs`, well inside the arrays, and no version counter passes `npcs`.
     */
    method MergeLoop()
      requires Inv()
      modifies this, pcs, prev, next, alive, ver, hrank, hnode, hver
      ensures Inv() && hn == 0
      ensures chain.ps == NaiveMerge(rules, old(chain.ps))
    {
      while hn > 0
        invariant Inv()
        invariant NaiveMerge(rules, chain.ps) == NaiveMerge(rules, old(chain.ps))
        decreases |chain.ps|, chain.OutOfDate(rules, heap)
      {
        MergeStep();
      }
      chain.NothingLeft(rules);
      NaiveMergeDone(rules, chain.ps);
    }

    // -------------------------------------------------------------- set-up and result

    constructor (rules: Rules, pcs: array<Piece>, npcs: nat)
      requires 0 < npcs <= pcs.Length
      ensures this.rules == rules && this.pcs == pcs && this.npcs == npcs
      ensures Shape() && hn == 0 && heap == []
      ensures fresh(prev) && fresh(next) && fresh(alive) && fresh(ver)
      ensures fresh(hrank) && fresh(hnode) && fresh(hver)
    {
      this.rules, this.pcs, this.npcs := rules, pcs, npcs;
      prev, next := new int[npcs], new int[npcs];
      alive, ver := new bool[npcs], new nat[npcs];
      hrank, hnode, hver := new int[3 * npcs + 8], new int[3 * npcs + 8], new nat[3 * npcs + 8];
      hn := 0;
      heap := [];
    }

    /** Link all of `pcs[..npcs]` left to right. */
    method LinkAll()
      requires Shape()
      modifies this`chain, prev, next, alive, ver
      ensures Linked() && VersionsBounded()
      ensures chain.ps == pcs[..npcs] && chain.nodes == Upto(npcs)
    {
      for i := 0 to npcs
        modifies prev, next, alive, ver
        invariant forall j :: 0 <= j < i ==> prev[j] == j - 1
        invariant forall j :: 0 <= j < i ==> next[j] == if j + 1 < npcs then j + 1 else -1
        invariant forall j :: 0 <= j < i ==> alive[j] && ver[j] == 0
      {
        prev[i] := i - 1;
        next[i] := if i + 1 < npcs then i + 1 else -1;
        alive[i] := true;
        ver[i] := 0;
      }
      chain := Chain(Upto(npcs), pcs[..npcs], ver[..]);
      FirstLinks(npcs, prev[..], next[..], alive[..]);
    }

    /** Offer every adjacent pair. */
    method Seed()
      requires Shape() && Linked() && VersionsBounded()
      requires hn == 0 && heap == [] && chain.nodes == Upto(npcs)
      modifies this`hn, this`heap, hrank, hnode, hver
      ensures Inv()
    {
      var i := 0;
      while i + 1 < npcs
        invariant 0 <= i <= npcs && (i < npcs || npcs == 0)
        invariant HeapTied() && hn <= i && IsHeap(heap) && Entries(multiset(heap))
        invariant forall j: nat :: j < i && chain.RankedAt(rules, j) ==> chain.Current(rules, j) in multiset(heap)
      {
        assert chain.nodes[i] == i;
        hide IsHeap, HeapTied, Linked, Entries, Chain.RankedAt, Chain.Current;
        Offer(i, i);
        i := i + 1;
      }
    }

    /** The token ids of the remaining pieces, unless there are more than `maxOut`. */
    method Collect(maxOut: int) returns (ok: bool, ids: seq<nat>)
      requires Shape() && Linked()
      ensures ok <==> |chain.ps| <= maxOut
      ensures ok ==> ids == Ids(chain.ps)
    {
      ids := [];
      ghost var k := 0;
      LinksAt(0);
      var i := 0;
      while i >= 0
        invariant 0 <= k <= |chain.ps|
        invariant i == if k < |chain.nodes| then chain.nodes[k] else -1
        invariant |ids| == k && (k > 0 ==> k <= maxOut)
        invariant forall j :: 0 <= j < k ==> ids[j] == chain.ps[j].id
        decreases |chain.ps| - k
      {
        if |ids| >= maxOut {
          return false, [];
        }
        LinksAt(k);
        ids := ids + [pcs[i].id];
        i := next[i];
        k := k + 1;
      }
      ok := true;
    }
  }
}
