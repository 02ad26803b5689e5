/** Searching for marker strings, whole or begun at the end of a text. */
module Markers {
  import opened Bytes

  /** The marker stands at `p`. */
  predicate Occurs(s: Bytes, p: nat, m: Bytes) {
    p + |m| <= |s| && s[p..p + |m|] == m
  }

  /** The first place from `from` on where the marker stands, or -1; an empty marker stands nowhere. */
  function Find(s: Bytes, from: nat, m: Bytes): int
    decreases |s| - from
  {
    if m == [] || from + |m| > |s| then -1
    else if Occurs(s, from, m) then from
    else Find(s, from + 1, m)
  }

  lemma {:induction false} FindFirst(s: Bytes, from: nat, m: Bytes)
    ensures var k := Find(s, from, m);
      && (k >= 0 ==> m != [] && from <= k && Occurs(s, k, m) && forall p: nat :: from <= p < k ==> !Occurs(s, p, m))
      && (k < 0 ==> k == -1 && (m != [] ==> forall p: nat :: from <= p ==> !Occurs(s, p, m)))
    decreases |s| - from
  {
    if m != [] && from + |m| <= |s| && !Occurs(s, from, m) {
      FindFirst(s, from + 1, m);
    }
  }

  /** What is first does not depend on how it was found. */
  lemma FindIs(s: Bytes, from: nat, m: Bytes, k: nat)
    requires m != [] && from <= k && Occurs(s, k, m) && forall p: nat :: from <= p < k ==> !Occurs(s, p, m)
    ensures Find(s, from, m) == k
  {
    FindFirst(s, from, m);
  }

  lemma OccursAppend(s: Bytes, q: Bytes, p: nat, m: Bytes)
    ensures Occurs(s, p, m) ==> Occurs(s + q, p, m)
    ensures p + |m| <= |s| && Occurs(s + q, p, m) ==> Occurs(s, p, m)
  {
    if p + |m| <= |s| {
      assert (s + q)[p..p + |m|] == s[p..p + |m|];
    }
  }

  /** More text does not change a marker found. */
  lemma FindAppend(s: Bytes, q: Bytes, from: nat, m: Bytes)
    requires Find(s, from, m) >= 0
    ensures Find(s + q, from, m) == Find(s, from, m)
  {
    FindFirst(s, from, m);
    var k := Find(s, from, m);
    forall p: nat | p <= k ensures p < k && from <= p ==> !Occurs(s + q, p, m) {
      OccursAppend(s, q, p, m);
    }
    OccursAppend(s, q, k, m);
    FindIs(s + q, from, m, k);
  }

  lemma OccursDrop(s: Bytes, base: nat, p: nat, m: Bytes)
    requires base <= |s|
    ensures Occurs(s[base..], p, m) <==> Occurs(s, base + p, m)
  {
    if base + p + |m| <= |s| {
      assert s[base..][p..p + |m|] == s[base + p..base + p + |m|];
    }
  }

  /** Searching from a place on is searching what follows it. */
  lemma FindDrop(s: Bytes, base: nat, m: Bytes)
    requires base <= |s|
    ensures var k := Find(s[base..], 0, m); Find(s, base, m) == if k >= 0 then base + k else -1
  {
    var t := s[base..];
    FindFirst(t, 0, m);
    FindFirst(s, base, m);
    var k, l := Find(t, 0, m), Find(s, base, m);
    if k >= 0 {
      OccursDrop(s, base, k, m);
    }
    if l >= 0 {
      OccursDrop(s, base, l - base, m);
    }
    if k >= 0 && l >= 0 {
      OccursDrop(s, base, k, m);
      OccursDrop(s, base, l - base, m);
    }
  }

  // ---------------------------------------------------------------- markers begun

  /** No continuation of `s` can hold the marker at `p`. */
  ghost predicate RuledOut(s: Bytes, p: nat, m: Bytes) {
    exists j: nat :: j < |m| && p + j < |s| && s[p + j] != m[j]
  }

  /** Nowhere in `[from, upto)` can the marker still come to stand. */
  ghost predicate Clear(s: Bytes, from: nat, upto: int, m: Bytes) {
    m == [] || forall p: nat :: from <= p < upto ==> RuledOut(s, p, m)
  }

  lemma RuledOutAppend(s: Bytes, q: Bytes, p: nat, m: Bytes)
    requires RuledOut(s, p, m)
    ensures RuledOut(s + q, p, m) && !Occurs(s + q, p, m)
  {
    var j: nat :| j < |m| && p + j < |s| && s[p + j] != m[j];
    assert (s + q)[p + j] != m[j];
    assert p + |m| <= |s + q| ==> (s + q)[p..p + |m|][j] != m[j];
  }

  lemma ClearAppend(s: Bytes, q: Bytes, from: nat, upto: int, m: Bytes)
    requires Clear(s, from, upto, m)
    ensures Clear(s + q, from, upto, m)
  {
    if m != [] {
      forall p: nat | from <= p < upto ensures RuledOut(s + q, p, m) {
        RuledOutAppend(s, q, p, m);
      }
    }
  }

  /** A search may start behind a stretch that is clear. */
  lemma FindClear(s: Bytes, from: nat, upto: nat, m: Bytes)
    requires from <= upto && Clear(s, from, upto, m)
    ensures Find(s, upto, m) == Find(s, from, m)
  {
    if m != [] {
      forall p: nat | from <= p < upto ensures !Occurs(s, p, m) {
        RuledOutAppend(s, [], p, m);
        assert s + [] == s;
      }
      FindFirst(s, upto, m);
      FindFirst(s, from, m);
    }
  }

  lemma DifferenceAt(a: Bytes, b: Bytes) returns (j: nat)
    requires |a| == |b| && a != b
    ensures j < |a| && a[j] != b[j]
  {
    j := 0;
    while j < |a| && a[j] == b[j]
      invariant j <= |a| && a[..j] == b[..j]
    {
      j := j + 1;
    }
  }

  lemma NotThere(s: Bytes, p: nat, m: Bytes)
    requires p + |m| <= |s| && !Occurs(s, p, m)
    ensures RuledOut(s, p, m)
  {
    var j := DifferenceAt(s[p..p + |m|], m);
    assert s[p + j] != m[j];
  }

  /** The marker is begun by the last `k` bytes. */
  predicate Begun(s: Bytes, k: nat, m: Bytes) {
    k <= |s| && k <= |m| && s[|s| - k..] == m[..k]
  }

  /** `marker_tail_len`: the longest unfinished beginning of the marker that ends the text. */
  function TailLen(s: Bytes, m: Bytes): nat {
    if |m| <= 1 then 0 else TailFrom(s, m, if |s| < |m| - 1 then |s| else |m| - 1)
  }

  function TailFrom(s: Bytes, m: Bytes, k: nat): nat
    requires k <= |s| && k <= |m|
  {
    if k == 0 || Begun(s, k, m) then k else TailFrom(s, m, k - 1)
  }

  lemma {:induction false} TailFromIs(s: Bytes, m: Bytes, k: nat)
    requires k <= |s| && k <= |m|
    ensures TailFrom(s, m, k) <= k && Begun(s, TailFrom(s, m, k), m)
    ensures forall l :: TailFrom(s, m, k) < l <= k ==> !Begun(s, l, m)
  {
    if k != 0 && !Begun(s, k, m) {
      TailFromIs(s, m, k - 1);
    }
  }

  /** The held tail is the longest proper beginning of the marker at the end of the text. */
  lemma TailLenIs(s: Bytes, m: Bytes)
    ensures TailLen(s, m) <= |s| && Begun(s, TailLen(s, m), m)
    ensures forall l :: TailLen(s, m) < l < |m| ==> !Begun(s, l, m)
  {
    if |m| > 1 {
      TailFromIs(s, m, if |s| < |m| - 1 then |s| else |m| - 1);
    }
  }

  method MarkerTailLen(s: Bytes, m: Bytes) returns (k: nat)
    ensures k == TailLen(s, m)
  {
    if |m| <= 1 {
      return 0;
    }
    k := if |s| < |m| - 1 then |s| else |m| - 1;
    while k > 0 && s[|s| - k..] != m[..k]
      invariant k <= |s| && k < |m| && TailFrom(s, m, k) == TailLen(s, m)
    {
      k := k - 1;
    }
  }

  /** Where the text is neither the marker nor held back as its beginning, the marker is ruled out. */
  lemma BeforeTail(s: Bytes, p: nat, m: Bytes)
    requires m != [] && p < |s| - TailLen(s, m) && !Occurs(s, p, m)
    ensures RuledOut(s, p, m)
  {
    if p + |m| <= |s| {
      NotThere(s, p, m);
    } else {
      TailLenIs(s, m);
      var k := |s| - p;
      assert !Begun(s, k, m);
      var j := DifferenceAt(s[p..], m[..k]);
      assert s[p + j] != m[j];
    }
  }

  /** `str_find_n`, the portable branch, with `find_marker`'s guards: skip to the marker's first byte, then compare. */
  method FindMarker(s: Bytes, from: nat, m: Bytes) returns (k: int)
    ensures k == Find(s, from, m)
  {
    if m == [] || |s| < |m| || from > |s| - |m| {
      return -1;
    }
    var p := from;
    while p + |m| <= |s|
      invariant from <= p && Find(s, p, m) == Find(s, from, m)
      decreases |s| - p
    {
      var hit := FirstByte(s, p, |s| - |m| + 1, m[0]);
      SkipTo(s, p, hit, m);
      if hit == |s| - |m| + 1 {
        return -1;
      }
      if s[hit..hit + |m|] == m {
        return hit;
      }
      p := hit + 1;
    }
    k := -1;
  }

  /** `memchr`: the first such byte in `[from, upto)`, or `upto`. */
  method FirstByte(s: Bytes, from: nat, upto: nat, b: byte) returns (p: nat)
    requires from <= upto <= |s|
    ensures from <= p <= upto && (p < upto ==> s[p] == b)
    ensures forall q :: from <= q < p ==> s[q] != b
  {
    p := from;
    while p < upto && s[p] != b
      invariant from <= p <= upto && forall q :: from <= q < p ==> s[q] != b
    {
      p := p + 1;
    }
  }

  lemma {:induction false} SkipTo(s: Bytes, from: nat, to: nat, m: Bytes)
    requires m != [] && from <= to && to + |m| <= |s| + 1
    requires forall q :: from <= q < to ==> s[q] != m[0]
    ensures Find(s, from, m) == Find(s, to, m)
    decreases |s| - from
  {
    if from < to {
      assert s[from..from + |m|][0] == s[from];
      SkipTo(s, from + 1, to, m);
    }
  }
}
