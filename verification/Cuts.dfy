/** The sampler's prefix cuts on candidates in descending order, and the sets they stand for; reals for floats. */
module Cuts {

  /** The mass of the first `n`. */
  function Prefix(ps: seq<real>, n: nat): real
    requires n <= |ps|
  {
    if n == 0 then 0.0 else Prefix(ps, n - 1) + ps[n - 1]
  }

  /** A choice among the candidates, one flag each. */
  function Mass(ps: seq<real>, chosen: seq<bool>): real
    requires |chosen| == |ps|
    decreases |ps|
  {
    if ps == [] then 0.0
    else
      var n := |ps| - 1;
      Mass(ps[..n], chosen[..n]) + if chosen[n] then ps[n] else 0.0
  }

  function Size(chosen: seq<bool>): (n: nat)
    ensures n <= |chosen|
  {
    if chosen == [] then 0 else Size(chosen[..|chosen| - 1]) + if chosen[|chosen| - 1] then 1 else 0
  }

  predicate Descending(ps: seq<real>) {
    forall i, j :: 0 <= i < j < |ps| ==> ps[i] >= ps[j]
  }

  lemma {:induction false} PrefixOf(ps: seq<real>, m: nat, n: nat)
    requires n <= m <= |ps|
    ensures Prefix(ps[..m], n) == Prefix(ps, n)
    decreases n
  {
    if n > 0 {
      PrefixOf(ps, m, n - 1);
    }
  }

  /** Among choices of one size, the leading candidates have the most mass. */
  lemma {:induction false} LeadingIsHeaviest(ps: seq<real>, chosen: seq<bool>)
    requires Descending(ps) && |chosen| == |ps|
    ensures Mass(ps, chosen) <= Prefix(ps, Size(chosen))
    decreases |ps|
  {
    if ps != [] {
      var n := |ps| - 1;
      LeadingIsHeaviest(ps[..n], chosen[..n]);
      var c := Size(chosen[..n]);
      PrefixOf(ps, n, c);
      if chosen[n] {
        assert ps[c] >= ps[n];
      }
    }
  }

  // ---------------------------------------------------------------- probabilities

  function Probability(v: real, sum: real): real
    requires sum > 0.0
  {
    v / sum
  }

  /** The mass of the first `n`, as the sampler adds it up. */
  function Cumulative(vs: seq<real>, sum: real, n: nat): real
    requires sum > 0.0 && n <= |vs|
  {
    if n == 0 then 0.0 else Cumulative(vs, sum, n - 1) + Probability(vs[n - 1], sum)
  }

  lemma ProbabilityTimes(v: real, sum: real)
    requires sum > 0.0
    ensures Probability(v, sum) * sum == v
  {
  }

  lemma Distribute(a: real, b: real, c: real)
    ensures (a + b) * c == a * c + b * c
  {
  }

  lemma TimesOrder(a: real, b: real, c: real)
    requires c > 0.0
    ensures a > b <==> a * c > b * c
  {
    if a > b {
      assert (a - b) * c > 0.0;
    } else {
      assert (b - a) * c >= 0.0;
    }
  }

  lemma Associate(a: real, b: real, c: real)
    ensures a * (b * c) == a * b * c
  {
  }

  lemma {:induction false} CumulativeTimes(vs: seq<real>, sum: real, n: nat)
    requires sum > 0.0 && n <= |vs|
    ensures Cumulative(vs, sum, n) * sum == Prefix(vs, n)
    decreases n
  {
    hide Probability;
    if n > 0 {
      CumulativeTimes(vs, sum, n - 1);
      Distribute(Cumulative(vs, sum, n - 1), Probability(vs[n - 1], sum), sum);
      ProbabilityTimes(vs[n - 1], sum);
    }
  }

  /** A share of the probabilities is that share of the sum. */
  lemma MassAbove(vs: seq<real>, sum: real, n: nat, topP: real)
    requires sum > 0.0 && n <= |vs|
    ensures Cumulative(vs, sum, n) > topP <==> Prefix(vs, n) > topP * sum
  {
    hide Cumulative, Prefix;
    CumulativeTimes(vs, sum, n);
    TimesOrder(Cumulative(vs, sum, n), topP, sum);
  }

  lemma ValueBelow(v: real, best: real, sum: real, minP: real)
    requires sum > 0.0
    ensures Probability(v, sum) < minP * Probability(best, sum) <==> v < minP * best
  {
    ProbabilityTimes(v, sum);
    ProbabilityTimes(best, sum);
    Associate(minP, Probability(best, sum), sum);
    hide Probability;
    TimesOrder(minP * Probability(best, sum), Probability(v, sum), sum);
  }

  // ---------------------------------------------------------------- the cuts

  /** `apply_top_p`: the first prefix with more than `topP` of the sum, or everything. */
  method TopP(vs: seq<real>, topP: real, sum: real) returns (kept: nat)
    requires sum > 0.0 && vs != []
    ensures 0 < kept <= |vs|
    ensures topP >= 1.0 ==> kept == |vs|
    ensures topP < 1.0 ==>
      && (kept < |vs| ==> Prefix(vs, kept) > topP * sum)
      && (forall n :: 0 < n < kept ==> Prefix(vs, n) <= topP * sum)
  {
    if topP >= 1.0 {
      return |vs|;
    }
    hide Probability;
    var cumulative := 0.0;
    for i := 0 to |vs|
      invariant cumulative == Cumulative(vs, sum, i)
      invariant forall n :: 0 < n <= i ==> Prefix(vs, n) <= topP * sum
    {
      cumulative := cumulative + Probability(vs[i], sum);
      MassAbove(vs, sum, i + 1, topP);
      if cumulative > topP {
        return i + 1;
      }
    }
    kept := |vs|;
  }

  lemma ShareNotNegative(topP: real, sum: real)
    requires 0.0 <= topP && sum > 0.0
    ensures topP * sum >= 0.0
  {
  }

  lemma FewestAbove(vs: seq<real>, share: real, kept: nat, chosen: seq<bool>)
    requires Descending(vs) && 0 < kept <= |vs| == |chosen| && share >= 0.0
    requires forall n :: 0 < n < kept ==> Prefix(vs, n) <= share
    requires Mass(vs, chosen) > share
    ensures kept <= Size(chosen)
  {
    LeadingIsHeaviest(vs, chosen);
    assert Prefix(vs, 0) == 0.0;
  }

  /** The top-p cut is as small as any set of candidates with more than `topP` of the sum. */
  lemma TopPIsNucleus(vs: seq<real>, topP: real, sum: real, kept: nat, chosen: seq<bool>)
    requires sum > 0.0 && Descending(vs) && 0 < kept <= |vs| == |chosen|
    requires 0.0 <= topP
    requires forall n :: 0 < n < kept ==> Prefix(vs, n) <= topP * sum
    requires Mass(vs, chosen) > topP * sum
    ensures kept <= Size(chosen)
  {
    hide Mass, Prefix, Descending, Size;
    ShareNotNegative(topP, sum);
    FewestAbove(vs, topP * sum, kept, chosen);
  }

  /** `apply_min_p`: the candidates with at least `minP` times the best value, but never none. */
  method MinP(vs: seq<real>, minP: real, sum: real) returns (kept: nat)
    requires sum > 0.0 && vs != [] && Descending(vs)
    ensures 0 < kept <= |vs|
    ensures minP <= 0.0 ==> kept == |vs|
    ensures minP > 0.0 ==>
      if vs[0] >= minP * vs[0] then forall i :: 0 <= i < |vs| ==> (i < kept <==> vs[i] >= minP * vs[0])
      else kept == 1 && forall i :: 0 <= i < |vs| ==> vs[i] < minP * vs[0]
  {
    if minP <= 0.0 {
      return |vs|;
    }
    forall v ensures Probability(v, sum) < minP * Probability(vs[0], sum) <==> v < minP * vs[0] {
      ValueBelow(v, vs[0], sum, minP);
    }
    hide Probability;
    var minProb := minP * Probability(vs[0], sum);
    var n := 0;
    while n < |vs| && Probability(vs[n], sum) >= minProb
      invariant 0 <= n <= |vs| && forall i :: 0 <= i < n ==> vs[i] >= minP * vs[0]
    {
      n := n + 1;
    }
    kept := if n > 0 then n else 1;
  }
}
