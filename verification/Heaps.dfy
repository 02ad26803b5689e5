/** What the binary heaps of the program have in common, whatever they order and by what. */
module Heaps {

  predicate Parent(p: int, c: int) {
    c == 2 * p + 1 || c == 2 * p + 2
  }

  /** `t` is `s` with the elements at `i` and `j` exchanged. */
  ghost predicate IsSwap<T(!new)>(s: seq<T>, t: seq<T>, i: nat, j: nat) {
    && i < |s| == |t| && j < |s|
    && t[i] == s[j] && t[j] == s[i]
    && forall k :: 0 <= k < |s| && k != i && k != j ==> t[k] == s[k]
  }

  lemma {:induction false} LeastAtRoot<T(!new)>(s: seq<T>, n: nat, le: (T, T) -> bool, i: nat)
    requires i < n <= |s| && (forall x :: le(x, x)) && forall x, y, z :: le(x, y) && le(y, z) ==> le(x, z)
    requires forall p: nat, c: nat :: p < c < n && Parent(p, c) ==> le(s[p], s[c])
    ensures le(s[0], s[i])
    decreases i
  {
    if i > 0 {
      var p := (i - 1) / 2;
      assert Parent(p, i);
      LeastAtRoot(s, n, le, p);
    }
  }
}
