/**
 Byte-pair merging as the textbook states it: as long as some adjacent pair is ranked, merge the
 lowest-ranked one, the leftmost on ties. The heap-driven loop of the program is proved against
 this in `BpeMerge`.
 */
module BpeSpec {
  import opened Bytes

  /** A run of input bytes. `hash` caches the FNV-1a hash of `text`; a locked piece never merges. */
  datatype Piece = Piece(text: Bytes, hash: bv64, id: nat, locked: bool)

  /**
   What the merge loop asks of the vocabulary: the rank of a pair (negative for none), probed with
   the hash of the concatenation; the token id the merge of a pair of that rank produces (negative
   for none); and the id to use where there is none. The first two are arbitrary functions here.
   */
  datatype Rules = Rules(lookup: (bv64, Bytes, Bytes) -> int, mergedId: int -> int, unknown: nat)

  function IdOrUnknown(r: Rules, id: int): nat {
    if id >= 0 then id else r.unknown
  }

  function PairRank(r: Rules, a: Piece, b: Piece): int {
    if a.locked || b.locked then -1
    else r.lookup(FnvUpdate(a.hash, b.text), a.text, b.text)
  }

  function MergePair(r: Rules, a: Piece, b: Piece): Piece {
    Piece(a.text + b.text, FnvUpdate(a.hash, b.text), IdOrUnknown(r, r.mergedId(PairRank(r, a, b))), false)
  }

  function MergeAt(r: Rules, ps: seq<Piece>, i: nat): (qs: seq<Piece>)
    requires i + 1 < |ps|
    ensures |qs| == |ps| - 1
  {
    ps[..i] + [MergePair(r, ps[i], ps[i + 1])] + ps[i + 2..]
  }

  function RankAt(r: Rules, ps: seq<Piece>, i: nat): int
    requires i + 1 < |ps|
  {
    PairRank(r, ps[i], ps[i + 1])
  }

  /** The pair at `i` is ranked, no pair ranks lower, and none to its left ranks the same. */
  ghost predicate IsBest(r: Rules, ps: seq<Piece>, i: nat) {
    && i + 1 < |ps|
    && RankAt(r, ps, i) >= 0
    && forall j: nat :: j + 1 < |ps| && RankAt(r, ps, j) >= 0 ==>
         RankAt(r, ps, i) < RankAt(r, ps, j) || (RankAt(r, ps, i) == RankAt(r, ps, j) && i <= j)
  }

  /** Left-to-right scan for the pair to merge among the pairs starting at `from` or later; -1 if none. */
  function BestFrom(r: Rules, ps: seq<Piece>, from: nat): (i: int)
    ensures i == -1 || from <= i < |ps| - 1
    ensures i == -1 ==> forall j: nat :: from <= j && j + 1 < |ps| ==> RankAt(r, ps, j) < 0
    ensures i != -1 ==> RankAt(r, ps, i) >= 0
    ensures i != -1 ==> forall j: nat :: from <= j && j + 1 < |ps| && RankAt(r, ps, j) >= 0 ==>
              RankAt(r, ps, i) < RankAt(r, ps, j) || (RankAt(r, ps, i) == RankAt(r, ps, j) && i <= j)
    decreases |ps| - from
  {
    if from + 1 >= |ps| then -1
    else
      var rest := BestFrom(r, ps, from + 1);
      var here := RankAt(r, ps, from);
      if here >= 0 && (rest == -1 || here <= RankAt(r, ps, rest)) then from else rest
  }

  /** Merge the best pair until no pair is ranked. */
  function NaiveMerge(r: Rules, ps: seq<Piece>): seq<Piece>
    decreases |ps|
  {
    var i := BestFrom(r, ps, 0);
    if i == -1 then ps else NaiveMerge(r, MergeAt(r, ps, i))
  }

  /** There is at most one best pair, so the order in which merges happen is determined. */
  lemma NaiveMergeStep(r: Rules, ps: seq<Piece>, i: nat)
    requires IsBest(r, ps, i)
    ensures NaiveMerge(r, ps) == NaiveMerge(r, MergeAt(r, ps, i))
  {
    var b := BestFrom(r, ps, 0);
    assert b != -1;
    assert RankAt(r, ps, b) == RankAt(r, ps, i) && b == i;
  }

  lemma NaiveMergeDone(r: Rules, ps: seq<Piece>)
    requires forall j: nat :: j + 1 < |ps| ==> RankAt(r, ps, j) < 0
    ensures NaiveMerge(r, ps) == ps
  {
  }

  function Texts(ps: seq<Piece>): (ts: seq<Bytes>)
    ensures |ts| == |ps|
  {
    seq(|ps|, i requires 0 <= i < |ps| => ps[i].text)
  }

  function Ids(ps: seq<Piece>): (ids: seq<nat>)
    ensures |ids| == |ps|
  {
    seq(|ps|, i requires 0 <= i < |ps| => ps[i].id)
  }

  ghost predicate HashesCached(ps: seq<Piece>) {
    forall i :: 0 <= i < |ps| ==> ps[i].hash == Fnv(ps[i].text)
  }

  /** With cached hashes, the rank of a pair depends on the two byte strings alone; a locked piece has none. */
  lemma PairRankOfTexts(r: Rules, a: Piece, b: Piece)
    requires a.hash == Fnv(a.text)
    ensures !a.locked && !b.locked ==> PairRank(r, a, b) == r.lookup(Fnv(a.text + b.text), a.text, b.text)
    ensures a.locked || b.locked ==> PairRank(r, a, b) < 0
  {
    FnvConcat(FNV_OFFSET_BASIS, a.text, b.text);
  }

  lemma MergeAtKeepsText(r: Rules, ps: seq<Piece>, i: nat)
    requires i + 1 < |ps|
    ensures Flatten(Texts(MergeAt(r, ps, i))) == Flatten(Texts(ps))
  {
    var left, right := Texts(ps[..i]), Texts(ps[i + 2..]);
    FlattenGlue(left, ps[i].text, ps[i + 1].text, right);
    assert Texts(ps) == left + [ps[i].text, ps[i + 1].text] + right;
    assert Texts(MergeAt(r, ps, i)) == left + [ps[i].text + ps[i + 1].text] + right;
  }

  lemma MergeAtKeepsHashes(r: Rules, ps: seq<Piece>, i: nat)
    requires i + 1 < |ps| && HashesCached(ps)
    ensures HashesCached(MergeAt(r, ps, i))
  {
    hide FnvUpdate;
    FnvConcat(FNV_OFFSET_BASIS, ps[i].text, ps[i + 1].text);
  }

  /** Merging never adds, drops or reorders bytes, and every cached hash stays the hash of its piece. */
  lemma {:induction false} MergePreservesText(r: Rules, ps: seq<Piece>)
    ensures Flatten(Texts(NaiveMerge(r, ps))) == Flatten(Texts(ps))
    ensures HashesCached(ps) ==> HashesCached(NaiveMerge(r, ps))
    ensures |NaiveMerge(r, ps)| <= |ps|
    decreases |ps|
  {
    var i := BestFrom(r, ps, 0);
    if i != -1 {
      MergeAtKeepsText(r, ps, i);
      if HashesCached(ps) {
        MergeAtKeepsHashes(r, ps, i);
      }
      MergePreservesText(r, MergeAt(r, ps, i));
    }
  }

  /** When merging stops, no adjacent pair is ranked. */
  lemma {:induction false} MergeReachesFixpoint(r: Rules, ps: seq<Piece>)
    ensures forall j: nat :: j + 1 < |NaiveMerge(r, ps)| ==> RankAt(r, NaiveMerge(r, ps), j) < 0
    decreases |ps|
  {
    var i := BestFrom(r, ps, 0);
    if i != -1 {
      MergeReachesFixpoint(r, MergeAt(r, ps, i));
    }
  }
}
