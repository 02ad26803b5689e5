/** Special tokens: the index over their first bytes, and the search for the next one in a text. */
module Specials {
  import opened Bytes

  datatype Hit = Hit(at: nat, id: nat)

  /** The special ids are listed in increasing order, each with a text. */
  ghost predicate Listed(texts: seq<Bytes>, ids: seq<nat>) {
    && (forall i :: 0 <= i < |ids| ==> ids[i] < |texts|)
    && (forall i, j :: 0 <= i < j < |ids| ==> ids[i] < ids[j])
  }

  predicate Matches(texts: seq<Bytes>, id: nat, text: Bytes, p: nat) {
    id < |texts| && texts[id] != [] && p + |texts[id]| <= |text| && text[p..p + |texts[id]|] == texts[id]
  }

  // ---------------------------------------------------------------- the brute-force definition

  /** Of two tokens at the same place the longer one is taken, the lower id on ties. */
  predicate Beats(texts: seq<Bytes>, a: nat, b: nat)
    requires a < |texts| && b < |texts|
  {
    |texts[a]| > |texts[b]| || (|texts[a]| == |texts[b]| && a <= b)
  }

  /** The best of the listed tokens that stands at `p`; -1 if none does. */
  function BestAt(texts: seq<Bytes>, ids: seq<nat>, text: Bytes, p: nat): int {
    if ids == [] then -1
    else
      var id := ids[|ids| - 1];
      var best := BestAt(texts, ids[..|ids| - 1], text, p);
      if Matches(texts, id, text, p) && (best < 0 || best >= |texts| || Beats(texts, id, best)) then id else best
  }

  /** The leftmost place from `from` on where a special token stands, and the best one there. */
  function NextSpecial(texts: seq<Bytes>, ids: seq<nat>, text: Bytes, from: nat): Option<Hit>
    decreases |text| - from
  {
    if from >= |text| then None
    else
      var best := BestAt(texts, ids, text, from);
      if best >= 0 then Some(Hit(from, best)) else NextSpecial(texts, ids, text, from + 1)
  }

  lemma {:induction false} BestAtIs(texts: seq<Bytes>, ids: seq<nat>, text: Bytes, p: nat)
    requires Listed(texts, ids)
    ensures var b := BestAt(texts, ids, text, p);
      && (b < 0 ==> forall i :: 0 <= i < |ids| ==> !Matches(texts, ids[i], text, p))
      && (b >= 0 ==>
            && b in ids && Matches(texts, b, text, p)
            && forall i :: 0 <= i < |ids| && Matches(texts, ids[i], text, p) ==> Beats(texts, b, ids[i]))
  {
    hide Matches;
    if ids != [] {
      BestAtIs(texts, ids[..|ids| - 1], text, p);
    }
  }

  /** There is only one best token. */
  lemma BestAtOnly(texts: seq<Bytes>, ids: seq<nat>, text: Bytes, p: nat, b: nat)
    requires Listed(texts, ids) && b in ids && Matches(texts, b, text, p)
    requires forall i :: 0 <= i < |ids| && Matches(texts, ids[i], text, p) ==> Beats(texts, b, ids[i])
    ensures BestAt(texts, ids, text, p) == b
  {
    BestAtIs(texts, ids, text, p);
    hide Matches;
    var c := BestAt(texts, ids, text, p);
    var i :| 0 <= i < |ids| && ids[i] == b;
    assert c >= 0;
    var j :| 0 <= j < |ids| && ids[j] == c;
  }

  /** What is found stands there, nothing stands before it, and nothing better stands there. */
  lemma {:induction false} NextSpecialIs(texts: seq<Bytes>, ids: seq<nat>, text: Bytes, from: nat)
    requires Listed(texts, ids)
    ensures match NextSpecial(texts, ids, text, from)
      case None => forall p: nat, i :: from <= p && 0 <= i < |ids| ==> !Matches(texts, ids[i], text, p)
      case Some(h) =>
        && from <= h.at && h.id in ids && Matches(texts, h.id, text, h.at)
        && (forall p: nat, i :: from <= p < h.at && 0 <= i < |ids| ==> !Matches(texts, ids[i], text, p))
        && (forall i :: 0 <= i < |ids| && Matches(texts, ids[i], text, h.at) ==> Beats(texts, h.id, ids[i]))
    decreases |text| - from
  {
    if from < |text| {
      hide Matches, Beats;
      BestAtIs(texts, ids, text, from);
      if BestAt(texts, ids, text, from) < 0 {
        NextSpecialIs(texts, ids, text, from + 1);
      }
    }
  }

  /** A hit lies within the text and uses some of it up. */
  lemma HitWithin(texts: seq<Bytes>, ids: seq<nat>, text: Bytes, from: nat)
    requires Listed(texts, ids)
    ensures match NextSpecial(texts, ids, text, from)
      case None => true
      case Some(h) =>
        && from <= h.at < |text| && h.id < |texts| && texts[h.id] != [] && h.id in ids
        && h.at + |texts[h.id]| <= |text| && text[h.at..h.at + |texts[h.id]|] == texts[h.id]
  {
    NextSpecialIs(texts, ids, text, from);
    hide Beats;
  }

  /** Places where nothing stands can be skipped. */
  lemma {:induction false} SkipTo(texts: seq<Bytes>, ids: seq<nat>, text: Bytes, from: nat, to: nat)
    requires Listed(texts, ids) && from <= to <= |text|
    requires forall p: nat, i :: from <= p < to && 0 <= i < |ids| ==> !Matches(texts, ids[i], text, p)
    ensures NextSpecial(texts, ids, text, from) == NextSpecial(texts, ids, text, to)
    decreases |text| - from
  {
    hide Matches;
    if from < to {
      BestAtIs(texts, ids, text, from);
      SkipTo(texts, ids, text, from + 1, to);
    }
  }

  // ---------------------------------------------------------------- the index

  /** The listed tokens with a text that starts with `c`, in order. */
  function Bucket(texts: seq<Bytes>, ids: seq<nat>, c: byte): (r: seq<nat>)
    ensures forall i :: 0 <= i < |r| ==> r[i] < |texts|
  {
    if ids == [] then []
    else
      var id := ids[|ids| - 1];
      Bucket(texts, ids[..|ids| - 1], c) + if id < |texts| && texts[id] != [] && texts[id][0] == c then [id] else []
  }

  lemma {:induction false} BucketIs(texts: seq<Bytes>, ids: seq<nat>, c: byte)
    ensures forall id :: id in Bucket(texts, ids, c) <==>
      id in ids && id < |texts| && texts[id] != [] && texts[id][0] == c
  {
    if ids != [] {
      var front := ids[..|ids| - 1];
      BucketIs(texts, front, c);
      assert ids == front + [ids[|ids| - 1]];
    }
  }

  predicate AllIn(texts: seq<Bytes>, s: seq<nat>) {
    forall i :: 0 <= i < |s| ==> s[i] < |texts|
  }

  /** In the order the search tries them: longest first, lowest id first among equals. */
  ghost predicate Ranked(texts: seq<Bytes>, bucket: seq<nat>) {
    && AllIn(texts, bucket)
    && (forall i, j :: 0 <= i < j < |bucket| ==> Beats(texts, bucket[i], bucket[j]))
  }

  lemma {:induction false} BucketIncreases(texts: seq<Bytes>, ids: seq<nat>, c: byte)
    requires Listed(texts, ids)
    ensures Listed(texts, Bucket(texts, ids, c))
  {
    if ids != [] {
      var front, last := ids[..|ids| - 1], ids[|ids| - 1];
      BucketIncreases(texts, front, c);
      BucketIs(texts, front, c);
      assert forall i :: 0 <= i < |front| ==> front[i] < last;
      var b := Bucket(texts, front, c);
      forall i | 0 <= i < |b| ensures b[i] < last {
        assert b[i] in b;
      }
    }
  }

  /** Insertion as the stable sort does it: behind everything that is not shorter. */
  function Insert(texts: seq<Bytes>, sorted: seq<nat>, id: nat): seq<nat>
    requires id < |texts| && AllIn(texts, sorted)
    decreases |sorted|
  {
    if sorted == [] || |texts[sorted[|sorted| - 1]]| >= |texts[id]| then sorted + [id]
    else Insert(texts, sorted[..|sorted| - 1], id) + [sorted[|sorted| - 1]]
  }

  lemma {:induction false} InsertKeeps(texts: seq<Bytes>, sorted: seq<nat>, id: nat)
    requires Ranked(texts, sorted) && id < |texts|
    requires forall i :: 0 <= i < |sorted| ==> sorted[i] < id
    ensures Ranked(texts, Insert(texts, sorted, id))
    ensures forall x :: x in Insert(texts, sorted, id) <==> x in sorted || x == id
    ensures |Insert(texts, sorted, id)| == |sorted| + 1
    decreases |sorted|
  {
    if sorted != [] && |texts[sorted[|sorted| - 1]]| < |texts[id]| {
      var front, last := sorted[..|sorted| - 1], sorted[|sorted| - 1];
      InsertKeeps(texts, front, id);
      assert sorted == front + [last];
      var r := Insert(texts, front, id);
      forall i | 0 <= i < |r| ensures r[i] < |texts| && Beats(texts, r[i], last) {
        assert r[i] in r;
        if r[i] != id {
          var k :| 0 <= k < |front| && front[k] == r[i];
        }
      }
    } else if sorted != [] {
      var last := sorted[|sorted| - 1];
      forall i | 0 <= i < |sorted| ensures Beats(texts, sorted[i], id) {
        assert i == |sorted| - 1 || Beats(texts, sorted[i], last);
      }
    }
  }

  function Sorted(texts: seq<Bytes>, bucket: seq<nat>): (r: seq<nat>)
    requires AllIn(texts, bucket)
    ensures AllIn(texts, r) && |r| == |bucket|
  {
    if bucket == [] then []
    else
      var front := Sorted(texts, bucket[..|bucket| - 1]);
      InsertWithin(texts, front, bucket[|bucket| - 1]);
      Insert(texts, front, bucket[|bucket| - 1])
  }

  lemma {:induction false} InsertWithin(texts: seq<Bytes>, sorted: seq<nat>, id: nat)
    requires id < |texts| && AllIn(texts, sorted)
    ensures AllIn(texts, Insert(texts, sorted, id))
    ensures |Insert(texts, sorted, id)| == |sorted| + 1
    decreases |sorted|
  {
    if sorted != [] {
      InsertWithin(texts, sorted[..|sorted| - 1], id);
    }
  }

  /** Sorting a bucket keeps its members and ranks them. */
  lemma {:induction false} SortedIs(texts: seq<Bytes>, bucket: seq<nat>)
    requires Listed(texts, bucket)
    ensures Ranked(texts, Sorted(texts, bucket)) && |Sorted(texts, bucket)| == |bucket|
    ensures forall x :: x in Sorted(texts, bucket) <==> x in bucket
  {
    if bucket != [] {
      var front, last := bucket[..|bucket| - 1], bucket[|bucket| - 1];
      SortedIs(texts, front);
      var r := Sorted(texts, front);
      assert bucket == front + [last];
      forall i | 0 <= i < |r| ensures r[i] < last {
        assert r[i] in r && r[i] in front;
        var k :| 0 <= k < |front| && front[k] == r[i];
      }
      InsertKeeps(texts, r, last);
    }
  }

  /** The first match in a ranked bucket of all tokens that start alike is the best one overall. */
  lemma FirstMatchIsBest(texts: seq<Bytes>, ids: seq<nat>, text: Bytes, p: nat, bucket: seq<nat>, k: nat)
    requires Listed(texts, ids) && p < |text| && Ranked(texts, bucket) && k < |bucket|
    requires forall x :: x in bucket <==> x in ids && x < |texts| && texts[x] != [] && texts[x][0] == text[p]
    requires Matches(texts, bucket[k], text, p)
    requires forall i :: 0 <= i < k ==> !Matches(texts, bucket[i], text, p)
    ensures BestAt(texts, ids, text, p) == bucket[k]
  {
    var b := bucket[k];
    assert b in bucket;
    forall i | 0 <= i < |ids| && Matches(texts, ids[i], text, p) ensures Beats(texts, b, ids[i]) {
      StartsAlike(texts, ids[i], text, p);
      assert ids[i] in ids && ids[i] in bucket;
      var l :| 0 <= l < |bucket| && bucket[l] == ids[i];
    }
    BestAtOnly(texts, ids, text, p, b);
  }

  lemma StartsAlike(texts: seq<Bytes>, id: nat, text: Bytes, p: nat)
    requires Matches(texts, id, text, p)
    ensures p < |text| && texts[id][0] == text[p]
  {
    assert text[p..p + |texts[id]|][0] == text[p];
  }

  lemma NoMatchInBucket(texts: seq<Bytes>, ids: seq<nat>, text: Bytes, p: nat, bucket: seq<nat>)
    requires p < |text|
    requires forall x :: x in bucket <==> x in ids && x < |texts| && texts[x] != [] && texts[x][0] == text[p]
    requires forall i :: 0 <= i < |bucket| ==> !Matches(texts, bucket[i], text, p)
    ensures forall i :: 0 <= i < |ids| ==> !Matches(texts, ids[i], text, p)
  {
    forall i | 0 <= i < |ids| ensures !Matches(texts, ids[i], text, p) {
      assert ids[i] in ids;
      assert ids[i] in bucket ==> !Matches(texts, ids[i], text, p);
      if Matches(texts, ids[i], text, p) {
        StartsAlike(texts, ids[i], text, p);
      }
    }
  }
}
