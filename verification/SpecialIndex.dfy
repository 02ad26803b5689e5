/** The first-byte index of the special tokens, built by a counting sort, and the search over it. */
module SpecialIndex {
  import opened Bytes
  import opened Specials

  // ---------------------------------------------------------------- sorting one bucket in place

  /** The array holds `s` from `start` on. */
  ghost predicate Stands(a: array<nat>, start: nat, s: seq<nat>)
    reads a
  {
    start + |s| <= a.Length && a[start..start + |s|] == s
  }

  /** The `i` tokens from `start` on are sorted; the one behind them is moved to its place among them. */
  method InsertInPlace(texts: seq<Bytes>, a: array<nat>, start: nat, i: nat, ghost sorted: seq<nat>)
    requires Stands(a, start, sorted) && |sorted| == i && AllIn(texts, sorted)
    requires start + i < a.Length && a[start + i] < |texts|
    modifies a
    ensures Stands(a, start, Insert(texts, sorted, old(a[start + i])))
    ensures forall k :: 0 <= k < start || start + i < k < a.Length ==> a[k] == old(a[k])
  {
    hide Insert;
    ghost var was := a[..];
    StandsIs(a, start, sorted);
    var key := a[start + i];
    var j: nat := i;
    while j > 0 && |texts[a[start + j - 1]]| < |texts[key]|
      invariant j <= i
      invariant forall k :: 0 <= k < start + j || start + i < k < a.Length ==> a[k] == was[k]
      invariant forall k {:trigger a[k]} :: start + j < k <= start + i ==> a[k] == was[k - 1]
      invariant forall k :: j <= k < i ==> |texts[sorted[k]]| < |texts[key]|
    {
      assert a[start + j - 1] == was[start + j - 1] == sorted[j - 1];
      a[start + j] := a[start + j - 1];
      j := j - 1;
    }
    a[start + j] := key;
    ghost var all := a[..];
    assert was[start..start + i] == sorted;
    ShiftedUp(was, all, start, i, j);
    ghost var now := all[start..start + i + 1];
    InsertedAt(texts, sorted, key, j, now);
    assert a[start..start + |now|] == now;
  }

  /** What was between `j` and `i` stands one place further. */
  lemma ShiftedUp(was: seq<nat>, all: seq<nat>, start: nat, i: nat, j: nat)
    requires |was| == |all| && j <= i && start + i < |all|
    requires forall k :: start <= k < start + j ==> all[k] == was[k]
    requires forall k {:trigger all[k]} :: start + j < k <= start + i ==> all[k] == was[k - 1]
    ensures var sorted, now := was[start..start + i], all[start..start + i + 1];
      (forall k :: 0 <= k < j ==> now[k] == sorted[k]) && (forall k :: j < k <= i ==> now[k] == sorted[k - 1])
  {
  }

  /** Where insertion ends up. */
  lemma {:induction false} InsertIs(texts: seq<Bytes>, sorted: seq<nat>, key: nat, j: nat)
    requires AllIn(texts, sorted) && key < |texts| && j <= |sorted|
    requires j > 0 ==> |texts[sorted[j - 1]]| >= |texts[key]|
    requires forall k :: j <= k < |sorted| ==> |texts[sorted[k]]| < |texts[key]|
    ensures Insert(texts, sorted, key) == sorted[..j] + [key] + sorted[j..]
    decreases |sorted|
  {
    if j < |sorted| {
      var front, last := sorted[..|sorted| - 1], sorted[|sorted| - 1];
      InsertIs(texts, front, key, j);
      assert sorted[j..] == front[j..] + [last] && front[..j] == sorted[..j];
    } else {
      assert sorted[..j] == sorted;
    }
  }

  /** An array that shifted the shorter tokens by one and put the new one before them. */
  lemma InsertedAt(texts: seq<Bytes>, sorted: seq<nat>, key: nat, j: nat, now: seq<nat>)
    requires AllIn(texts, sorted) && key < |texts| && j <= |sorted|
    requires j > 0 ==> |texts[sorted[j - 1]]| >= |texts[key]|
    requires forall k :: j <= k < |sorted| ==> |texts[sorted[k]]| < |texts[key]|
    requires |now| == |sorted| + 1 && now[j] == key
    requires forall k :: 0 <= k < j ==> now[k] == sorted[k]
    requires forall k :: j < k < |now| ==> now[k] == sorted[k - 1]
    ensures now == Insert(texts, sorted, key)
  {
    InsertIs(texts, sorted, key, j);
    assert now[..j] == sorted[..j] && now[j + 1..] == sorted[j..];
    assert now == now[..j] + [now[j]] + now[j + 1..];
  }

  method SortBucket(texts: seq<Bytes>, a: array<nat>, start: nat, end: nat)
    requires start <= end <= a.Length && AllIn(texts, a[start..end])
    modifies a
    ensures a[start..end] == old(Sorted(texts, a[start..end]))
    ensures forall k :: 0 <= k < start || end <= k < a.Length ==> a[k] == old(a[k])
  {
    ghost var bucket := a[start..end];
    SortedOne(texts, bucket);
    if end - start <= 1 {
      return;
    }
    InsertRest(texts, a, start, end - start, bucket);
    StandsIs(a, start, Sorted(texts, bucket));
  }

  /** Every token from the second on is inserted among those before it. */
  method InsertRest(texts: seq<Bytes>, a: array<nat>, start: nat, n: nat, ghost bucket: seq<nat>)
    requires n == |bucket| > 1 && AllIn(texts, bucket) && Stands(a, start, bucket)
    modifies a
    ensures Stands(a, start, Sorted(texts, bucket))
    ensures forall k :: 0 <= k < start || start + n <= k < a.Length ==> a[k] == old(a[k])
  {
    StandsIs(a, start, bucket);
    SortedOne(texts, bucket);
    assert forall k :: 0 <= k < n ==> a[start + k] == bucket[k];
    assert Stands(a, start, bucket[..1]);
    hide AllIn, Sorted, Insert, Stands;
    for i := 1 to n
      invariant AllIn(texts, bucket[..i]) && Stands(a, start, Sorted(texts, bucket[..i]))
      invariant forall k :: 0 <= k < start || start + i <= k < a.Length ==> a[k] == old(a[k])
    {
      assert a[start + i] == bucket[i];
      AllInPart(texts, bucket, i + 1);
      SortedMore(texts, bucket, i);
      InsertInPlace(texts, a, start, i, Sorted(texts, bucket[..i]));
    }
    assert bucket[..n] == bucket;
  }

  lemma StandsIs(a: array<nat>, start: nat, s: seq<nat>)
    requires Stands(a, start, s)
    ensures start + |s| <= a.Length && a[start..start + |s|] == s
  {
  }

  lemma AllInPart(texts: seq<Bytes>, s: seq<nat>, i: nat)
    requires AllIn(texts, s) && i <= |s|
    ensures AllIn(texts, s[..i])
  {
  }

  lemma SortedOne(texts: seq<Bytes>, bucket: seq<nat>)
    requires AllIn(texts, bucket)
    ensures |bucket| <= 1 ==> Sorted(texts, bucket) == bucket
    ensures |bucket| > 1 ==> Sorted(texts, bucket[..1]) == bucket[..1]
  {
    if |bucket| > 0 {
      var one := bucket[..1];
      assert one == [bucket[0]] && one[..0] == [];
      assert Sorted(texts, one) == Insert(texts, [], bucket[0]) == one;
      assert |bucket| == 1 ==> bucket == one;
    }
  }

  lemma SortedMore(texts: seq<Bytes>, bucket: seq<nat>, i: nat)
    requires AllIn(texts, bucket) && i < |bucket|
    ensures AllIn(texts, Sorted(texts, bucket[..i])) && bucket[i] < |texts|
    ensures Sorted(texts, bucket[..i + 1]) == Insert(texts, Sorted(texts, bucket[..i]), bucket[i])
  {
    hide Insert;
    assert bucket[..i + 1][..i] == bucket[..i];
  }

  // ---------------------------------------------------------------- the counting sort

  lemma BucketStep(texts: seq<Bytes>, ids: seq<nat>, i: nat, c: byte)
    requires i < |ids| && ids[i] < |texts|
    ensures Bucket(texts, ids[..i + 1], c) == Bucket(texts, ids[..i], c) +
      if texts[ids[i]] != [] && texts[ids[i]][0] == c then [ids[i]] else []
  {
    assert ids[..i + 1][..i] == ids[..i];
  }

  lemma {:induction false} BucketGrows(texts: seq<Bytes>, ids: seq<nat>, i: nat, c: byte)
    requires Listed(texts, ids) && i <= |ids|
    ensures |Bucket(texts, ids[..i], c)| <= |Bucket(texts, ids, c)|
    decreases |ids| - i
  {
    if i < |ids| {
      BucketStep(texts, ids, i, c);
      BucketGrows(texts, ids, i + 1, c);
    } else {
      assert ids[..i] == ids;
    }
  }

  /** Where each first byte's tokens go, one range behind the other. */
  ghost predicate Ranges(texts: seq<Bytes>, ids: seq<nat>, off: seq<nat>) {
    && |off| == 257 && off[0] == 0
    && forall c: byte :: off[c + 1] == off[c] + |Bucket(texts, ids, c)|
  }

  lemma {:induction false} RangesApart(texts: seq<Bytes>, ids: seq<nat>, off: seq<nat>, c: nat, d: nat)
    requires Ranges(texts, ids, off) && c <= d <= 256
    ensures off[c] <= off[d]
    decreases d - c
  {
    if c < d {
      var b: byte := c;
      assert off[b + 1] == off[b] + |Bucket(texts, ids, b)|;
      RangesApart(texts, ids, off, c + 1, d);
    }
  }

  method Count(texts: seq<Bytes>, ids: seq<nat>) returns (counts: array<nat>, present: array<bool>)
    requires Listed(texts, ids)
    ensures fresh(counts) && counts.Length == 256 && fresh(present) && present.Length == 256
    ensures forall c: byte :: counts[c] == |Bucket(texts, ids, c)| && present[c] == (Bucket(texts, ids, c) != [])
  {
    counts := new nat[256](_ => 0);
    present := new bool[256](_ => false);
    for i := 0 to |ids|
      invariant forall c: byte :: counts[c] == |Bucket(texts, ids[..i], c)|
      invariant forall c: byte :: present[c] == (Bucket(texts, ids[..i], c) != [])
    {
      forall c: byte {
        BucketStep(texts, ids, i, c);
      }
      var text := texts[ids[i]];
      if |text| > 0 {
        counts[text[0]] := counts[text[0]] + 1;
        present[text[0]] := true;
      }
    }
    assert ids[..|ids|] == ids;
  }

  method Offsets(texts: seq<Bytes>, ids: seq<nat>, counts: array<nat>) returns (off: array<nat>)
    requires counts.Length == 256 && forall c: byte :: counts[c] == |Bucket(texts, ids, c)|
    ensures fresh(off) && Ranges(texts, ids, off[..])
  {
    off := new nat[257];
    off[0] := 0;
    for b := 0 to 256
      invariant off[0] == 0 && forall c: byte :: c < b ==> off[c + 1] == off[c] + |Bucket(texts, ids, c)|
    {
      var c: byte := b;
      assert counts[c] == |Bucket(texts, ids, c)|;
      off[b + 1] := off[b] + counts[b];
    }
  }

  /** Of the tokens of one first byte, those among `ids` are in place, up to the cursor. */
  ghost predicate Filled(texts: seq<Bytes>, ids: seq<nat>, off: seq<nat>, cursor: seq<nat>, table: seq<nat>, c: byte)
    requires |off| == 257 && |cursor| == 256
  {
    && off[c] <= cursor[c] <= off[c + 1] <= |table|
    && table[off[c]..cursor[c]] == Bucket(texts, ids, c)
  }

  lemma FillsFirst(texts: seq<Bytes>, all: seq<nat>, i: nat, off: seq<nat>, cursor: seq<nat>, table: seq<nat>, c: byte)
    requires Listed(texts, all) && Ranges(texts, all, off) && |cursor| == 256 && i < |all|
    requires texts[all[i]] != [] && texts[all[i]][0] == c && Filled(texts, all[..i], off, cursor, table, c)
    ensures cursor[c] < off[c + 1]
    ensures Filled(texts, all[..i + 1], off, cursor[c := cursor[c] + 1], table[cursor[c] := all[i]], c)
  {
    BucketStep(texts, all, i, c);
    BucketGrows(texts, all, i + 1, c);
    assert off[c + 1] == off[c] + |Bucket(texts, all, c)|;
    var table' := table[cursor[c] := all[i]];
    assert table'[off[c]..cursor[c] + 1] == table[off[c]..cursor[c]] + [all[i]];
  }

  lemma LeavesOthers(texts: seq<Bytes>, all: seq<nat>, i: nat, off: seq<nat>, cursor: seq<nat>, table: seq<nat>,
                     b: byte, c: byte)
    requires Listed(texts, all) && Ranges(texts, all, off) && |cursor| == 256 && i < |all|
    requires texts[all[i]] != [] && texts[all[i]][0] == b && b != c && Filled(texts, all[..i], off, cursor, table, c)
    requires off[b] <= cursor[b] < off[b + 1] <= |table|
    ensures Filled(texts, all[..i + 1], off, cursor[b := cursor[b] + 1], table[cursor[b] := all[i]], c)
  {
    BucketStep(texts, all, i, c);
    if c < b {
      RangesApart(texts, all, off, c + 1, b);
    } else {
      RangesApart(texts, all, off, b + 1, c);
    }
    var table' := table[cursor[b] := all[i]];
    assert table'[off[c]..cursor[c]] == table[off[c]..cursor[c]];
  }

  /** Every token goes behind the ones of its range already there. */
  method Distribute(texts: seq<Bytes>, ids: seq<nat>, off: array<nat>) returns (table: array<nat>)
    requires Listed(texts, ids) && Ranges(texts, ids, off[..])
    ensures fresh(table) && table.Length == off[256]
    ensures forall c: byte :: InRange(table[..], off[..], c) == Bucket(texts, ids, c)
  {
    table := new nat[off[256]];
    var cursor := new nat[256];
    for b := 0 to 256
      invariant forall c :: 0 <= c < b ==> cursor[c] == off[c]
    {
      cursor[b] := off[b];
    }
    forall c: byte ensures Filled(texts, ids[..0], off[..], cursor[..], table[..], c) {
      RangesApart(texts, ids, off[..], c, c + 1);
      RangesApart(texts, ids, off[..], c + 1, 256);
    }
    for i := 0 to |ids|
      invariant forall c: byte :: Filled(texts, ids[..i], off[..], cursor[..], table[..], c)
    {
      hide Filled;
      var text := texts[ids[i]];
      ghost var cs, bs := cursor[..], table[..];
      if |text| > 0 {
        var first := text[0];
        FillsFirst(texts, ids, i, off[..], cs, bs, first);
        FilledAt(texts, ids[..i], off[..], cs, bs, first);
        ghost var more, cs', bs' := ids[..i + 1], cs[first := cs[first] + 1], bs[cs[first] := ids[i]];
        forall c: byte ensures Filled(texts, more, off[..], cs', bs', c) {
          if c != first {
            LeavesOthers(texts, ids, i, off[..], cs, bs, first, c);
          }
        }
        table[cursor[first]] := ids[i];
        cursor[first] := cursor[first] + 1;
        assert table[..] == bs' && cursor[..] == cs';
      } else {
        ghost var more := ids[..i + 1];
        forall c: byte ensures Filled(texts, more, off[..], cs, bs, c) {
          KeepsAll(texts, ids, i, off[..], cs, bs, c);
        }
      }
    }
    assert ids[..|ids|] == ids;
    forall c: byte ensures InRange(table[..], off[..], c) == Bucket(texts, ids, c) {
      FilledWhole(texts, ids, off[..], cursor[..], table[..], c);
    }
  }

  lemma FilledAt(texts: seq<Bytes>, ids: seq<nat>, off: seq<nat>, cursor: seq<nat>, table: seq<nat>, c: byte)
    requires |off| == 257 && |cursor| == 256 && Filled(texts, ids, off, cursor, table, c)
    ensures off[c] <= cursor[c] <= off[c + 1] <= |table|
  {
  }

  lemma KeepsAll(texts: seq<Bytes>, all: seq<nat>, i: nat, off: seq<nat>, cursor: seq<nat>, table: seq<nat>, c: byte)
    requires i < |all| && all[i] < |texts| && texts[all[i]] == []
    requires |off| == 257 && |cursor| == 256 && Filled(texts, all[..i], off, cursor, table, c)
    ensures Filled(texts, all[..i + 1], off, cursor, table, c)
  {
    BucketStep(texts, all, i, c);
  }

  /** The range of one first byte; empty if the offsets make no sense. */
  function InRange(table: seq<nat>, off: seq<nat>, c: byte): seq<nat>
    requires |off| == 257
  {
    if off[c] <= off[c + 1] <= |table| then table[off[c]..off[c + 1]] else []
  }

  lemma FilledWhole(texts: seq<Bytes>, ids: seq<nat>, off: seq<nat>, cursor: seq<nat>, table: seq<nat>, c: byte)
    requires Ranges(texts, ids, off) && |cursor| == 256 && Filled(texts, ids, off, cursor, table, c)
    ensures off[c] <= off[c + 1] <= |table| && InRange(table, off, c) == Bucket(texts, ids, c)
  {
    assert off[c + 1] == off[c] + |Bucket(texts, ids, c)|;
  }

  method SortRange(texts: seq<Bytes>, ids: seq<nat>, off: array<nat>, table: array<nat>, b: byte)
    requires Ranges(texts, ids, off[..]) && table.Length == off[256] && off != table
    requires InRange(table[..], off[..], b) == Bucket(texts, ids, b)
    modifies table
    ensures InRange(table[..], off[..], b) == Sorted(texts, Bucket(texts, ids, b))
    ensures forall c: byte :: c != b ==> InRange(table[..], off[..], c) == old(InRange(table[..], off[..], c))
  {
    hide Sorted, Bucket;
    RangesApart(texts, ids, off[..], b, b + 1);
    RangesApart(texts, ids, off[..], b + 1, 256);
    ghost var was := table[..];
    SortBucket(texts, table, off[b], off[b + 1]);
    forall c: byte | c != b ensures InRange(table[..], off[..], c) == InRange(was, off[..], c) {
      RangesApart(texts, ids, off[..], c, c + 1);
      RangesApart(texts, ids, off[..], c + 1, 256);
      if c < b {
        RangesApart(texts, ids, off[..], c + 1, b);
      } else {
        RangesApart(texts, ids, off[..], b + 1, c);
      }
      assert table[off[c]..off[c + 1]] == was[off[c]..off[c + 1]];
    }
  }

  method SortAll(texts: seq<Bytes>, ids: seq<nat>, off: array<nat>, table: array<nat>)
    requires Ranges(texts, ids, off[..]) && table.Length == off[256] && off != table
    requires forall c: byte :: InRange(table[..], off[..], c) == Bucket(texts, ids, c)
    modifies table
    ensures forall c: byte :: InRange(table[..], off[..], c) == Sorted(texts, Bucket(texts, ids, c))
  {
    hide Sorted, Bucket, InRange;
    for b := 0 to 256
      invariant forall c: byte :: c < b ==> InRange(table[..], off[..], c) == Sorted(texts, Bucket(texts, ids, c))
      invariant forall c: byte :: c >= b ==> InRange(table[..], off[..], c) == Bucket(texts, ids, c)
    {
      SortRange(texts, ids, off, table, b);
    }
  }

  // ---------------------------------------------------------------- the index and the search

  class Index {
    const texts: seq<Bytes>
    const ids: seq<nat>
    const present: array<bool>
    const off: array<nat>
    const table: array<nat>
    var firstBytes: seq<byte>

    ghost predicate Valid()
      reads this, present, off, table
    {
      && Listed(texts, ids) && present.Length == 256
      && Ranges(texts, ids, off[..]) && table.Length == off[256]
      && (forall c: byte :: InRange(table[..], off[..], c) == Sorted(texts, Bucket(texts, ids, c)))
      && (forall c: byte :: present[c] == (Bucket(texts, ids, c) != []))
      && (forall c: byte :: c in firstBytes <==> Bucket(texts, ids, c) != [])
    }

    constructor (texts: seq<Bytes>, ids: seq<nat>)
      requires Listed(texts, ids)
      ensures Valid() && this.texts == texts && this.ids == ids
    {
      hide Sorted, Bucket, InRange, Ranges, Listed;
      var counts, there := Count(texts, ids);
      var firsts := FirstBytes(texts, ids, counts);
      var offsets := Offsets(texts, ids, counts);
      assert offsets.Length == 257 by {
        assert |offsets[..]| == 257 by {
          RangesSize(texts, ids, offsets[..]);
        }
      }
      var filled := Distribute(texts, ids, offsets);
      SortAll(texts, ids, offsets, filled);
      this.texts, this.ids, present, off, table, firstBytes := texts, ids, there, offsets, filled, firsts;
    }

    /** The places of the first bytes: `memchr` for each of them, the nearest hit wins. */
    method NearestFirst(text: Bytes, p: nat) returns (next: nat)
      requires Valid() && p <= |text|
      ensures p <= next <= |text| && (next < |text| ==> text[next] in firstBytes)
      ensures forall q :: p <= q < next ==> text[q] !in firstBytes
    {
      hide Valid;
      next := |text|;
      for i := 0 to |firstBytes|
        invariant p <= next <= |text| && (next < |text| ==> text[next] in firstBytes)
        invariant forall q :: p <= q < next ==> text[q] !in firstBytes[..i]
      {
        assert firstBytes[..i + 1] == firstBytes[..i] + [firstBytes[i]];
        var at := FindByte(text, p, firstBytes[i]);
        if at < next {
          next := at;
        }
      }
      assert firstBytes[..|firstBytes|] == firstBytes;
    }

    method FindByte(text: Bytes, p: nat, b: byte) returns (at: nat)
      requires p <= |text|
      ensures p <= at <= |text| && (at < |text| ==> text[at] == b) && forall q :: p <= q < at ==> text[q] != b
    {
      at := p;
      while at < |text| && text[at] != b
        invariant p <= at <= |text| && forall q :: p <= q < at ==> text[q] != b
      {
        at := at + 1;
      }
    }

    lemma NothingBetween(text: Bytes, p: nat, next: nat)
      requires Valid() && p <= next <= |text| && forall q :: p <= q < next ==> text[q] !in firstBytes
      ensures NextSpecial(texts, ids, text, p) == NextSpecial(texts, ids, text, next)
    {
      forall q: nat, i | p <= q < next && 0 <= i < |ids| ensures !Matches(texts, ids[i], text, q) {
        BucketIs(texts, ids, text[q]);
        assert ids[i] !in Bucket(texts, ids, text[q]);
        if Matches(texts, ids[i], text, q) {
          StartsAlike(texts, ids[i], text, q);
        }
      }
      SkipTo(texts, ids, text, p, next);
    }

    /** The tokens that start with the byte at `p`, in the order they are tried. */
    lemma Candidates(text: Bytes, p: nat) returns (bucket: seq<nat>)
      requires Valid() && p < |text|
      ensures off[text[p]] <= off[text[p] + 1] <= table.Length && bucket == table[off[text[p]]..off[text[p] + 1]]
      ensures off.Length == 257 && Listed(texts, ids) && Ranked(texts, bucket)
      ensures forall x :: x in bucket <==> x in ids && x < |texts| && texts[x] != [] && texts[x][0] == text[p]
    {
      var c: nat := text[p];
      RangesApart(texts, ids, off[..], c, c + 1);
      RangesApart(texts, ids, off[..], c + 1, 256);
      bucket := InRange(table[..], off[..], c);
      BucketIncreases(texts, ids, c);
      SortedIs(texts, Bucket(texts, ids, c));
      BucketIs(texts, ids, c);
    }

    /** The first candidate that stands at `p`, or -1. */
    method TryAt(text: Bytes, p: nat) returns (id: int)
      requires Valid() && p < |text|
      ensures id == BestAt(texts, ids, text, p)
    {
      hide Valid, Ranked, Listed, BestAt, Matches;
      var c: nat := text[p];
      ghost var bucket := Candidates(text, p);
      var b0, b1 := off[c], off[c + 1];
      for bi := b0 to b1
        invariant forall i :: 0 <= i < bi - b0 ==> !Matches(texts, bucket[i], text, p)
      {
        var sid := table[bi];
        assert sid == bucket[bi - b0];
        assert sid in bucket;
        var n := |texts[sid]|;
        MatchesHere(texts, sid, text, p);
        if p + n <= |text| && text[p..p + n] == texts[sid] {
          FirstMatchIsBest(texts, ids, text, p, bucket, bi - b0);
          return sid;
        }
      }
      NoMatchInBucket(texts, ids, text, p, bucket);
      BestAtIs(texts, ids, text, p);
      NoBest(text, p);
      id := -1;
    }

    lemma NoBest(text: Bytes, p: nat)
      requires Listed(texts, ids) && forall i :: 0 <= i < |ids| ==> !Matches(texts, ids[i], text, p)
      ensures BestAt(texts, ids, text, p) == -1
    {
      NoBestOf(texts, ids, text, p);
    }

    /** `find_next_special`. */
    method FindNext(text: Bytes, from: nat) returns (hit: Option<Hit>)
      requires Valid()
      ensures hit == NextSpecial(texts, ids, text, from)
    {
      hide BestAt, Listed, Ranked;
      var p := from;
      while p < |text|
        invariant from <= p && NextSpecial(texts, ids, text, p) == NextSpecial(texts, ids, text, from)
        decreases |text| - p
      {
        var c := text[p];
        if !present[c] {
          var next := NearestFirst(text, p);
          NothingBetween(text, p, next);
          if next >= |text| {
            return None;
          }
          p := next;
          continue;
        }
        var id := TryAt(text, p);
        if id >= 0 {
          return Some(Hit(p, id));
        }
        p := p + 1;
      }
      hit := None;
    }
  }

  lemma MatchesHere(texts: seq<Bytes>, id: nat, text: Bytes, p: nat)
    requires id < |texts| && texts[id] != []
    ensures Matches(texts, id, text, p) <==> p + |texts[id]| <= |text| && text[p..p + |texts[id]|] == texts[id]
  {
  }

  lemma {:induction false} NoBestOf(texts: seq<Bytes>, ids: seq<nat>, text: Bytes, p: nat)
    requires forall i :: 0 <= i < |ids| ==> !Matches(texts, ids[i], text, p)
    ensures BestAt(texts, ids, text, p) == -1
  {
    if ids != [] {
      NoBestOf(texts, ids[..|ids| - 1], text, p);
    }
  }

  lemma RangesSize(texts: seq<Bytes>, ids: seq<nat>, off: seq<nat>)
    requires Ranges(texts, ids, off)
    ensures |off| == 257
  {
  }

  method FirstBytes(texts: seq<Bytes>, ids: seq<nat>, counts: array<nat>) returns (firsts: seq<byte>)
    requires counts.Length == 256 && forall c: byte :: counts[c] == |Bucket(texts, ids, c)|
    ensures forall c: byte :: c in firsts <==> Bucket(texts, ids, c) != []
  {
    firsts := [];
    for b := 0 to 256
      invariant forall c: byte :: c in firsts <==> c < b && Bucket(texts, ids, c) != []
    {
      var c: byte := b;
      assert counts[c] == |Bucket(texts, ids, c)|;
      if counts[b] > 0 {
        firsts := firsts + [c];
      }
    }
  }
}
