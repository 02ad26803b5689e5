/** Open addressing with linear probing: the string tables of the model file, the vocabulary and the chunk cache. */
module ProbeTable {
  import opened Bytes

  datatype Slot<V> = Free | Used(key: Bytes, value: V)

  /** Where probing for a key with hash `h` starts; the capacity is a power of two, so the mask is a remainder. */
  function Home(h: bv64, cap: nat): (i: nat)
    requires cap > 0
    ensures i < cap
  {
    (h as int) % cap
  }

  /** The next slot, around the end. */
  function Next(i: nat, cap: nat): (j: nat)
    requires i < cap
    ensures j < cap
  {
    if i + 1 == cap then 0 else i + 1
  }

  /** The first slot from `i` on that is free or holds the key; -1 if `n` slots hold other keys. */
  function Search<V>(slots: seq<Slot<V>>, key: Bytes, i: nat, n: nat): (r: int)
    requires i < |slots|
    ensures -1 <= r < |slots|
    ensures r >= 0 ==> slots[r].Free? || slots[r].key == key
    decreases n
  {
    if n == 0 then -1
    else if slots[i].Free? || slots[i].key == key then i
    else Search(slots, key, Next(i, |slots|), n - 1)
  }

  function Lookup<V>(slots: seq<Slot<V>>, key: Bytes): (r: int)
    requires |slots| > 0
    ensures -1 <= r < |slots|
    ensures r >= 0 ==> slots[r].Free? || slots[r].key == key
  {
    Search(slots, key, Home(Fnv(key), |slots|), |slots|)
  }

  /** Probing for a stored key arrives at it. */
  ghost predicate Placed<V>(slots: seq<Slot<V>>) {
    |slots| > 0 && forall i :: 0 <= i < |slots| && slots[i].Used? ==> Lookup(slots, slots[i].key) == i
  }

  /** A search that ends elsewhere does not see what is put into a free slot. */
  lemma {:induction false} SearchElsewhere<V>(slots: seq<Slot<V>>, f: nat, s: Slot<V>, key: Bytes, i: nat, n: nat)
    requires i < |slots| && f < |slots| && slots[f].Free?
    requires Search(slots, key, i, n) >= 0 && Search(slots, key, i, n) != f
    ensures Search(slots[f := s], key, i, n) == Search(slots, key, i, n)
    decreases n
  {
    if n > 0 && !slots[i].Free? && slots[i].key != key {
      SearchElsewhere(slots, f, s, key, Next(i, |slots|), n - 1);
    }
  }

  lemma {:induction false} SearchHere<V>(slots: seq<Slot<V>>, f: nat, key: Bytes, value: V, i: nat, n: nat)
    requires i < |slots| && f < |slots| && slots[f].Free? && Search(slots, key, i, n) == f
    ensures Search(slots[f := Used(key, value)], key, i, n) == f
    decreases n
  {
    if n > 0 && !slots[i].Free? && slots[i].key != key {
      SearchHere(slots, f, key, value, Next(i, |slots|), n - 1);
    }
  }

  /** Putting a new key where its search ended keeps every key within reach. */
  lemma PutKeepsPlaced<V>(slots: seq<Slot<V>>, key: Bytes, value: V)
    requires Placed(slots) && Lookup(slots, key) >= 0 && slots[Lookup(slots, key)].Free?
    ensures Placed(slots[Lookup(slots, key) := Used(key, value)])
  {
    hide Home, Fnv;
    var f := Lookup(slots, key);
    var slots' := slots[f := Used(key, value)];
    forall i | 0 <= i < |slots'| && slots'[i].Used? ensures Lookup(slots', slots'[i].key) == i {
      if i == f {
        SearchHere(slots, f, key, value, Home(Fnv(key), |slots|), |slots|);
      } else {
        var k := slots[i].key;
        assert Lookup(slots, k) == i;
        SearchElsewhere(slots, f, Used(key, value), k, Home(Fnv(k), |slots|), |slots|);
      }
    }
  }

  // ---------------------------------------------------------------- room

  function UsedCount<V>(slots: seq<Slot<V>>): (n: nat)
    ensures n <= |slots|
  {
    if slots == [] then 0 else UsedCount(slots[..|slots| - 1]) + if slots[|slots| - 1].Used? then 1 else 0
  }

  lemma {:induction false} UsedCountPut<V>(slots: seq<Slot<V>>, f: nat, s: Slot<V>)
    requires f < |slots| && slots[f].Free? && s.Used?
    ensures UsedCount(slots[f := s]) == UsedCount(slots) + 1
  {
    var n := |slots| - 1;
    if f == n {
      assert slots[f := s][..n] == slots[..n];
    } else {
      assert slots[f := s][..n] == slots[..n][f := s];
      UsedCountPut(slots[..n], f, s);
    }
  }

  lemma {:induction false} AllUsed<V>(slots: seq<Slot<V>>)
    requires forall i :: 0 <= i < |slots| ==> slots[i].Used?
    ensures UsedCount(slots) == |slots|
  {
    if slots != [] {
      AllUsed(slots[..|slots| - 1]);
    }
  }

  /** A failed search has seen every slot within `n` of `i`, around the end. */
  lemma {:induction false} SeenAll<V>(slots: seq<Slot<V>>, key: Bytes, i: nat, n: nat)
    requires i < |slots| && n <= |slots| && Search(slots, key, i, n) < 0
    ensures forall j :: 0 <= j < |slots| && (i <= j < i + n || j < i + n - |slots|) ==> slots[j].Used?
    decreases n
  {
    if n > 0 {
      SeenAll(slots, key, Next(i, |slots|), n - 1);
    }
  }

  /** With a free slot left, every search ends: at the key, or at a free slot when the key is not there. */
  lemma SearchEnds<V>(slots: seq<Slot<V>>, key: Bytes)
    requires UsedCount(slots) < |slots|
    ensures Lookup(slots, key) >= 0
  {
    if Lookup(slots, key) < 0 {
      SeenAll(slots, key, Home(Fnv(key), |slots|), |slots|);
      AllUsed(slots);
    }
  }

  /** With every key placed, a search ends at the key exactly when the key is there. */
  lemma LookupFinds<V>(slots: seq<Slot<V>>, key: Bytes)
    requires Placed(slots)
    ensures (exists i :: 0 <= i < |slots| && slots[i].Used? && slots[i].key == key)
         <==> Lookup(slots, key) >= 0 && slots[Lookup(slots, key)].Used?
  {
    hide Lookup;
  }

  lemma {:induction false} EmptyUsed<V>(slots: seq<Slot<V>>)
    requires forall i :: 0 <= i < |slots| ==> slots[i].Free?
    ensures UsedCount(slots) == 0
  {
    if slots != [] {
      EmptyUsed(slots[..|slots| - 1]);
    }
  }

  // ---------------------------------------------------------------- the probe loops

  /** Probing without a bound, for tables that keep a free slot. */
  method Probe<V>(slots: array<Slot<V>>, key: Bytes, h: bv64) returns (i: nat)
    requires UsedCount(slots[..]) < slots.Length && h == Fnv(key)
    ensures i < slots.Length && i == Lookup(slots[..], key)
  {
    hide Home, Fnv;
    SearchEnds(slots[..], key);
    i := Home(h, slots.Length);
    ghost var n: nat := slots.Length;
    while slots[i].Used? && slots[i].key != key
      invariant i < slots.Length && Search(slots[..], key, i, n) == Lookup(slots[..], key)
      decreases n
    {
      i := Next(i, slots.Length);
      n := n - 1;
    }
  }

  /** Probing for two parts put together; the hash is that of the whole. */
  method ProbePair<V>(slots: array<Slot<V>>, a: Bytes, b: Bytes, h: bv64) returns (i: nat)
    requires UsedCount(slots[..]) < slots.Length && h == Fnv(a + b)
    ensures i < slots.Length && i == Lookup(slots[..], a + b)
  {
    hide Home, Fnv, IsPair;
    SearchEnds(slots[..], a + b);
    i := Home(h, slots.Length);
    ghost var n: nat := slots.Length;
    while slots[i].Used? && !IsPair(slots[i].key, a, b)
      invariant i < slots.Length && Search(slots[..], a + b, i, n) == Lookup(slots[..], a + b)
      decreases n
    {
      PairIs(slots[i].key, a, b);
      i := Next(i, slots.Length);
      n := n - 1;
    }
    if slots[i].Used? {
      PairIs(slots[i].key, a, b);
    }
  }

  predicate IsPair(key: Bytes, a: Bytes, b: Bytes) {
    |key| == |a| + |b| && key[..|a|] == a && key[|a|..] == b
  }

  lemma PairIs(key: Bytes, a: Bytes, b: Bytes)
    ensures IsPair(key, a, b) <==> key == a + b
  {
    if |key| == |a| + |b| {
      assert key == key[..|a|] + key[|a|..];
    }
  }

  /** Probing at most once around, for tables that may fill up. */
  method ProbeOnce<V>(slots: array<Slot<V>>, key: Bytes) returns (r: int)
    requires slots.Length > 0
    ensures r == Lookup(slots[..], key)
  {
    var i: nat := Home(Fnv(key), slots.Length);
    for probe := 0 to slots.Length
      invariant i < slots.Length && Search(slots[..], key, i, slots.Length - probe) == Lookup(slots[..], key)
    {
      if slots[i].Free? || slots[i].key == key {
        return i;
      }
      i := Next(i, slots.Length);
    }
    r := -1;
  }

  // ---------------------------------------------------------------- an index of keys

  /** The first place of a key in a list, by linear scan; -1 if it is not there. */
  function FirstIndex(keys: seq<Bytes>, key: Bytes): int {
    if keys == [] then -1
    else
      var front := FirstIndex(keys[..|keys| - 1], key);
      if front >= 0 then front else if keys[|keys| - 1] == key then |keys| - 1 else -1
  }

  lemma {:induction false} FirstIndexIs(keys: seq<Bytes>, key: Bytes)
    ensures var i := FirstIndex(keys, key);
      && (i >= 0 ==> i < |keys| && keys[i] == key && forall j :: 0 <= j < i ==> keys[j] != key)
      && (i < 0 ==> i == -1 && key !in keys)
  {
    if keys != [] {
      FirstIndexIs(keys[..|keys| - 1], key);
    }
  }

  /** The table holds exactly the keys of the list, each with its first place. */
  ghost predicate Indexes(slots: seq<Slot<nat>>, keys: seq<Bytes>) {
    && Placed(slots) && UsedCount(slots) <= |keys|
    && (forall i :: 0 <= i < |slots| && slots[i].Used? ==> slots[i].value == FirstIndex(keys, slots[i].key))
    && (forall key :: key in keys ==> Lookup(slots, key) >= 0 && slots[Lookup(slots, key)].Used?)
  }

  method Capacity(least: nat) returns (cap: nat)
    ensures cap >= least && cap > 0 && IsPowerOfTwo(cap)
  {
    cap := 1;
    while cap < least
      invariant cap > 0 && IsPowerOfTwo(cap)
      decreases least - cap
    {
      cap := cap * 2;
    }
  }

  predicate IsPowerOfTwo(n: nat) {
    n == 1 || (n > 1 && n % 2 == 0 && IsPowerOfTwo(n / 2))
  }

  lemma IndexMore(slots: seq<Slot<nat>>, keys: seq<Bytes>, key: Bytes)
    requires Indexes(slots, keys) && Lookup(slots, key) >= 0
    ensures var f := Lookup(slots, key);
      if slots[f].Used? then Indexes(slots, keys + [key]) else Indexes(slots[f := Used(key, |keys|)], keys + [key])
  {
    hide Lookup, Placed, UsedCount;
    var f := Lookup(slots, key);
    var more := keys + [key];
    assert more[..|keys|] == keys;
    forall k ensures FirstIndex(more, k) ==
      if FirstIndex(keys, k) >= 0 then FirstIndex(keys, k) else if k == key then |keys| else -1
    {
    }
    FirstIndexIs(keys, key);
    if slots[f].Used? {
      LookupKey(slots, key);
    } else {
      NotIn(slots, keys, key);
      var slots' := slots[f := Used(key, |keys|)];
      PutKeepsPlaced(slots, key, |keys|);
      UsedCountPut(slots, f, Used(key, |keys|));
      forall k | k in more ensures Lookup(slots', k) >= 0 && slots'[Lookup(slots', k)].Used? {
        if k == key {
          PlacedAt(slots', f);
        } else {
          assert k in keys;
          LookupKey(slots, k);
          PlacedAt(slots', Lookup(slots, k));
        }
      }
    }
  }

  lemma LookupKey<V>(slots: seq<Slot<V>>, key: Bytes)
    requires |slots| > 0 && Lookup(slots, key) >= 0 && slots[Lookup(slots, key)].Used?
    ensures slots[Lookup(slots, key)].key == key
  {
  }

  lemma PlacedAt<V>(slots: seq<Slot<V>>, i: nat)
    requires Placed(slots) && i < |slots| && slots[i].Used?
    ensures Lookup(slots, slots[i].key) == i
  {
  }

  lemma NotIn(slots: seq<Slot<nat>>, keys: seq<Bytes>, key: Bytes)
    requires Indexes(slots, keys) && Lookup(slots, key) >= 0 && slots[Lookup(slots, key)].Free?
    ensures key !in keys
  {
    hide Lookup;
  }

  /**
   `strtab_build`, and the vocabulary's index: keys go in one by one, a key already there is left alone. Every caller
   asks for twice the room.
   */
  method BuildIndex(keys: seq<Bytes>, least: nat) returns (slots: array<Slot<nat>>)
    requires least >= 2 * |keys|
    ensures fresh(slots) && Indexes(slots[..], keys)
    ensures UsedCount(slots[..]) < slots.Length
  {
    var cap := Capacity(least);
    slots := new Slot<nat>[cap](_ => Free);
    EmptyUsed(slots[..]);
    for i := 0 to |keys|
      invariant Indexes(slots[..], keys[..i])
    {
      hide Indexes, Fnv;
      ghost var was := slots[..];
      IndexRoom(was, keys[..i]);
      SearchEnds(was, keys[i]);
      var f := Probe(slots, keys[i], Fnv(keys[i]));
      IndexMore(was, keys[..i], keys[i]);
      if slots[f].Free? {
        slots[f] := Used(keys[i], i);
      }
      assert keys[..i] + [keys[i]] == keys[..i + 1];
    }
    assert keys[..|keys|] == keys;
    IndexRoom(slots[..], keys);
  }

  lemma IndexRoom(slots: seq<Slot<nat>>, keys: seq<Bytes>)
    requires Indexes(slots, keys)
    ensures Placed(slots) && UsedCount(slots) <= |keys|
  {
  }

  /** `strtab_find` and `hash_lookup`: the first occurrence, as a linear scan would find it, or -1. */
  method FindIndex(slots: array<Slot<nat>>, keys: seq<Bytes>, key: Bytes) returns (r: int)
    requires Indexes(slots[..], keys) && UsedCount(slots[..]) < slots.Length
    ensures r == FirstIndex(keys, key)
  {
    var i := Probe(slots, key, Fnv(key));
    IndexAnswers(slots[..], keys, key);
    r := if slots[i].Used? then slots[i].value else -1;
  }

  /** `hash_lookup_pair_h`: the merged text need not be put together. */
  method FindPair(slots: array<Slot<nat>>, keys: seq<Bytes>, a: Bytes, b: Bytes, h: bv64) returns (r: int)
    requires Indexes(slots[..], keys) && UsedCount(slots[..]) < slots.Length && h == FnvUpdate(Fnv(a), b)
    ensures r == FirstIndex(keys, a + b)
  {
    FnvConcat(FNV_OFFSET_BASIS, a, b);
    var i := ProbePair(slots, a, b, h);
    IndexAnswers(slots[..], keys, a + b);
    r := if slots[i].Used? then slots[i].value else -1;
  }

  lemma IndexAnswers(slots: seq<Slot<nat>>, keys: seq<Bytes>, key: Bytes)
    requires Indexes(slots, keys) && Lookup(slots, key) >= 0
    ensures var s := slots[Lookup(slots, key)]; FirstIndex(keys, key) == if s.Used? then s.value else -1
  {
    FirstIndexIs(keys, key);
  }
}
