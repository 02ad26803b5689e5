/** Byte strings, and the 64-bit FNV-1a hash that every index of the program keys on. */
module Bytes {

  type byte = x: int | 0 <= x < 256

  type Bytes = seq<byte>

  datatype Option<T> = None | Some(value: T)

  const FNV_OFFSET_BASIS: bv64 := 0xcbf29ce484222325

  /** One round of FNV-1a; `bv64` arithmetic wraps as the program's `uint64_t` does. */
  function FnvRound(h: bv64, b: byte): bv64 {
    (h ^ (b as bv64)) * 0x100000001b3
  }

  /** The hash state after feeding `s`, starting from `h`. */
  function FnvUpdate(h: bv64, s: Bytes): bv64
    decreases |s|
  {
    if s == [] then h else FnvUpdate(FnvRound(h, s[0]), s[1..])
  }

  function Fnv(s: Bytes): bv64 {
    FnvUpdate(FNV_OFFSET_BASIS, s)
  }

  /** The published hashes of no bytes and of "a". */
  lemma FnvVectors()
    ensures Fnv([]) == 0xcbf29ce484222325 && Fnv([0x61]) == 0xaf63dc4c8601ec8c
  {
    assert [0x61 as byte][1..] == [];
    assert FnvRound(0xcbf29ce484222325, 0x61) == 0xaf63dc4c8601ec8c;
  }

  /** The loop of `fnv1a_update`. */
  method FnvLoop(h0: bv64, s: Bytes) returns (h: bv64)
    ensures h == FnvUpdate(h0, s)
  {
    h := h0;
    for i := 0 to |s|
      invariant FnvUpdate(h, s[i..]) == FnvUpdate(h0, s)
    {
      h := FnvRound(h, s[i]);
    }
  }

  /** Hashing a concatenation is hashing its right part from the hash state of its left part. */
  lemma {:induction false} FnvConcat(h: bv64, a: Bytes, b: Bytes)
    ensures FnvUpdate(FnvUpdate(h, a), b) == FnvUpdate(h, a + b)
    decreases |a|
  {
    if a == [] {
      assert a + b == b;
    } else {
      FnvConcat(FnvRound(h, a[0]), a[1..], b);
      assert (a + b)[1..] == a[1..] + b;
    }
  }

  lemma Regroup(a: Bytes, b: Bytes, c: Bytes)
    ensures a + (b + c) == a + b + c
  {
  }

  /** Copy `s` behind the first `at` bytes of `dst`. */
  method Put(dst: array<byte>, at: nat, s: Bytes)
    requires at + |s| <= dst.Length
    modifies dst
    ensures dst[..at + |s|] == old(dst[..at]) + s
  {
    forall k | 0 <= k < |s| {
      dst[at + k] := s[k];
    }
  }

  /** All parts, one after the other. */
  function Flatten(parts: seq<Bytes>): Bytes {
    if parts == [] then [] else parts[0] + Flatten(parts[1..])
  }

  lemma {:induction false} FlattenAppend(a: seq<Bytes>, b: seq<Bytes>)
    ensures Flatten(a + b) == Flatten(a) + Flatten(b)
  {
    if a == [] {
      assert a + b == b;
    } else {
      assert (a + b)[1..] == a[1..] + b;
      FlattenAppend(a[1..], b);
    }
  }

  lemma FlattenCons(x: Bytes, b: seq<Bytes>)
    ensures Flatten([x] + b) == x + Flatten(b)
  {
    assert ([x] + b)[1..] == b;
  }

  lemma FlattenSnoc(a: seq<Bytes>, x: Bytes)
    ensures Flatten(a + [x]) == Flatten(a) + x
  {
    FlattenAppend(a, [x]);
    assert [x][1..] == [];
    assert Flatten([x]) == x;
  }

  /** Gluing two neighbouring parts together changes nothing overall. */
  lemma FlattenGlue(left: seq<Bytes>, a: Bytes, b: Bytes, right: seq<Bytes>)
    ensures Flatten(left + [a + b] + right) == Flatten(left + [a, b] + right)
  {
    FlattenAppend(left + [a + b], right);
    FlattenAppend(left + [a, b], right);
    FlattenSnoc(left, a + b);
    FlattenSnoc(left, a);
    FlattenSnoc(left + [a], b);
    assert left + [a, b] == left + [a] + [b];
    assert Flatten(left) + (a + b) == Flatten(left) + a + b;
  }
}
