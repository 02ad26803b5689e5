/** The CRC of PNG chunks: by table, as the writer does it, and bit by bit, as section 3.4 of RFC 2083 defines it. */
module Crc {
  import opened Bytes

  const POLYNOMIAL: bv32 := 0xedb88320

  // Named so that the steps of a proof can treat the bit operations as closed.

  function Xor(x: bv32, y: bv32): bv32 { x ^ y }

  function Low(x: bv32): bv32 { x & 1 }

  function Half(x: bv32): bv32 { x >> 1 }

  /** One bit leaves the register. */
  function Round(c: bv32): bv32 {
    if Low(c) == 1 then Xor(POLYNOMIAL, Half(c)) else Half(c)
  }

  function Rounds(c: bv32, k: nat): bv32
    decreases k
  {
    if k == 0 then c else Rounds(Round(c), k - 1)
  }

  // ---------------------------------------------------------------- the definition

  /** The lowest `k` bits of `b` enter the register one by one, the least significant first. */
  function ShiftIn(c: bv32, b: bv32, k: nat): bv32
    decreases k
  {
    if k == 0 then c else ShiftIn(Round(Xor(c, Low(b))), Half(b), k - 1)
  }

  function Bits(b: byte): bv32 {
    (b as bv8) as bv32
  }

  function BitUpdate(c: bv32, s: Bytes): bv32
    decreases |s|
  {
    if s == [] then c else BitUpdate(ShiftIn(c, Bits(s[0]), 8), s[1..])
  }

  /** The register starts with all bits set and is complemented at the end. */
  function Crc32(s: Bytes): bv32 {
    Xor(BitUpdate(0xffffffff, s), 0xffffffff)
  }

  lemma NextByte(c: bv32, b: byte, rest: Bytes, c': bv32)
    requires ShiftIn(c, Bits(b), 8) == c'
    ensures BitUpdate(c, [b] + rest) == BitUpdate(c', rest)
  {
    hide ShiftIn;
    assert ([b] + rest)[1..] == rest;
  }

  lemma FirstTwoBytes()
    ensures ShiftIn(0xffffffff, 0x49, 8) == 0x22fde946 && ShiftIn(0x22fde946, 0x45, 8) == 0x992bac53
  {
  }

  lemma LastTwoBytes()
    ensures ShiftIn(0x992bac53, 0x4e, 8) == 0x639f4775 && ShiftIn(0x639f4775, 0x44, 8) == 0x51bd9f7d
  {
  }

  /** The checksum every PNG file ends with. */
  lemma LastChecksum()
    ensures Crc32([0x49, 0x45, 0x4e, 0x44]) == 0xae426082
  {
    FirstTwoBytes();
    LastTwoBytes();
    hide ShiftIn;
    NextByte(0xffffffff, 0x49, [0x45, 0x4e, 0x44], 0x22fde946);
    NextByte(0x22fde946, 0x45, [0x4e, 0x44], 0x992bac53);
    NextByte(0x992bac53, 0x4e, [0x44], 0x639f4775);
    NextByte(0x639f4775, 0x44, [], 0x51bd9f7d);
    assert [0x49] + [0x45, 0x4e, 0x44] == [0x49, 0x45, 0x4e, 0x44];
    assert [0x45] + [0x4e, 0x44] == [0x45, 0x4e, 0x44];
    assert [0x4e] + [0x44] == [0x4e, 0x44] && [0x44] + [] == [0x44];
  }

  lemma {:induction false} BitUpdateConcat(c: bv32, a: Bytes, b: Bytes)
    ensures BitUpdate(BitUpdate(c, a), b) == BitUpdate(c, a + b)
    decreases |a|
  {
    hide ShiftIn, Bits;
    if a == [] {
      assert a + b == b;
    } else {
      BitUpdateConcat(ShiftIn(c, Bits(a[0]), 8), a[1..], b);
      assert (a + b)[1..] == a[1..] + b;
    }
  }

  // ---------------------------------------------------------------- bit arithmetic

  lemma LowIs(x: bv32)
    ensures Low(x) == 0 || Low(x) == 1
  {
  }

  lemma Commute(x: bv32, y: bv32)
    ensures Xor(x, y) == Xor(y, x)
  {
  }

  lemma OddOdd(x: bv32, y: bv32)
    requires Low(x) == 1 && Low(y) == 1
    ensures Low(Xor(x, y)) != 1
    ensures Half(Xor(x, y)) == Xor(Xor(POLYNOMIAL, Half(x)), Xor(POLYNOMIAL, Half(y)))
  {
  }

  lemma OddEven(x: bv32, y: bv32)
    requires Low(x) == 1 && Low(y) == 0
    ensures Low(Xor(x, y)) == 1
    ensures Xor(POLYNOMIAL, Half(Xor(x, y))) == Xor(Xor(POLYNOMIAL, Half(x)), Half(y))
  {
  }

  lemma EvenEven(x: bv32, y: bv32)
    requires Low(x) == 0 && Low(y) == 0
    ensures Low(Xor(x, y)) != 1 && Half(Xor(x, y)) == Xor(Half(x), Half(y))
  {
  }

  /** The register is linear: what enters it separately can be added up. */
  lemma RoundLinear(x: bv32, y: bv32)
    ensures Round(Xor(x, y)) == Xor(Round(x), Round(y))
  {
    hide Xor, Low, Half;
    LowIs(x);
    LowIs(y);
    if Low(x) == 1 {
      if Low(y) == 1 {
        OddOdd(x, y);
      } else {
        OddEven(x, y);
      }
    } else if Low(y) == 1 {
      OddEven(y, x);
      Commute(x, y);
      Commute(Round(x), Round(y));
    } else {
      EvenEven(x, y);
    }
  }

  lemma {:induction false} RoundsLinear(x: bv32, y: bv32, k: nat)
    ensures Rounds(Xor(x, y), k) == Xor(Rounds(x, k), Rounds(y, k))
    decreases k
  {
    hide Round, Xor;
    if k > 0 {
      RoundLinear(x, y);
      RoundsLinear(Round(x), Round(y), k - 1);
    }
  }

  // ---------------------------------------------------------------- eight bits at once

  /** `b` without its lowest bit. */
  function Upper(b: bv32): bv32 { b ^ (b & 1) }

  lemma SplitLow(c: bv32, b: bv32)
    ensures Xor(c, b) == Xor(Xor(c, Low(b)), Upper(b))
  {
  }

  lemma UpperIs(b: bv32)
    ensures Low(Upper(b)) != 1
    ensures Half(Upper(b)) == Half(b)
  {
  }

  lemma LowBitEnters(c: bv32, b: bv32)
    ensures Round(Xor(c, b)) == Xor(Round(Xor(c, Low(b))), Half(b))
  {
    hide Xor, Low, Half, Upper;
    SplitLow(c, b);
    UpperIs(b);
    RoundLinear(Xor(c, Low(b)), Upper(b));
  }

  /** What is left of `b` once `k` bits are gone. */
  function Halves(b: bv32, k: nat): bv32
    decreases k
  {
    if k == 0 then b else Halves(Half(b), k - 1)
  }

  lemma XorZero(c: bv32)
    ensures Xor(c, 0) == c
  {
  }

  /** Shifting bits in one by one is adding them all at first. */
  lemma {:induction false} ShiftInRounds(c: bv32, b: bv32, k: nat)
    requires Halves(b, k) == 0
    ensures ShiftIn(c, b, k) == Rounds(Xor(c, b), k)
    decreases k
  {
    hide Round, Xor, Low, Half;
    if k == 0 {
      XorZero(c);
    } else {
      LowBitEnters(c, b);
      ShiftInRounds(Round(Xor(c, Low(b))), Half(b), k - 1);
    }
  }

  predicate LowBitsClear(c: bv32, k: nat)
    decreases k
  {
    k == 0 || (Low(c) == 0 && LowBitsClear(Half(c), k - 1))
  }

  /** Bits above the lowest `k` only move down in `k` rounds. */
  lemma {:induction false} RoundsAbove(c: bv32, k: nat)
    requires LowBitsClear(c, k)
    ensures Rounds(c, k) == Halves(c, k)
    decreases k
  {
    hide Xor, Low, Half;
    if k > 0 {
      RoundsAbove(Half(c), k - 1);
    }
  }

  function Down4(x: bv32): bv32 { x >> 4 }

  function Down(x: bv32): bv32 { x >> 8 }

  lemma FourHalves(c: bv32)
    ensures Halves(c, 4) == Down4(c)
  {
  }

  lemma DownTwice(c: bv32)
    ensures Down4(Down4(c)) == Down(c)
  {
  }

  lemma EightHalves(c: bv32)
    ensures Halves(c, 8) == Down(c)
  {
    hide Half, Down4, Down;
    FourHalves(c);
    FourHalves(Down4(c));
    DownTwice(c);
    assert Halves(c, 8) == Halves(Halves(c, 4), 4);
  }

  lemma FourClear(c: bv32)
    requires c & 15 == 0
    ensures LowBitsClear(c, 4)
  {
  }

  lemma {:induction false} ClearSplit(c: bv32, k: nat, l: nat)
    requires LowBitsClear(c, k) && LowBitsClear(Halves(c, k), l)
    ensures LowBitsClear(c, k + l)
    decreases k
  {
    hide Low, Half;
    if k > 0 {
      ClearSplit(Half(c), k - 1, l);
    }
  }

  function LowByte(x: bv32): bv32 { x & 255 }

  function UpperBytes(x: bv32): bv32 { x ^ (x & 255) }

  lemma EightClear(c: bv32)
    requires LowByte(c) == 0
    ensures LowBitsClear(c, 8)
  {
    assert c & 15 == 0 && Down4(c) & 15 == 0;
    hide Low, Half, Down4, LowByte;
    FourClear(c);
    FourClear(Down4(c));
    FourHalves(c);
    ClearSplit(c, 4, 4);
  }

  lemma UpperBytesAre(x: bv32)
    ensures x == Xor(LowByte(x), UpperBytes(x))
    ensures LowByte(UpperBytes(x)) == 0 && Down(UpperBytes(x)) == Down(x)
  {
  }

  lemma SplitByte(x: bv32)
    ensures x == Xor(LowByte(x), UpperBytes(x))
    ensures LowBitsClear(UpperBytes(x), 8) && Halves(UpperBytes(x), 8) == Down(x)
  {
    hide LowByte, UpperBytes, Down, LowBitsClear, Halves, Xor;
    UpperBytesAre(x);
    EightClear(UpperBytes(x));
    EightHalves(UpperBytes(x));
  }

  lemma ByteEnters(c: bv32, b: byte)
    ensures Down(Xor(c, Bits(b))) == Down(c) && Halves(Bits(b), 8) == 0
  {
    EightHalves(Bits(b));
  }

  /** One table step is eight bit steps. */
  lemma TableStep(c: bv32, b: byte)
    ensures ShiftIn(c, Bits(b), 8) == Xor(Rounds(LowByte(Xor(c, Bits(b))), 8), Down(c))
  {
    hide Round, Bits, Rounds, Halves, ShiftIn, Xor, LowByte, UpperBytes, Down, LowBitsClear;
    var x := Xor(c, Bits(b));
    ByteEnters(c, b);
    ShiftInRounds(c, Bits(b), 8);
    SplitByte(x);
    RoundsLinear(LowByte(x), UpperBytes(x), 8);
    RoundsAbove(UpperBytes(x), 8);
  }

  // ---------------------------------------------------------------- the writer's loops

  ghost predicate IsTable(table: seq<bv32>) {
    |table| == 256 && forall n: bv32 :: n < 256 ==> table[n as int] == Rounds(n, 8)
  }

  method EightRounds(n: bv32) returns (c: bv32)
    ensures c == Rounds(n, 8)
  {
    hide Low, Half, Xor;
    c := n;
    for k := 0 to 8
      invariant Rounds(c, 8 - k) == Rounds(n, 8)
    {
      c := if Low(c) == 1 then Xor(POLYNOMIAL, Half(c)) else Half(c);
    }
  }

  method MakeTable() returns (table: array<bv32>)
    ensures fresh(table) && IsTable(table[..])
  {
    hide Rounds;
    table := new bv32[256](_ => 0);
    var n: bv32 := 0;
    while n < 256
      invariant n <= 256
      invariant forall m: bv32 :: m < n ==> table[m as int] == Rounds(m, 8)
      decreases 256 - n
    {
      var c := EightRounds(n);
      ghost var was := table[..];
      Index(n);
      table[n as int] := c;
      forall m: bv32 | m < n + 1 ensures table[m as int] == Rounds(m, 8) {
        Earlier(m, n);
        assert m < n ==> table[m as int] == was[m as int];
      }
      n := n + 1;
    }
  }

  lemma Index(n: bv32)
    requires n < 256
    ensures 0 <= n as int < 256 && n + 1 <= 256
  {
  }

  lemma Earlier(m: bv32, n: bv32)
    requires n < 256 && m < n + 1
    ensures m == n || (m < n && m as int < n as int)
  {
  }

  lemma Entry(table: seq<bv32>, x: bv32)
    requires IsTable(table)
    ensures 0 <= LowByte(x) as int < |table| && table[LowByte(x) as int] == Rounds(LowByte(x), 8)
  {
    assert LowByte(x) < 256;
  }

  method TableUpdate(table: array<bv32>, crc: bv32, s: Bytes) returns (c: bv32)
    requires IsTable(table[..])
    ensures c == BitUpdate(crc, s)
  {
    hide Bits, Rounds, ShiftIn, Xor, LowByte, Down, IsTable;
    c := crc;
    for i := 0 to |s|
      invariant BitUpdate(c, s[i..]) == BitUpdate(crc, s)
    {
      TableStep(c, s[i]);
      var n := LowByte(Xor(c, Bits(s[i])));
      Entry(table[..], Xor(c, Bits(s[i])));
      c := Xor(table[n as int], Down(c));
    }
  }
}
