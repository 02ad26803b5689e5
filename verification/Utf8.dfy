/** The tokenizer's UTF-8 codec for one code point (section 3 of RFC 3629), lenient on input. */
module Utf8 {
  import opened Bytes

  const CP_LIMIT := 0x200000

  /** Code points take one to four bytes; no range check beyond what four bytes can carry. */
  function CpToUtf8(cp: nat): (s: Bytes)
    requires cp < CP_LIMIT
    ensures 1 <= |s| <= 4
  {
    if cp < 0x80 then [cp]
    else if cp < 0x800 then [0xC0 + cp / 64, 0x80 + cp % 64]
    else if cp < 0x10000 then [0xE0 + cp / 4096, 0x80 + cp / 64 % 64, 0x80 + cp % 64]
    else [0xF0 + cp / 262144, 0x80 + cp / 4096 % 64, 0x80 + cp / 64 % 64, 0x80 + cp % 64]
  }

  /**
   The code point at the front of `s` and the bytes it takes. A lead byte without its full tail, and
   a stray continuation byte, stand for themselves; continuation bytes are not checked.
   */
  function Utf8ToCp(s: Bytes): (r: (nat, nat))
    requires s != []
    ensures 1 <= r.1 <= |s| && r.0 < CP_LIMIT
  {
    var c: int := s[0];
    if c < 0x80 then (c, 1)
    else if c / 32 == 6 && |s| >= 2 then (c % 32 * 64 + Tail(s[1]), 2)
    else if c / 16 == 14 && |s| >= 3 then (c % 16 * 4096 + Tail(s[1]) * 64 + Tail(s[2]), 3)
    else if c / 8 == 30 && |s| >= 4 then
      (c % 8 * 262144 + Tail(s[1]) * 4096 + Tail(s[2]) * 64 + Tail(s[3]), 4)
    else (c, 1)
  }

  /** The six bits a continuation byte carries. */
  function Tail(b: byte): (t: nat)
    ensures t < 64
  {
    b % 64
  }

  /** The bytes a lead byte announces, by the tokenizer's table. */
  function LeadLength(c: byte): (n: nat)
    ensures 1 <= n <= 4
  {
    if c >= 0xF0 then 4 else if c >= 0xE0 then 3 else if c >= 0xC0 then 2 else 1
  }

  /** Decoding reads back the code point that was encoded, whatever follows it. */
  lemma CpRoundTrip(cp: nat, rest: Bytes)
    requires cp < CP_LIMIT
    ensures Utf8ToCp(CpToUtf8(cp) + rest) == (cp, |CpToUtf8(cp)|)
    ensures LeadLength(CpToUtf8(cp)[0]) == |CpToUtf8(cp)|
  {
    var e := CpToUtf8(cp);
    var s := e + rest;
    assert forall i :: 0 <= i < |e| ==> s[i] == e[i];
    if cp < 0x80 {
    } else if cp < 0x800 {
      TwoBytes(cp);
    } else if cp < 0x10000 {
      ThreeBytes(cp);
    } else {
      FourBytes(cp);
    }
  }

  /** A lead byte that announces the length, and continuation bytes. */
  predicate InForm(s: Bytes) {
    && 1 <= |s| <= 4 && (forall i :: 1 <= i < |s| ==> 0x80 <= s[i] < 0xC0)
    && match |s| {
      case 1 => s[0] < 0x80
      case 2 => 0xC0 <= s[0] < 0xE0
      case 3 => 0xE0 <= s[0] < 0xF0
      case _ => 0xF0 <= s[0] < 0xF8
    }
  }

  function Above(b: byte, mark: byte): int {
    b as int - mark as int
  }

  /** What the bytes of an encoded code point add up to. */
  function Payload(s: Bytes): int
    requires InForm(s)
  {
    match |s|
    case 1 => s[0]
    case 2 => Above(s[0], 0xC0) * 0x40 + Above(s[1], 0x80)
    case 3 => Above(s[0], 0xE0) * 0x1000 + Above(s[1], 0x80) * 0x40 + Above(s[2], 0x80)
    case _ =>
      Above(s[0], 0xF0) * 0x40000 + Above(s[1], 0x80) * 0x1000 + Above(s[2], 0x80) * 0x40 + Above(s[3], 0x80)
  }

  /** Section 3 of RFC 3629: as few bytes as the code point allows, in the form that carries it. */
  lemma EncodedForm(cp: nat)
    requires cp < CP_LIMIT
    ensures InForm(CpToUtf8(cp)) && Payload(CpToUtf8(cp)) == cp
    ensures |CpToUtf8(cp)| == if cp < 0x80 then 1 else if cp < 0x800 then 2 else if cp < 0x10000 then 3 else 4
  {
    if 0x800 <= cp < 0x10000 {
      ThreeBytes(cp);
    } else if cp >= 0x10000 {
      FourBytes(cp);
    }
  }

  lemma TwoBytes(cp: nat)
    requires 0x80 <= cp < 0x800
    ensures (0xC0 + cp / 64) / 32 == 6 && (0xC0 + cp / 64) % 32 == cp / 64
    ensures Tail(0x80 + cp % 64) == cp % 64
  {
  }

  lemma ThreeBytes(cp: nat)
    requires 0x800 <= cp < 0x10000
    ensures (0xE0 + cp / 4096) / 16 == 14 && (0xE0 + cp / 4096) % 16 == cp / 4096
    ensures Tail(0x80 + cp / 64 % 64) == cp / 64 % 64 && Tail(0x80 + cp % 64) == cp % 64
    ensures cp / 4096 * 4096 + cp / 64 % 64 * 64 + cp % 64 == cp
  {
  }

  lemma FourBytes(cp: nat)
    requires 0x10000 <= cp < CP_LIMIT
    ensures (0xF0 + cp / 262144) / 8 == 30 && (0xF0 + cp / 262144) % 8 == cp / 262144
    ensures Tail(0x80 + cp / 4096 % 64) == cp / 4096 % 64
    ensures Tail(0x80 + cp / 64 % 64) == cp / 64 % 64 && Tail(0x80 + cp % 64) == cp % 64
    ensures cp / 262144 * 262144 + cp / 4096 % 64 * 4096 + cp / 64 % 64 * 64 + cp % 64 == cp
  {
    var hi := cp / 64;
    assert hi / 4096 == cp / 262144 && hi / 64 == cp / 4096;
    assert hi / 4096 * 4096 + hi / 64 % 64 * 64 + hi % 64 == hi;
  }
}
