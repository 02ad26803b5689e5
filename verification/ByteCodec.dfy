/**
 The GPT-2 byte alphabet: every byte is written as one printable code point, so that a vocabulary of
 text can hold arbitrary bytes.
 */
module ByteCodec {
  import opened Bytes
  import opened Utf8

  /** Printable Latin-1 bytes stand for themselves; the other 68 take 256, 257, ... in order. */
  function ByteToCp(b: byte): (cp: nat)
    ensures cp < 324
  {
    if 33 <= b <= 126 || 161 <= b <= 172 || 174 <= b then b
    else if b < 33 then 256 + b
    else if b < 161 then 289 + (b - 127)
    else 323
  }

  /** The byte a code point stands for; -1 if none. */
  function CpToByte(cp: nat): (b: int)
    ensures -1 <= b < 256
  {
    if 33 <= cp <= 126 || 161 <= cp <= 172 || 174 <= cp <= 255 then cp
    else if 256 <= cp < 289 then cp - 256
    else if 289 <= cp < 323 then cp - 289 + 127
    else if cp == 323 then 173
    else -1
  }

  /** The bytes that stand for themselves: printable ASCII but the space, and printable Latin-1. */
  predicate Printable(b: nat) {
    33 <= b <= 126 || (161 <= b <= 255 && b != 173)
  }

  /** How many of the first `n` bytes do not. */
  function Unprintable(n: nat): nat {
    if n == 0 then 0 else Unprintable(n - 1) + if Printable(n - 1) then 0 else 1
  }

  lemma {:induction false} UnprintableIs(n: nat)
    requires n <= 256
    ensures Unprintable(n) == if n <= 33 then n else if n <= 127 then 33 else if n <= 161 then n - 94
                              else if n <= 173 then 67 else 68
  {
    if n > 0 {
      UnprintableIs(n - 1);
    }
  }

  /** A printable byte stands for itself, the others take the code points from 256 on, in order. */
  lemma AlphabetInOrder(b: byte)
    ensures ByteToCp(b) == if Printable(b) then b else 256 + Unprintable(b)
  {
    UnprintableIs(b);
  }

  /** A byte's code point stands for it, and no other code point does. */
  lemma AlphabetRoundTrip(b: byte)
    ensures CpToByte(ByteToCp(b)) == b
    ensures forall cp: nat :: CpToByte(cp) == b ==> cp == ByteToCp(b)
  {
  }

  /** The character that stands for a byte. */
  function CharOf(b: byte): (s: Bytes)
    ensures 1 <= |s| <= 2
  {
    CpToUtf8(ByteToCp(b))
  }

  function Encode(bs: Bytes): Bytes {
    if bs == [] then [] else CharOf(bs[0]) + Encode(bs[1..])
  }

  /** One step of decoding vocabulary text: a character of the alphabet gives its byte, any other is copied. */
  function DecodeChar(s: Bytes): (r: (Bytes, nat))
    requires s != []
    ensures 1 <= r.1 <= |s|
  {
    var (cp, n) := Utf8ToCp(s);
    var b := if cp < 512 then CpToByte(cp) else -1;
    (if b >= 0 then [b] else s[..n], n)
  }

  lemma DecodeCharOf(b: byte, rest: Bytes)
    ensures DecodeChar(CharOf(b) + rest) == ([b], |CharOf(b)|)
  {
    CpRoundTrip(ByteToCp(b), rest);
    AlphabetRoundTrip(b);
  }

  function Decode(s: Bytes): Bytes
    decreases |s|
  {
    if s == [] then [] else
      var (out, n) := DecodeChar(s);
      out + Decode(s[n..])
  }

  lemma {:induction false} EncodeAppend(a: Bytes, b: Bytes)
    ensures Encode(a + b) == Encode(a) + Encode(b)
  {
    if a == [] {
      assert a + b == b;
    } else {
      assert (a + b)[1..] == a[1..] + b;
      EncodeAppend(a[1..], b);
    }
  }

  /** Decoding undoes encoding, and what follows the encoded bytes is decoded on its own. */
  lemma {:induction false} DecodeEncode(bs: Bytes, rest: Bytes)
    ensures Decode(Encode(bs) + rest) == bs + Decode(rest)
  {
    hide CharOf, DecodeChar;
    if bs == [] {
      assert Encode(bs) + rest == rest;
    } else {
      var whole := Encode(bs) + rest;
      var tail := Encode(bs[1..]) + rest;
      assert whole == CharOf(bs[0]) + tail;
      DecodeEncode(bs[1..], rest);
      DecodeFront(bs[0], tail);
      assert [bs[0]] + (bs[1..] + Decode(rest)) == bs + Decode(rest);
    }
  }

  lemma DecodeFront(b: byte, tail: Bytes)
    ensures Decode(CharOf(b) + tail) == [b] + Decode(tail)
  {
    var c := CharOf(b);
    DecodeCharOf(b, tail);
    assert (c + tail)[|c|..] == tail;
  }

  /** ASCII text passes through the decoder unchanged. */
  lemma {:induction false} DecodeAscii(s: Bytes)
    requires forall i :: 0 <= i < |s| ==> s[i] < 0x80
    ensures Decode(s) == s
  {
    if s != [] {
      DecodeAscii(s[1..]);
      assert Utf8ToCp(s) == (s[0], 1);
      assert DecodeChar(s) == ([s[0]], 1) by {
        assert s[..1] == [s[0]];
      }
      assert s == [s[0]] + s[1..];
    }
  }

  lemma OutsideAlphabet(cp: nat)
    requires cp < CP_LIMIT && forall b: byte :: CpToUtf8(cp) != CharOf(b)
    ensures CpToByte(cp) < 0
  {
    var b := CpToByte(cp);
    if b >= 0 {
      AlphabetRoundTrip(b);
      assert CpToUtf8(cp) == CharOf(b);
    }
  }

  /** A character outside the alphabet is copied as it is. */
  lemma DecodeOther(cp: nat, rest: Bytes)
    requires cp < CP_LIMIT && forall b: byte :: CpToUtf8(cp) != CharOf(b)
    ensures Decode(CpToUtf8(cp) + rest) == CpToUtf8(cp) + Decode(rest)
  {
    var c := CpToUtf8(cp);
    OutsideAlphabet(cp);
    CpRoundTrip(cp, rest);
    hide CpToUtf8, Utf8ToCp;
    assert (c + rest)[..|c|] == c && (c + rest)[|c|..] == rest;
    assert DecodeChar(c + rest) == (c, |c|);
  }

  // ---------------------------------------------------------------- the loops

  predicate PassesThrough(b: byte) {
    CharOf(b) == [b]
  }

  lemma {:induction false} EncodePassing(bs: Bytes)
    requires forall i :: 0 <= i < |bs| ==> PassesThrough(bs[i])
    ensures Encode(bs) == bs
  {
    if bs != [] {
      EncodePassing(bs[1..]);
    }
  }

  lemma EncodeSnoc(a: Bytes, x: byte)
    ensures Encode(a + [x]) == Encode(a) + CharOf(x)
  {
    EncodeAppend(a, [x]);
    assert Encode([x]) == CharOf(x);
  }

  /** End of the run of bytes from `start` on that encode to themselves. */
  method PassingRun(src: Bytes, start: nat) returns (i: nat)
    requires start <= |src|
    ensures start <= i <= |src|
    ensures forall j :: start <= j < i ==> PassesThrough(src[j])
    ensures i < |src| ==> !PassesThrough(src[i])
  {
    i := start;
    while i < |src| && PassesThrough(src[i])
      invariant start <= i <= |src|
      invariant forall j :: start <= j < i ==> PassesThrough(src[j])
    {
      i := i + 1;
    }
  }

  /** `gpt2_encode_bytes`: runs that need no change are copied whole; input of only such bytes is returned as it is. */
  method EncodeBytes(src: Bytes) returns (out: Bytes)
    ensures out == Encode(src)
  {
    hide PassesThrough, Encode, CharOf;
    var i := PassingRun(src, 0);
    if i == |src| {
      EncodePassing(src);
      return src;
    }
    var dst := new byte[2 * |src| + 1];
    var at: nat := 0;
    EncodePassing([]);
    assert dst[..at] == [] && src[..0] == [];
    PutRun(dst, at, src, 0, i);
    at := i;
    while i < |src|
      invariant i <= |src| && at <= 2 * i
      invariant dst[..at] == Encode(src[..i])
    {
      var j := PassingRun(src, i);
      if j > i {
        PutRun(dst, at, src, i, j);
        at := at + (j - i);
        i := j;
      }
      if i >= |src| {
        break;
      }
      var n := PutChar(dst, at, src, i);
      at := at + n;
      i := i + 1;
    }
    assert src[..|src|] == src;
    out := dst[..at];
  }

  /** The bytes `src[i..j]` need no change. */
  method PutRun(dst: array<byte>, at: nat, src: Bytes, i: nat, j: nat)
    requires i <= j <= |src| && forall k :: i <= k < j ==> PassesThrough(src[k])
    requires at + (j - i) <= dst.Length && dst[..at] == Encode(src[..i])
    modifies dst
    ensures dst[..at + (j - i)] == Encode(src[..j])
  {
    assert src[..i] + src[i..j] == src[..j];
    hide Encode;
    EncodePassing(src[i..j]);
    EncodeAppend(src[..i], src[i..j]);
    Put(dst, at, src[i..j]);
  }

  method PutChar(dst: array<byte>, at: nat, src: Bytes, i: nat) returns (n: nat)
    requires i < |src| && at + 2 <= dst.Length && dst[..at] == Encode(src[..i])
    modifies dst
    ensures n <= 2 && dst[..at + n] == Encode(src[..i + 1])
  {
    n := |CharOf(src[i])|;
    Put(dst, at, CharOf(src[i]));
    EncodeSnoc(src[..i], src[i]);
    assert src[..i] + [src[i]] == src[..i + 1];
  }

  /** The decoding loop of `decode_token_text_into` for a byte-level vocabulary. */
  method DecodeLoop(src: Bytes) returns (out: Bytes)
    ensures out == Decode(src)
  {
    out := [];
    var k := 0;
    assert Decode([]) == [] && src[0..] == src && src[|src|..] == [];
    hide Decode;
    while k < |src|
      invariant k <= |src| && Decode(src) == out + Decode(src[k..])
    {
      var piece, kl := DecodeStep(src, k);
      DecodedOn(Decode(src), out, piece, src, k, kl);
      out := out + piece;
      k := k + kl;
    }
  }

  lemma DecodedOn(whole: Bytes, out: Bytes, piece: Bytes, src: Bytes, k: nat, kl: nat)
    requires k + kl <= |src| && whole == out + Decode(src[k..]) && Decode(src[k..]) == piece + Decode(src[k + kl..])
    ensures whole == out + piece + Decode(src[k + kl..])
  {
    hide Decode;
    Regroup(out, piece, Decode(src[k + kl..]));
  }

  method DecodeStep(src: Bytes, k: nat) returns (piece: Bytes, kl: nat)
    requires k < |src|
    ensures 1 <= kl <= |src| - k && Decode(src[k..]) == piece + Decode(src[k + kl..])
  {
    var c := Utf8ToCp(src[k..]);
    var cp := c.0;
    kl := c.1;
    var b := if cp < 512 then CpToByte(cp) else -1;
    piece := if b >= 0 then [b] else src[k..][..kl];
    assert DecodeChar(src[k..]) == (piece, kl);
    assert src[k..][kl..] == src[k + kl..];
  }
}
