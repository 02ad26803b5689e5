/** The stored zlib stream of the PNG writer, and a decoder after RFC 1950 and RFC 1951. */
module Zlib {
  import opened Bytes

  const WORD := 0x1_0000_0000

  /** `put_be32`: the low 32 bits, most significant byte first. */
  function Be32(v: nat): (b: Bytes)
    ensures |b| == 4
  {
    [(v / 0x100_0000) % 256, (v / 0x1_0000) % 256, (v / 0x100) % 256, v % 256]
  }

  function FromBe32(b: Bytes): nat
    requires |b| == 4
  {
    b[0] as int * 0x100_0000 + b[1] as int * 0x1_0000 + b[2] as int * 0x100 + b[3] as int
  }

  lemma Be32RoundTrip(v: nat)
    ensures FromBe32(Be32(v)) == v % WORD
  {
    var a := v / 0x100;
    var b := a / 0x100;
    assert b == v / 0x1_0000 && v / 0x100_0000 == b / 0x100;
    assert v == 0x100 * a + v % 256 && a == 0x100 * b + a % 256 && b == 0x100 * (b / 0x100) + b % 256;
  }

  // ---------------------------------------------------------------- Adler-32

  const ADLER_MOD := 65521
  const ADLER_NMAX := 5552

  datatype Sums = Sums(a: nat, b: nat)

  /** Remainders as both sums take them. */
  function Mod(x: nat): (r: nat)
    ensures r < ADLER_MOD
  {
    x % ADLER_MOD
  }

  /** Section 8.2 of RFC 1950: both sums are kept modulo 65521 at every byte. */
  function AdlerSums(s: Sums, data: Bytes): (r: Sums)
    requires s.a < ADLER_MOD && s.b < ADLER_MOD
    ensures r.a < ADLER_MOD && r.b < ADLER_MOD
    decreases |data|
  {
    if data == [] then s
    else
      var front := AdlerSums(s, data[..|data| - 1]);
      var a := Mod(front.a + data[|data| - 1]);
      Sums(a, Mod(front.b + a))
  }

  function Adler32(data: Bytes): nat {
    var s := AdlerSums(Sums(1, 0), data);
    s.b * 0x1_0000 + s.a
  }

  lemma {:induction false} AdlerConcat(s: Sums, x: Bytes, y: Bytes)
    requires s.a < ADLER_MOD && s.b < ADLER_MOD
    ensures AdlerSums(AdlerSums(s, x), y) == AdlerSums(s, x + y)
    decreases |y|
  {
    if y == [] {
      assert x + y == x;
    } else {
      AdlerConcat(s, x, y[..|y| - 1]);
      assert (x + y)[..|x + y| - 1] == x + y[..|y| - 1];
    }
  }

  function Sum(data: Bytes): nat {
    if data == [] then 0 else Sum(data[..|data| - 1]) + data[|data| - 1]
  }

  /** The sums of all beginnings of the data, added up. */
  function SumOfSums(data: Bytes): nat {
    if data == [] then 0 else SumOfSums(data[..|data| - 1]) + Sum(data)
  }

  /** Without reducing at every byte: one more than the sum of the bytes, and the sum of all values of that. */
  lemma {:induction false} AdlerClosed(data: Bytes)
    ensures AdlerSums(Sums(1, 0), data) == Sums((1 + Sum(data)) % ADLER_MOD, (|data| + SumOfSums(data)) % ADLER_MOD)
    decreases |data|
  {
    if data != [] {
      var front, d := data[..|data| - 1], data[|data| - 1];
      AdlerClosed(front);
      assert front + [d] == data;
      AdlerByte(1 + Sum(front), |front| + SumOfSums(front), d, Sums(1, 0), front);
      assert 1 + Sum(front) + d == 1 + Sum(data);
      assert |front| + SumOfSums(front) + (1 + Sum(data)) == |data| + SumOfSums(data);
    }
  }

  /** The sum of the first `n` values of the running `a`, at their largest. */
  function LargestSum(n: nat): nat {
    65520 * (n + 1) + 255 * (n * (n + 1) / 2)
  }

  lemma LargestStep(n: nat)
    ensures LargestSum(n + 1) == LargestSum(n) + 65520 + 255 * (n + 1)
  {
    assert (n + 1) * (n + 2) == n * (n + 1) + 2 * (n + 1);
  }

  lemma {:induction false} LargestGrows(n: nat)
    requires n <= ADLER_NMAX
    ensures LargestSum(n) <= 4294690200
    decreases ADLER_NMAX - n
  {
    if n == ADLER_NMAX {
      assert ADLER_NMAX * (ADLER_NMAX + 1) == 30830256;
    } else {
      LargestGrows(n + 1);
      LargestStep(n);
    }
  }

  lemma AddMod(x: nat, d: nat)
    ensures Mod(x + d) == Mod(Mod(x) + d)
  {
    assert x + d == ADLER_MOD * (x / ADLER_MOD) + (x % ADLER_MOD + d);
  }

  /** One byte more, before and after reducing. */
  lemma AdlerByte(a: nat, b: nat, d: byte, s: Sums, data: Bytes)
    requires s.a < ADLER_MOD && s.b < ADLER_MOD
    requires Sums(Mod(a), Mod(b)) == AdlerSums(s, data)
    ensures Sums(Mod(a + d), Mod(b + (a + d))) == AdlerSums(s, data + [d])
  {
    hide Mod;
    assert (data + [d])[..|data|] == data;
    AddMod(a, d);
    AddMod(a + d, b);
    AddMod(b, Mod(a + d));
    assert b + (a + d) == a + d + b && Mod(a + d) + b == b + Mod(a + d);
  }

  /** A 32-bit sum. */
  function Wrap(x: nat): nat {
    x % WORD
  }

  lemma WrapSmall(x: nat)
    requires x < WORD
    ensures Wrap(x) == x
  {
  }

  /** Up to 5552 bytes are added without reducing; no 32-bit sum ever wraps, so nothing is lost. */
  method SumChunk(a0: nat, b0: nat, part: Bytes) returns (a: nat, b: nat)
    requires a0 < ADLER_MOD && b0 < ADLER_MOD && |part| <= ADLER_NMAX
    ensures Sums(Mod(a), Mod(b)) == AdlerSums(Sums(a0, b0), part)
    ensures a < WORD && b < WORD
  {
    hide Wrap, Mod, AdlerSums, LargestSum;
    a, b := a0, b0;
    AtZero(Sums(a0, b0));
    for i := 0 to |part|
      invariant a <= 65520 + 255 * i && b <= LargestSum(i)
      invariant Sums(Mod(a), Mod(b)) == AdlerSums(Sums(a0, b0), part[..i])
    {
      LargestStep(i);
      LargestGrows(i + 1);
      AdlerByte(a, b, part[i], Sums(a0, b0), part[..i]);
      assert part[..i + 1] == part[..i] + [part[i]];
      WrapSmall(a + part[i]);
      WrapSmall(b + (a + part[i]));
      a := Wrap(a + part[i]);
      b := Wrap(b + a);
    }
    LargestGrows(|part|);
    assert part[..|part|] == part;
  }

  lemma AtZero(s: Sums)
    requires s.a < ADLER_MOD && s.b < ADLER_MOD
    ensures LargestSum(0) == 65520 && AdlerSums(s, []) == s && Sums(Mod(s.a), Mod(s.b)) == s
  {
  }

  method Adler(buf: Bytes) returns (r: nat)
    ensures r == Adler32(buf)
  {
    var a: nat, b: nat := 1, 0;
    var done := 0;
    while done < |buf|
      invariant done <= |buf| && a < ADLER_MOD && b < ADLER_MOD
      invariant Sums(a, b) == AdlerSums(Sums(1, 0), buf[..done])
      decreases |buf| - done
    {
      var chunk := if |buf| - done < ADLER_NMAX then |buf| - done else ADLER_NMAX;
      AdlerConcat(Sums(1, 0), buf[..done], buf[done..done + chunk]);
      assert buf[..done] + buf[done..done + chunk] == buf[..done + chunk];
      a, b := SumChunk(a, b, buf[done..done + chunk]);
      a := Mod(a);
      b := Mod(b);
      done := done + chunk;
    }
    assert buf[..|buf|] == buf;
    r := b * 0x1_0000 + a;
  }

  // ---------------------------------------------------------------- stored blocks

  const STORED_MAX := 65535

  function StoredBlock(data: Bytes, fin: bool): Bytes
    requires |data| <= STORED_MAX
  {
    [if fin then 1 else 0, |data| % 256, |data| / 256, 255 - |data| % 256, 255 - |data| / 256] + data
  }

  function StoredBlocks(raw: Bytes): Bytes
    decreases |raw|
  {
    if |raw| <= STORED_MAX then StoredBlock(raw, true)
    else StoredBlock(raw[..STORED_MAX], false) + StoredBlocks(raw[STORED_MAX..])
  }

  function ZlibStored(raw: Bytes): Bytes {
    [0x78, 0x01] + StoredBlocks(raw) + Be32(Adler32(raw))
  }

  /** The size the writer allocates. */
  function Capacity(rawLen: nat): nat {
    2 + rawLen + (rawLen + STORED_MAX - 1) / STORED_MAX * 5 + 4
  }

  lemma {:induction false} BlocksSize(raw: Bytes)
    requires raw != []
    ensures |StoredBlocks(raw)| == |raw| + (|raw| + STORED_MAX - 1) / STORED_MAX * 5
    decreases |raw|
  {
    if |raw| > STORED_MAX {
      BlocksSize(raw[STORED_MAX..]);
    }
  }

  /** The stream fills exactly the buffer allocated for it, unless there is nothing to store: then it does not fit. */
  lemma StreamFillsBuffer(raw: Bytes)
    ensures raw != [] ==> |ZlibStored(raw)| == Capacity(|raw|)
    ensures raw == [] ==> |ZlibStored(raw)| > Capacity(|raw|)
  {
    if raw != [] {
      BlocksSize(raw);
    }
  }

  method PutBlock(out: array<byte>, pos: nat, data: Bytes, fin: bool) returns (pos': nat)
    requires |data| <= STORED_MAX && pos + 5 + |data| <= out.Length
    modifies out
    ensures pos' == pos + 5 + |data| && out[..pos'] == old(out[..pos]) + StoredBlock(data, fin)
  {
    var n := |data|;
    Put(out, pos, [if fin then 1 else 0, n % 256, n / 256, 255 - n % 256, 255 - n / 256]);
    Put(out, pos + 5, data);
    pos' := pos + 5 + n;
  }

  lemma NextBlock(raw: Bytes, off: nat, n: nat, fin: bool)
    requires off <= |raw| && n == (if |raw| - off < STORED_MAX then |raw| - off else STORED_MAX)
    requires fin == (off + n >= |raw|)
    ensures StoredBlocks(raw[off..]) ==
      if fin then StoredBlock(raw[off..off + n], true)
      else StoredBlock(raw[off..off + n], false) + StoredBlocks(raw[off + n..])
  {
    hide StoredBlock;
    assert raw[off..][..n] == raw[off..off + n] && raw[off..][n..] == raw[off + n..];
    if fin {
      assert raw[off..off + n] == raw[off..];
    }
  }

  /** What of the blocks is still to come. */
  function Coming(raw: Bytes, off: nat, fin: bool): Bytes
    requires off <= |raw|
  {
    if fin then [] else StoredBlocks(raw[off..])
  }

  /** One round of the writer's loop: the block at `off`, the last one if it reaches the end. */
  method PutNext(out: array<byte>, pos: nat, raw: Bytes, off: nat) returns (pos': nat, off': nat, fin: bool)
    requires off <= |raw| && pos + |Coming(raw, off, false)| <= out.Length
    modifies out
    ensures off <= off' <= |raw| && (!fin ==> off' > off) && pos' <= out.Length
    ensures out[..pos'] + Coming(raw, off', fin) == old(out[..pos] + Coming(raw, off, false))
  {
    hide StoredBlocks, StoredBlock;
    var rest := |raw| - off;
    var n := if rest < STORED_MAX then rest else STORED_MAX;
    fin := off + n >= |raw|;
    off' := off + n;
    var data := raw[off..off'];
    NextBlock(raw, off, n, fin);
    BlockSize(data, fin);
    ghost var before, block, more := out[..pos], StoredBlock(data, fin), Coming(raw, off', fin);
    assert Coming(raw, off, false) == block + more;
    assert before + (block + more) == before + block + more;
    pos' := PutBlock(out, pos, data, fin);
  }

  /** `fits` tells whether every write stays inside the buffer; with nothing to store the first block does not. */
  method MakeZlibStored(raw: Bytes) returns (out: array<byte>, len: nat, fits: bool)
    ensures fresh(out) && out.Length == Capacity(|raw|)
    ensures fits <==> raw != []
    ensures fits ==> len == out.Length && out[..] == ZlibStored(raw)
  {
    StreamFillsBuffer(raw);
    var blocks := (|raw| + STORED_MAX - 1) / STORED_MAX;
    var cap := 2 + |raw| + blocks * 5 + 4;
    out := new byte[cap];
    Put(out, 0, [0x78, 0x01]);
    var pos: nat := 2;
    if pos + 5 + (if |raw| < STORED_MAX then |raw| else STORED_MAX) > out.Length {
      return out, 0, false;
    }
    ghost var all := [0x78, 0x01] + StoredBlocks(raw);
    assert |all| + 4 == cap;
    assert raw[0..] == raw;
    hide StoredBlocks, Capacity;
    var off: nat := 0;
    var fin := false;
    fits := true;
    while !fin
      invariant pos <= out.Length && off <= |raw| && |all| + 4 == out.Length
      invariant out[..pos] + Coming(raw, off, fin) == all
      decreases |raw| - off, !fin
    {
      pos, off, fin := PutNext(out, pos, raw, off);
    }
    assert out[..pos] == all;
    var sum: nat := Adler(raw);
    Put(out, pos, Be32(sum));
    len := pos + 4;
    assert out[..len] == out[..];
  }

  lemma BlockSize(data: Bytes, fin: bool)
    requires |data| <= STORED_MAX
    ensures |StoredBlock(data, fin)| == 5 + |data|
  {
  }

  // ---------------------------------------------------------------- decoding

  datatype Inflated = Inflated(raw: Bytes, rest: Bytes)

  /** Section 3.2.4 of RFC 1951; only stored blocks are understood. */
  function Inflate(s: Bytes): Option<Inflated>
    decreases |s|
  {
    if |s| < 5 || (s[0] / 2) % 4 != 0 then None
    else
      var n: nat := s[1] as int + 256 * s[2] as int;
      if s[3] as int + 256 * s[4] as int != 65535 - n || |s| < 5 + n then None
      else if s[0] % 2 == 1 then Some(Inflated(s[5..5 + n], s[5 + n..]))
      else
        match Inflate(s[5 + n..])
        case None => None
        case Some(r) => Some(Inflated(s[5..5 + n] + r.raw, r.rest))
  }

  predicate IsSum(b: Bytes, raw: Bytes) {
    |b| == 4 && FromBe32(b) == Adler32(raw)
  }

  lemma SumRead(raw: Bytes)
    ensures IsSum(Be32(Adler32(raw)), raw)
  {
    Be32RoundTrip(Adler32(raw));
    hide Be32, FromBe32;
    assert Adler32(raw) < WORD;
  }

  /** Section 2.2 of RFC 1950: the deflate method, a window of at most 32K, no dictionary, and the checksum last. */
  function ZlibDecode(s: Bytes): Option<Bytes> {
    if |s| < 2 || s[0] % 16 != 8 || s[0] / 16 > 7 then None
    else if (s[0] as int * 256 + s[1] as int) % 31 != 0 || (s[1] / 32) % 2 != 0 then None
    else
      match Inflate(s[2..])
      case None => None
      case Some(r) => if IsSum(r.rest, r.raw) then Some(r.raw) else None
  }

  lemma InflateBlock(data: Bytes, fin: bool, rest: Bytes)
    requires |data| <= STORED_MAX
    ensures Inflate(StoredBlock(data, fin) + rest) ==
      if fin then Some(Inflated(data, rest))
      else match Inflate(rest) case None => None case Some(r) => Some(Inflated(data + r.raw, r.rest))
  {
    var s := StoredBlock(data, fin) + rest;
    assert s[5..5 + |data|] == data && s[5 + |data|..] == rest;
  }

  /** Inflating the stored blocks gives back what was stored, whatever follows them. */
  lemma {:induction false} InflateStored(raw: Bytes, rest: Bytes)
    ensures Inflate(StoredBlocks(raw) + rest) == Some(Inflated(raw, rest))
    decreases |raw|
  {
    hide Inflate, StoredBlock;
    if |raw| <= STORED_MAX {
      InflateBlock(raw, true, rest);
    } else {
      var data, more := raw[..STORED_MAX], raw[STORED_MAX..];
      InflateStored(more, rest);
      assert data + more == raw;
      InflateBlock(data, false, StoredBlocks(more) + rest);
      assert StoredBlock(data, false) + StoredBlocks(more) + rest
          == StoredBlock(data, false) + (StoredBlocks(more) + rest);
    }
  }

  /** A decoder gets back exactly what went into the stream. */
  lemma ZlibRoundTrip(raw: Bytes)
    ensures ZlibDecode(ZlibStored(raw)) == Some(raw)
  {
    SumRead(raw);
    hide Inflate, StoredBlocks, Adler32, Be32, IsSum;
    var z := ZlibStored(raw);
    assert z[2..] == StoredBlocks(raw) + Be32(Adler32(raw));
    InflateStored(raw, Be32(Adler32(raw)));
  }
}
