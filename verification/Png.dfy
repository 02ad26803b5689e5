/** The PNG writer as a byte sequence, and a decoder after RFC 2083 that gets the image back. */
module Png {
  import opened Bytes
  import opened Crc
  import opened Zlib

  /** Rows of 8-bit pixels, the channels side by side. */
  datatype Image = Image(width: nat, height: nat, channels: nat, pixels: Bytes)

  const SIGNATURE: Bytes := [0x89, 0x50, 0x4e, 0x47, 0x0d, 0x0a, 0x1a, 0x0a]
  const IHDR: Bytes := [0x49, 0x48, 0x44, 0x52]
  const IDAT: Bytes := [0x49, 0x44, 0x41, 0x54]
  const IEND: Bytes := [0x49, 0x45, 0x4e, 0x44]

  /** The largest length a chunk may have. */
  const LENGTH_MAX := 0x7fff_ffff

  // ---------------------------------------------------------------- writing

  /** `put_be32` of a checksum. */
  function CrcBytes(c: bv32): (b: Bytes)
    ensures |b| == 4
  {
    Be32(c as int)
  }

  lemma CrcBytesRead(c: bv32)
    ensures FromBe32(CrcBytes(c)) == c as int
  {
    hide FromBe32, Be32;
    ReadBack(c as int);
  }

  lemma ReadBack(v: nat)
    requires v < WORD
    ensures FromBe32(Be32(v)) == v
  {
    Be32RoundTrip(v);
  }

  function Chunk(kind: Bytes, data: Bytes): Bytes {
    Be32(|data|) + kind + data + CrcBytes(Crc32(kind + data))
  }

  /** A product the proofs take one step at a time. */
  function Times(a: nat, b: nat): nat {
    a * b
  }

  lemma TimesStep(a: nat, b: nat)
    ensures Times(a, b + 1) == Times(a, b) + a && Times(a, 0) == 0
  {
  }

  /** Every row is preceded by filter type 0. */
  function FilteredRows(pixels: Bytes, rowBytes: nat, height: nat): Bytes
    requires |pixels| == Times(rowBytes, height)
    decreases height
  {
    if height == 0 then []
    else
      TimesStep(rowBytes, height - 1);
      [0] + pixels[..rowBytes] + FilteredRows(pixels[rowBytes..], rowBytes, height - 1)
  }

  predicate WellFormed(img: Image) {
    |img.pixels| == Times(img.width * img.channels, img.height)
  }

  function RawOf(img: Image): Bytes
    requires WellFormed(img)
  {
    FilteredRows(img.pixels, img.width * img.channels, img.height)
  }

  function ColourType(channels: nat): byte {
    if channels == 4 then 6 else 2
  }

  function Header(img: Image): Bytes {
    Be32(img.width) + Be32(img.height) + [8, ColourType(img.channels), 0, 0, 0]
  }

  function PngFile(img: Image): Bytes
    requires WellFormed(img)
  {
    SIGNATURE + Chunk(IHDR, Header(img)) + Chunk(IDAT, ZlibStored(RawOf(img))) + Chunk(IEND, [])
  }

  // ---------------------------------------------------------------- the writer's loops

  method WriteChunk(table: array<bv32>, kind: Bytes, data: Bytes) returns (bytes: Bytes)
    requires IsTable(table[..])
    ensures bytes == Chunk(kind, data)
  {
    hide IsTable, BitUpdate, Xor, CrcBytes;
    var crc := TableUpdate(table, 0xffffffff, kind);
    BitUpdateConcat(0xffffffff, kind, data);
    crc := TableUpdate(table, crc, data);
    crc := Xor(crc, 0xffffffff);
    bytes := Be32(|data|) + kind + data + CrcBytes(crc);
  }

  method BuildRaw(img: Image) returns (raw: array<byte>)
    requires WellFormed(img)
    ensures fresh(raw) && raw[..] == RawOf(img)
  {
    var rowBytes := img.width * img.channels;
    FilteredSize(img.pixels, rowBytes, img.height);
    raw := new byte[Times(rowBytes + 1, img.height)];
    ghost var all := RawOf(img);
    assert img.pixels[0..] == img.pixels;
    var at: nat, from: nat := 0, 0;
    ghost var done: Bytes := [];
    hide Times, RawOf, FilteredRows;
    for y := 0 to img.height
      invariant at <= raw.Length && raw[..at] == done && |all| == raw.Length
      invariant from <= |img.pixels| && |img.pixels[from..]| == Times(rowBytes, img.height - y)
      invariant done + FilteredRows(img.pixels[from..], rowBytes, img.height - y) == all
    {
      NextRow(img.pixels, from, rowBytes, img.height - y, done);
      done := done + ([0] + img.pixels[from..from + rowBytes]);
      PutRow(raw, at, img.pixels[from..from + rowBytes]);
      at := at + rowBytes + 1;
      from := from + rowBytes;
    }
    NoRows(img.pixels[from..], rowBytes);
    assert done + [] == done;
    assert raw[..at] == raw[..];
  }

  lemma NoRows(pixels: Bytes, rowBytes: nat)
    requires |pixels| == Times(rowBytes, 0)
    ensures FilteredRows(pixels, rowBytes, 0) == []
  {
  }

  lemma NextRow(pixels: Bytes, from: nat, rowBytes: nat, left: nat, before: Bytes)
    requires from <= |pixels| && |pixels[from..]| == Times(rowBytes, left) && left > 0
    ensures from + rowBytes <= |pixels| && |pixels[from + rowBytes..]| == Times(rowBytes, left - 1)
    ensures before + FilteredRows(pixels[from..], rowBytes, left)
         == before + ([0] + pixels[from..from + rowBytes]) + FilteredRows(pixels[from + rowBytes..], rowBytes, left - 1)
  {
    FilteredCons(pixels[from..], rowBytes, left);
    hide FilteredRows, Times;
    assert pixels[from..][..rowBytes] == pixels[from..from + rowBytes];
    assert pixels[from..][rowBytes..] == pixels[from + rowBytes..];
    var row, more := [0] + pixels[from..from + rowBytes], FilteredRows(pixels[from + rowBytes..], rowBytes, left - 1);
    assert before + (row + more) == before + row + more;
  }

  method PutRow(raw: array<byte>, at: nat, row: Bytes)
    requires at + 1 + |row| <= raw.Length
    modifies raw
    ensures raw[..at + |row| + 1] == old(raw[..at]) + ([0] + row)
  {
    Put(raw, at, [0]);
    Put(raw, at + 1, row);
  }

  lemma FilteredCons(pixels: Bytes, rowBytes: nat, height: nat)
    requires |pixels| == Times(rowBytes, height) && height > 0
    ensures rowBytes <= |pixels| && |pixels[rowBytes..]| == Times(rowBytes, height - 1)
    ensures FilteredRows(pixels, rowBytes, height)
         == [0] + pixels[..rowBytes] + FilteredRows(pixels[rowBytes..], rowBytes, height - 1)
  {
    TimesStep(rowBytes, height - 1);
  }

  lemma {:induction false} FilteredSize(pixels: Bytes, rowBytes: nat, height: nat)
    requires |pixels| == Times(rowBytes, height)
    ensures |FilteredRows(pixels, rowBytes, height)| == Times(rowBytes + 1, height)
    decreases height
  {
    hide Times;
    TimesStep(rowBytes + 1, 0);
    if height > 0 {
      FilteredCons(pixels, rowBytes, height);
      TimesStep(rowBytes + 1, height - 1);
      FilteredSize(pixels[rowBytes..], rowBytes, height - 1);
    }
  }

  /** The file, unless there is no row to store. */
  method WritePng(img: Image) returns (file: Option<Bytes>)
    requires WellFormed(img)
    ensures file == if img.height > 0 then Some(PngFile(img)) else None
  {
    var table := MakeTable();
    var raw := BuildRaw(img);
    RawEmpty(img);
    hide IsTable, Chunk, RawOf, ZlibStored;
    var z, len, fits := MakeZlibStored(raw[..]);
    if !fits {
      return None;
    }
    var header := Be32(img.width) + Be32(img.height) + [8, if img.channels == 4 then 6 else 2, 0, 0, 0];
    var first := WriteChunk(table, IHDR, header);
    var data := WriteChunk(table, IDAT, z[..]);
    var last := WriteChunk(table, IEND, []);
    file := Some(SIGNATURE + first + data + last);
  }

  lemma RawEmpty(img: Image)
    requires WellFormed(img)
    ensures RawOf(img) == [] <==> img.height == 0
  {
    if img.height > 0 {
      FilteredSize(img.pixels, img.width * img.channels, img.height);
      TimesStep(img.width * img.channels + 1, img.height - 1);
    }
  }

  // ---------------------------------------------------------------- decoding

  datatype Parsed = Parsed(kind: Bytes, data: Bytes, rest: Bytes)

  /** The four bytes are the checksum, most significant first. */
  predicate IsCrc(b: Bytes, c: bv32)
    requires |b| == 4
  {
    FromBe32(b) == c as int
  }

  /** Section 3.2 of RFC 2083: length, type, data and the CRC over type and data. */
  function ParseChunk(s: Bytes): Option<Parsed> {
    if |s| < 12 then None
    else
      var n := FromBe32(s[0..4]);
      if n > LENGTH_MAX || |s| < 12 + n then None
      else if !IsCrc(s[8 + n..12 + n], Crc32(s[4..8 + n])) then None
      else Some(Parsed(s[4..8], s[8..8 + n], s[12 + n..]))
  }

  /** The image data is that of consecutive IDAT chunks up to the IEND chunk, after which nothing may follow. */
  function ParseData(s: Bytes): Option<Bytes>
    decreases |s|
  {
    match ParseChunk(s)
    case None => None
    case Some(c) =>
      if c.kind == IEND && c.data == [] && c.rest == [] then Some([])
      else if c.kind == IDAT && |c.rest| < |s| then
        match ParseData(c.rest)
        case None => None
        case Some(more) => Some(c.data + more)
      else None
  }

  /** Section 6.2 of RFC 2083, filter type 0. */
  function Unfilter(raw: Bytes, rowBytes: nat, height: nat): Option<Bytes>
    decreases height
  {
    if height == 0 then if raw == [] then Some([]) else None
    else if |raw| < rowBytes + 1 || raw[0] != 0 then None
    else
      match Unfilter(raw[rowBytes + 1..], rowBytes, height - 1)
      case None => None
      case Some(more) => Some(raw[1..rowBytes + 1] + more)
  }

  function DecodeHeader(h: Bytes): Option<Image> {
    if |h| != 13 || h[8..] != [8, h[9], 0, 0, 0] || h[9] !in {2, 6} then None
    else
      var img := Image(FromBe32(h[0..4]), FromBe32(h[4..8]), if h[9] == 6 then 4 else 3, []);
      if 0 < img.width <= LENGTH_MAX && 0 < img.height <= LENGTH_MAX then Some(img) else None
  }

  /** The image of these dimensions that the filtered rows hold. */
  function FromRows(width: nat, height: nat, channels: nat, raw: Bytes): Option<Image> {
    match Unfilter(raw, width * channels, height)
    case None => None
    case Some(pixels) => Some(Image(width, height, channels, pixels))
  }

  function DecodePng(file: Bytes): Option<Image> {
    if |file| < 8 || file[..8] != SIGNATURE then None
    else
      match ParseChunk(file[8..])
      case None => None
      case Some(first) =>
        if first.kind != IHDR then None
        else
          match DecodeHeader(first.data)
          case None => None
          case Some(img) =>
            match ParseData(first.rest)
            case None => None
            case Some(z) =>
              match ZlibDecode(z)
              case None => None
              case Some(raw) => FromRows(img.width, img.height, img.channels, raw)
  }

  // ---------------------------------------------------------------- round trip

  lemma ParseWritten(kind: Bytes, data: Bytes, rest: Bytes)
    requires |kind| == 4 && |data| <= LENGTH_MAX
    ensures ParseChunk(Chunk(kind, data) + rest) == Some(Parsed(kind, data, rest))
  {
    CrcBytesRead(Crc32(kind + data));
    hide Crc32, CrcBytes, Be32, FromBe32;
    var crc := CrcBytes(Crc32(kind + data));
    assert IsCrc(crc, Crc32(kind + data));
    hide IsCrc;
    Be32RoundTrip(|data|);
    var s := Chunk(kind, data) + rest;
    var n := |data|;
    assert s[0..4] == Be32(n);
    assert s[4..8] == kind && s[8..8 + n] == data && s[4..8 + n] == kind + data;
    assert s[8 + n..12 + n] == crc && s[12 + n..] == rest;
  }

  /** A length that takes more than 31 bits is not accepted. */
  lemma TooLong(kind: Bytes, data: Bytes, rest: Bytes)
    requires |kind| == 4 && LENGTH_MAX < |data| < WORD
    ensures ParseChunk(Chunk(kind, data) + rest) == None
  {
    hide Crc32, CrcBytes, IsCrc, Be32, FromBe32;
    Be32RoundTrip(|data|);
    var s := Chunk(kind, data) + rest;
    assert s[0..4] == Be32(|data|);
  }

  lemma {:induction false} UnfilterRows(pixels: Bytes, rowBytes: nat, height: nat)
    requires |pixels| == Times(rowBytes, height)
    ensures Unfilter(FilteredRows(pixels, rowBytes, height), rowBytes, height) == Some(pixels)
    decreases height
  {
    hide Times;
    TimesStep(rowBytes, 0);
    if height > 0 {
      FilteredCons(pixels, rowBytes, height);
      var rest := FilteredRows(pixels[rowBytes..], rowBytes, height - 1);
      var raw := [0] + pixels[..rowBytes] + rest;
      assert pixels[..rowBytes] + pixels[rowBytes..] == pixels;
      assert raw[1..rowBytes + 1] == pixels[..rowBytes] && raw[rowBytes + 1..] == rest;
      UnfilterRows(pixels[rowBytes..], rowBytes, height - 1);
    }
  }

  lemma ParseDataWritten(z: Bytes)
    requires |z| <= LENGTH_MAX
    ensures ParseData(Chunk(IDAT, z) + Chunk(IEND, [])) == Some(z)
  {
    var last := Chunk(IEND, []);
    hide Chunk, ParseChunk;
    assert last + [] == last && z + [] == z;
    ParseWritten(IEND, [], []);
    ParseWritten(IDAT, z, last);
    ChunkSize(IDAT, z);
  }

  lemma ChunkSize(kind: Bytes, data: Bytes)
    ensures |Chunk(kind, data)| == 8 + |kind| + |data|
  {
  }

  /** The size of the image data, as the writer computes it beforehand. */
  function StreamSize(img: Image): nat {
    Capacity(Times(img.width * img.channels + 1, img.height))
  }

  lemma StreamLength(img: Image)
    requires WellFormed(img) && img.height > 0
    ensures |ZlibStored(RawOf(img))| == StreamSize(img)
  {
    hide ZlibStored, Capacity, Times;
    FilteredSize(img.pixels, img.width * img.channels, img.height);
    RawEmpty(img);
    StreamFillsBuffer(RawOf(img));
  }

  /** What a PNG file can express: positive dimensions, one of two kinds of pixels, a 31-bit length of image data. */
  predicate Expressible(img: Image) {
    0 < img.width && 0 < img.height && (img.channels == 3 || img.channels == 4) && StreamSize(img) <= LENGTH_MAX
  }

  lemma HeaderRoundTrip(img: Image)
    requires 0 < img.width <= LENGTH_MAX && 0 < img.height <= LENGTH_MAX
    ensures DecodeHeader(Header(img)) == Some(Image(img.width, img.height, NamedChannels(img.channels), []))
  {
    hide Be32, FromBe32;
    Be32RoundTrip(img.width);
    Be32RoundTrip(img.height);
    var h := Header(img);
    assert h[0..4] == Be32(img.width) && h[4..8] == Be32(img.height);
    assert h[8..] == [8, ColourType(img.channels), 0, 0, 0];
  }

  lemma FileParts(img: Image)
    requires WellFormed(img)
    ensures var file := PngFile(img); |file| >= 8 && file[..8] == SIGNATURE
    ensures PngFile(img)[8..] == Chunk(IHDR, Header(img)) + (Chunk(IDAT, ZlibStored(RawOf(img))) + Chunk(IEND, []))
  {
    hide Chunk, ZlibStored, Header, RawOf;
    var tail := Chunk(IDAT, ZlibStored(RawOf(img))) + Chunk(IEND, []);
    assert PngFile(img) == SIGNATURE + (Chunk(IHDR, Header(img)) + tail);
  }

  function NamedChannels(channels: nat): nat {
    if channels == 4 then 4 else 3
  }

  /** What a decoder makes of the file: the header's kind of image, over the rows written. */
  lemma DecodedFile(img: Image)
    requires WellFormed(img) && 0 < img.width <= LENGTH_MAX && 0 < img.height <= LENGTH_MAX
    requires StreamSize(img) <= LENGTH_MAX
    ensures DecodePng(PngFile(img)) == FromRows(img.width, img.height, NamedChannels(img.channels), RawOf(img))
  {
    StreamLength(img);
    FileParts(img);
    var z := ZlibStored(RawOf(img));
    var tail := Chunk(IDAT, z) + Chunk(IEND, []);
    hide PngFile, Chunk, ParseChunk, ZlibStored, ZlibDecode, Header, DecodeHeader, RawOf, ParseData, FromRows;
    HeaderSize(img);
    ParseWritten(IHDR, Header(img), tail);
    HeaderRoundTrip(img);
    ParseDataWritten(z);
    ZlibRoundTrip(RawOf(img));
  }

  /** Image data that takes a 32-bit length makes a file no decoder accepts. */
  lemma OversizeRefused(img: Image)
    requires WellFormed(img) && 0 < img.width <= LENGTH_MAX && 0 < img.height <= LENGTH_MAX
    requires LENGTH_MAX < StreamSize(img) < WORD
    ensures DecodePng(PngFile(img)) == None
  {
    StreamLength(img);
    FileParts(img);
    var z := ZlibStored(RawOf(img));
    var tail := Chunk(IDAT, z) + Chunk(IEND, []);
    hide PngFile, Chunk, ParseChunk, ZlibStored, ZlibDecode, Header, DecodeHeader, RawOf, FromRows, StreamSize;
    HeaderSize(img);
    ParseWritten(IHDR, Header(img), tail);
    TooLong(IDAT, z, Chunk(IEND, []));
  }

  /** Nor does a decoder accept an image without pixels. */
  lemma EmptyRefused(img: Image)
    requires WellFormed(img) && img.width <= LENGTH_MAX && img.height <= LENGTH_MAX
    requires img.width == 0 || img.height == 0
    ensures DecodePng(PngFile(img)) == None
  {
    FileParts(img);
    var tail := Chunk(IDAT, ZlibStored(RawOf(img))) + Chunk(IEND, []);
    HeaderEmpty(img);
    hide PngFile, Chunk, ParseChunk, ZlibStored, ZlibDecode, Header, DecodeHeader, RawOf, FromRows;
    HeaderSize(img);
    ParseWritten(IHDR, Header(img), tail);
  }

  lemma HeaderEmpty(img: Image)
    requires img.width <= LENGTH_MAX && img.height <= LENGTH_MAX && (img.width == 0 || img.height == 0)
    ensures DecodeHeader(Header(img)) == None
  {
    hide Be32, FromBe32;
    Be32RoundTrip(img.width);
    Be32RoundTrip(img.height);
    var h := Header(img);
    assert h[0..4] == Be32(img.width) && h[4..8] == Be32(img.height);
  }

  /**
   A decoder gets the image back exactly when a PNG file can express it. Dimensions are the program's `int`, and the
   length of the image data fits the 32 bits it is written in.
   */
  lemma PngRoundTrip(img: Image)
    requires WellFormed(img) && img.width <= LENGTH_MAX && img.height <= LENGTH_MAX && StreamSize(img) < WORD
    ensures DecodePng(PngFile(img)) == Some(img) <==> Expressible(img)
  {
    hide PngFile, DecodePng, RawOf, Unfilter, StreamSize;
    if img.width == 0 || img.height == 0 {
      EmptyRefused(img);
    } else if StreamSize(img) > LENGTH_MAX {
      OversizeRefused(img);
    } else {
      DecodedFile(img);
      if img.channels == 3 || img.channels == 4 {
        RawRoundTrip(img);
      }
    }
  }

  lemma LastCrc()
    ensures CrcBytes(0xae426082) == [174, 66, 96, 130]
  {
    assert 0xae426082 as bv32 as int == 0xae426082;
  }

  lemma ChunkIs(kind: Bytes, data: Bytes, size: Bytes, crc: bv32, tail: Bytes)
    requires Be32(|data|) == size && Crc32(kind + data) == crc && CrcBytes(crc) == tail
    ensures Chunk(kind, data) == size + kind + data + tail
  {
  }

  lemma EndKind()
    ensures IEND == [0x49, 0x45, 0x4e, 0x44] && IEND + [] == IEND
  {
  }

  /** The chunk that holds nothing. */
  lemma EndChunk()
    ensures Chunk(IEND, []) == [0, 0, 0, 0] + [73, 69, 78, 68] + [174, 66, 96, 130]
  {
    assert Be32(0) == [0, 0, 0, 0];
    hide *;
    EndKind();
    LastChecksum();
    LastCrc();
    ChunkIs(IEND, [], [0, 0, 0, 0], 0xae426082, [174, 66, 96, 130]);
    assert [0, 0, 0, 0] + IEND + [] == [0, 0, 0, 0] + IEND;
  }

  lemma HeaderChunk(data: Bytes)
    requires |data| == 13
    ensures Chunk(IHDR, data)[..8] == [0, 0, 0, 13] + [73, 72, 68, 82]
  {
    assert Be32(13) == [0, 0, 0, 13];
    hide Crc32, Be32, CrcBytes;
  }

  lemma Framed(a: Bytes, b: Bytes, c: Bytes, d: Bytes)
    requires |a| == 8 && |b| >= 8
    ensures (a + b + c + d)[..16] == a + b[..8] && (a + b + c + d)[|a + b + c|..] == d
  {
  }

  /** A file begins with the signature and the header's chunk, and ends with the chunk that holds nothing. */
  lemma FileFrame(img: Image)
    requires WellFormed(img)
    ensures var file := PngFile(img);
      && |file| >= 28
      && file[..16] == [137, 80, 78, 71, 13, 10, 26, 10] + ([0, 0, 0, 13] + [73, 72, 68, 82])
      && file[|file| - 12..] == [0, 0, 0, 0] + [73, 69, 78, 68] + [174, 66, 96, 130]
  {
    HeaderSize(img);
    HeaderChunk(Header(img));
    EndChunk();
    var first, data, last := Chunk(IHDR, Header(img)), Chunk(IDAT, ZlibStored(RawOf(img))), Chunk(IEND, []);
    hide Chunk, Header, ZlibStored, RawOf;
    Framed(SIGNATURE, first, data, last);
  }

  lemma HeaderSize(img: Image)
    ensures |Header(img)| == 13
  {
  }

  lemma RawRoundTrip(img: Image)
    requires WellFormed(img)
    ensures Unfilter(RawOf(img), img.width * img.channels, img.height) == Some(img.pixels)
  {
    UnfilterRows(img.pixels, img.width * img.channels, img.height);
  }
}
