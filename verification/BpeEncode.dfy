/** From text to pieces to token ids: the uncached encoder around the merge loop. */
module BpeEncode {
  import opened Bytes
  import opened Utf8
  import opened BpeSpec
  import BpeMerge
  import ByteCodec

  /**
   What the encoder reads of a vocabulary. `byteId` and `charId` are the one-byte and the hashed
   lookups of a character's token (negative for none); `fallbackId` maps raw bytes to byte tokens.
   */
  datatype Vocab = Vocab(
    byteId: byte -> int,
    charId: (bv64, Bytes) -> int,
    nFallback: nat,
    fallbackId: byte -> int,
    sentencepiece: bool,
    rules: Rules)

  /** The character at the front of the text; one byte if its lead byte announces more than there is. */
  function CharLength(text: Bytes): (n: nat)
    requires text != []
    ensures 1 <= n <= |text|
  {
    var n := LeadLength(text[0]);
    if n > |text| then 1 else n
  }

  function TokenOfChar(v: Vocab, ch: Bytes): int
    requires ch != []
  {
    if |ch| == 1 then v.byteId(ch[0]) else v.charId(Fnv(ch), ch)
  }

  /** How much of `s` one byte-fallback piece covers, and the raw byte it is looked up by. */
  function FallbackUnit(v: Vocab, s: Bytes): (r: (nat, byte))
    requires s != []
    ensures 1 <= r.0 <= |s|
  {
    if v.sentencepiece then (1, s[0])
    else
      var (cp, k) := Utf8ToCp(s);
      var b := if cp < 512 then ByteCodec.CpToByte(cp) else -1;
      (k, if b >= 0 then b else s[0])
  }

  function FallbackPiece(v: Vocab, text: Bytes, raw: byte): Piece {
    var fid := v.fallbackId(raw);
    Piece(text, Fnv(text), IdOrUnknown(v.rules, fid), fid >= 0)
  }

  function FallbackPieces(v: Vocab, s: Bytes): seq<Piece>
    decreases |s|
  {
    if s == [] then [] else
      var (k, raw) := FallbackUnit(v, s);
      [FallbackPiece(v, s[..k], raw)] + FallbackPieces(v, s[k..])
  }

  /** A character is one piece, or byte-fallback pieces if it has no token and the vocabulary has such. */
  function CharPieces(v: Vocab, ch: Bytes): seq<Piece>
    requires ch != []
  {
    var id := TokenOfChar(v, ch);
    if id < 0 && v.nFallback > 0 then FallbackPieces(v, ch)
    else [Piece(ch, Fnv(ch), IdOrUnknown(v.rules, id), false)]
  }

  /** The pieces merging starts from. */
  function Split(v: Vocab, text: Bytes): seq<Piece>
    decreases |text|
  {
    if text == [] then [] else
      var n := CharLength(text);
      CharPieces(v, text[..n]) + Split(v, text[n..])
  }

  /** The encoding by the textbook rule. */
  function Encoded(v: Vocab, text: Bytes): seq<nat> {
    Ids(NaiveMerge(v.rules, Split(v, text)))
  }

  /** Status and ids of an encoder call with room for `maxOut` ids. */
  datatype Outcome = Ok(ids: seq<nat>) | TooMany

  function Answer(v: Vocab, text: Bytes, maxOut: int): Outcome {
    if text == [] || |Encoded(v, text)| <= maxOut then Ok(Encoded(v, text)) else TooMany
  }

  // ---------------------------------------------------------------- what splitting keeps

  lemma {:induction false} FallbackKeepsText(v: Vocab, s: Bytes)
    ensures Flatten(Texts(FallbackPieces(v, s))) == s && HashesCached(FallbackPieces(v, s))
    ensures |FallbackPieces(v, s)| <= |s| && (s != [] ==> |FallbackPieces(v, s)| > 0)
    decreases |s|
  {
    hide FnvUpdate, FallbackUnit;
    if s != [] {
      var (k, raw) := FallbackUnit(v, s);
      var first, rest := FallbackPiece(v, s[..k], raw), FallbackPieces(v, s[k..]);
      FallbackKeepsText(v, s[k..]);
      assert Texts([first] + rest) == [s[..k]] + Texts(rest);
      FlattenCons(s[..k], Texts(rest));
      assert s == s[..k] + s[k..];
    }
  }

  lemma CharKeepsText(v: Vocab, ch: Bytes)
    requires ch != []
    ensures Flatten(Texts(CharPieces(v, ch))) == ch && HashesCached(CharPieces(v, ch))
    ensures 1 <= |CharPieces(v, ch)| <= |ch|
  {
    if TokenOfChar(v, ch) < 0 && v.nFallback > 0 {
      FallbackKeepsText(v, ch);
    } else {
      var ps := CharPieces(v, ch);
      assert Texts(ps) == [ch];
      assert Flatten([ch]) == ch + Flatten([ch][1..]);
    }
  }

  /** Two runs of pieces side by side spell the two texts side by side. */
  lemma SideBySide(a: seq<Piece>, b: seq<Piece>)
    ensures Flatten(Texts(a + b)) == Flatten(Texts(a)) + Flatten(Texts(b))
    ensures HashesCached(a) && HashesCached(b) ==> HashesCached(a + b)
  {
    hide FnvUpdate, Flatten;
    assert Texts(a + b) == Texts(a) + Texts(b);
    FlattenAppend(Texts(a), Texts(b));
  }

  /** Splitting loses no byte, caches the right hashes, and makes no more pieces than bytes. */
  lemma {:induction false} SplitKeepsText(v: Vocab, text: Bytes)
    ensures Flatten(Texts(Split(v, text))) == text && HashesCached(Split(v, text))
    ensures |Split(v, text)| <= |text| && (text != [] ==> |Split(v, text)| > 0)
    decreases |text|
  {
    hide Flatten, Fnv, CharLength, CharPieces, Texts, HashesCached;
    if text == [] {
      SpellsNothing();
    } else {
      var n := CharLength(text);
      var ch, rest := text[..n], text[n..];
      CharKeepsText(v, ch);
      SplitKeepsText(v, rest);
      SideBySide(CharPieces(v, ch), Split(v, rest));
      assert text == ch + rest;
      assert Split(v, text) == CharPieces(v, ch) + Split(v, rest);
    }
  }

  lemma SpellsNothing()
    ensures Flatten(Texts([])) == [] && HashesCached([])
  {
    assert Texts([]) == [];
  }

  /** The pieces behind the encoder's output spell the input, and each carries the hash of its bytes. */
  lemma EncodedSpellsText(v: Vocab, text: Bytes)
    ensures Flatten(Texts(NaiveMerge(v.rules, Split(v, text)))) == text
    ensures HashesCached(NaiveMerge(v.rules, Split(v, text)))
    ensures |Encoded(v, text)| <= |text|
  {
    SplitKeepsText(v, text);
    MergePreservesText(v.rules, Split(v, text));
  }

  // ---------------------------------------------------------------- the loops

  /** `pcs[n..]` receives the byte-fallback pieces of `ch`. */
  method PutFallback(v: Vocab, ch: Bytes, pcs: array<Piece>, n: nat) returns (m: nat)
    requires ch != [] && n + |ch| <= pcs.Length
    modifies pcs
    ensures n <= m <= n + |ch| && pcs[..m] == old(pcs[..n]) + FallbackPieces(v, ch)
  {
    hide FnvUpdate, FallbackUnit, FallbackPiece;
    var off := 0;
    m := n;
    while off < |ch|
      invariant off <= |ch| && n <= m <= n + off
      invariant pcs[..m] + FallbackPieces(v, ch[off..]) == old(pcs[..n]) + FallbackPieces(v, ch)
    {
      var (k, raw) := FallbackUnit(v, ch[off..]);
      var piece := FallbackPiece(v, ch[off..][..k], raw);
      assert FallbackPieces(v, ch[off..]) == [piece] + FallbackPieces(v, ch[off..][k..]);
      assert ch[off..][k..] == ch[off + k..];
      ghost var done := pcs[..m];
      pcs[m] := piece;
      assert pcs[..m + 1] == done + [piece];
      assert done + ([piece] + FallbackPieces(v, ch[off + k..])) == done + [piece] + FallbackPieces(v, ch[off + k..]);
      m := m + 1;
      off := off + k;
    }
    assert ch[off..] == [];
  }

  /** `pcs[n..]` receives the pieces of the character `ch`. */
  method PutChar(v: Vocab, ch: Bytes, pcs: array<Piece>, n: nat) returns (m: nat)
    requires ch != [] && n + |ch| <= pcs.Length
    modifies pcs
    ensures n <= m <= n + |ch| && pcs[..m] == old(pcs[..n]) + CharPieces(v, ch)
  {
    var id := TokenOfChar(v, ch);
    if id < 0 && v.nFallback > 0 {
      m := PutFallback(v, ch, pcs, n);
    } else {
      pcs[n] := Piece(ch, Fnv(ch), IdOrUnknown(v.rules, id), false);
      m := n + 1;
    }
  }

  /** The loop that cuts the text into pieces. */
  method PutPieces(v: Vocab, text: Bytes, pcs: array<Piece>) returns (npcs: nat)
    requires |text| <= pcs.Length
    modifies pcs
    ensures npcs <= |text| && pcs[..npcs] == Split(v, text)
  {
    hide CharLength, CharPieces;
    npcs := 0;
    var at := 0;
    while at < |text|
      invariant at <= |text| && npcs <= at
      invariant pcs[..npcs] + Split(v, text[at..]) == Split(v, text)
    {
      ghost var rest := text[at..];
      var n := CharLength(text[at..]);
      var ch := text[at..][..n];
      ghost var done := pcs[..npcs];
      npcs := PutChar(v, ch, pcs, npcs);
      assert Split(v, rest) == CharPieces(v, ch) + Split(v, rest[n..]);
      assert rest[n..] == text[at + n..];
      assert done + (CharPieces(v, ch) + Split(v, rest[n..])) == done + CharPieces(v, ch) + Split(v, rest[n..]);
      at := at + n;
    }
    assert text[at..] == [];
  }

  /** `bpe_encode_uncached`. */
  method EncodeUncached(v: Vocab, text: Bytes, maxOut: int) returns (out: Outcome)
    ensures out == Answer(v, text, maxOut)
  {
    hide Split, FnvUpdate, NaiveMerge;
    if |text| == 0 {
      SplitKeepsText(v, text);
      MergePreservesText(v.rules, Split(v, text));
      return Ok([]);
    }
    var pcs := new Piece[|text|](_ => Piece([], 0, 0, false));
    var npcs := PutPieces(v, text, pcs);
    SplitKeepsText(v, text);
    var bs := new BpeMerge.BpeState(v.rules, pcs, npcs);
    bs.LinkAll();
    bs.Seed();
    bs.MergeLoop();
    var ok, ids := bs.Collect(maxOut);
    out := if ok then Ok(ids) else TooMany;
  }
}
