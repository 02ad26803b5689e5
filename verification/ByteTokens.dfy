/** What becomes of a single character: its own token, or the tokens of its bytes if it has none. */
module ByteTokens {
  import opened Bytes
  import opened Utf8
  import opened BpeSpec
  import opened BpeEncode
  import opened Tokenizer
  import ByteCodec

  /** As many bytes as the first one announces, or one byte on its own. */
  predicate OneCharacter(ch: Bytes) {
    ch != [] && (|ch| == 1 || |ch| == LeadLength(ch[0]))
  }

  /** The vocabulary has a token for every raw byte. */
  ghost predicate AllByteTokens(m: Model) {
    m.vocab.nFallback > 0 && forall b: byte :: IsByteToken(m, m.vocab.fallbackId(b), b)
  }

  // ---------------------------------------------------------------- characters one by one

  /** A text is split behind its first character, and a byte that announces more than there is stands alone. */
  lemma FirstCharacter(v: Vocab, text: Bytes, n: nat)
    requires text != [] && n == if LeadLength(text[0]) <= |text| then LeadLength(text[0]) else 1
    ensures Split(v, text) == Split(v, text[..n]) + Split(v, text[n..])
  {
    hide CharPieces;
    assert text[..n][..n] == text[..n] && text[..n][n..] == [];
    assert CharPieces(v, text[..n]) + [] == CharPieces(v, text[..n]);
  }

  lemma CodePointFirst(v: Vocab, cp: nat, rest: Bytes)
    requires cp < CP_LIMIT
    ensures Split(v, CpToUtf8(cp) + rest) == Split(v, CpToUtf8(cp)) + Split(v, rest)
  {
    var e := CpToUtf8(cp);
    CpRoundTrip(cp, []);
    assert (e + rest)[0] == e[0] && (e + rest)[..|e|] == e && (e + rest)[|e|..] == rest;
    hide CpToUtf8, Split;
    FirstCharacter(v, e + rest, |e|);
  }

  lemma OneSplit(v: Vocab, ch: Bytes)
    requires OneCharacter(ch)
    ensures Split(v, ch) == CharPieces(v, ch)
  {
    hide CharPieces;
    assert ch[..|ch|] == ch && ch[|ch|..] == [];
    assert CharPieces(v, ch) + [] == CharPieces(v, ch);
  }

  /** A character with a token is that token; without one, and without byte tokens, it is unknown. */
  lemma KnownCharacter(v: Vocab, ch: Bytes, id: int)
    requires OneCharacter(ch) && LooksUp(v, ch, id) && (id >= 0 || v.nFallback == 0)
    ensures Encoded(v, ch) == [if id >= 0 then id else v.rules.unknown]
  {
    OneSplit(v, ch);
    TokenOfCharIs(v, ch, id);
    hide FnvUpdate, Split;
    NaiveMergeDone(v.rules, CharPieces(v, ch));
  }

  // ---------------------------------------------------------------- characters without a token

  ghost predicate AllLocked(ps: seq<Piece>) {
    forall k :: 0 <= k < |ps| ==> ps[k].locked
  }

  lemma LockedStay(r: Rules, ps: seq<Piece>)
    requires AllLocked(ps)
    ensures NaiveMerge(r, ps) == ps
  {
    NaiveMergeDone(r, ps);
  }

  /** The first byte of a character without a token, in a sentencepiece vocabulary, is a piece of its own. */
  lemma FirstBytePiece(v: Vocab, s: Bytes)
    requires s != [] && v.sentencepiece && v.fallbackId(s[0]) >= 0
    ensures var ps, rest := FallbackPieces(v, s), FallbackPieces(v, s[1..]);
      |ps| == 1 + |rest| && ps[0].locked && ps[1..] == rest && Ids(ps) == [v.fallbackId(s[0])] + Ids(rest)
  {
    hide FnvUpdate;
    var ps, rest := FallbackPieces(v, s), FallbackPieces(v, s[1..]);
    var first := FallbackPiece(v, s[..1], s[0]);
    assert ps == [first] + rest;
    assert first.locked && first.id == v.fallbackId(s[0]);
    hide FallbackPieces, FallbackPiece;
    assert Ids(ps) == [first.id] + Ids(rest);
  }

  lemma NoBytePieces(m: Model)
    ensures FallbackPieces(m.vocab, []) == [] && DecodedBytes(m, Ids([])) == []
  {
    NothingIn(m);
    assert Ids([]) == [];
  }

  lemma LockedCons(ps: seq<Piece>)
    requires ps != [] && ps[0].locked && AllLocked(ps[1..])
    ensures AllLocked(ps)
  {
    assert forall k :: 1 <= k < |ps| ==> ps[k] == ps[1..][k - 1];
  }

  /** Each byte of such a character is a piece that never merges, and their tokens decode to it. */
  lemma {:induction false} BytePieces(m: Model, s: Bytes)
    requires m.vocab.sentencepiece && AllByteTokens(m)
    ensures AllLocked(FallbackPieces(m.vocab, s)) && DecodedBytes(m, Ids(FallbackPieces(m.vocab, s))) == s
    decreases |s|
  {
    hide FallbackPieces, DecodedBytes, Ids, AllLocked;
    if s == [] {
      NoBytePieces(m);
      NothingLocked();
    } else {
      var id := m.vocab.fallbackId(s[0]);
      assert IsByteToken(m, id, s[0]);
      BytePieces(m, s[1..]);
      FirstBytePiece(m.vocab, s);
      hide AllByteTokens;
      LockedCons(FallbackPieces(m.vocab, s));
      DecodedAppend(m, [id], Ids(FallbackPieces(m.vocab, s[1..])));
      ByteTokenAlone(m, id, s[0]);
      assert s == [s[0]] + s[1..];
    }
  }

  lemma NothingLocked()
    ensures AllLocked([])
  {
  }

  lemma ByteTokenAlone(m: Model, id: int, b: byte)
    requires IsByteToken(m, id, b)
    ensures DecodedBytes(m, [id]) == [b]
  {
    ByteTokenBytes(m, id, b);
    hide DecodedBytes, TokenBytes, IsByteToken;
    NothingIn(m);
    DecodedSnoc(m, [], id);
    assert [] + [id] == [id];
    assert [] + [b] == [b];
  }

  /** In a sentencepiece vocabulary the ids of a character without a token decode to its bytes. */
  lemma CharacterOfBytes(m: Model, ch: Bytes, id: int)
    requires m.vocab.sentencepiece && AllByteTokens(m)
    requires OneCharacter(ch) && LooksUp(m.vocab, ch, id) && id < 0
    ensures DecodedBytes(m, Encoded(m.vocab, ch)) == ch
  {
    OneSplit(m.vocab, ch);
    TokenOfCharIs(m.vocab, ch, id);
    BytePieces(m, ch);
    hide Split, FallbackPieces, DecodedBytes;
    LockedStay(m.vocab.rules, FallbackPieces(m.vocab, ch));
  }

  /** In a byte-level vocabulary the id of a character of the byte alphabet without a token decodes to its byte. */
  lemma CharacterOfByte(m: Model, b: byte, id: int)
    requires !m.vocab.sentencepiece && AllByteTokens(m)
    requires LooksUp(m.vocab, ByteCodec.CharOf(b), id) && id < 0
    ensures DecodedBytes(m, Encoded(m.vocab, ByteCodec.CharOf(b))) == [b]
  {
    var c := ByteCodec.CharOf(b);
    CpRoundTrip(ByteCodec.ByteToCp(b), []);
    OneSplit(m.vocab, c);
    TokenOfCharIs(m.vocab, c, id);
    ByteTokenPiece(m.vocab, b);
    hide Split, FallbackPieces, DecodedBytes, FnvUpdate, ByteCodec.CharOf;
    var ps := FallbackPieces(m.vocab, c);
    LockedStay(m.vocab.rules, ps);
    assert Ids(ps) == [m.vocab.fallbackId(b)];
    ByteTokenAlone(m, m.vocab.fallbackId(b), b);
  }

  /** Any other character without a token becomes, as a whole, the token of its first byte. */
  lemma CharacterOfFirstByte(v: Vocab, cp: nat, id: int)
    requires !v.sentencepiece && v.nFallback > 0 && cp < CP_LIMIT
    requires forall b: byte :: CpToUtf8(cp) != ByteCodec.CharOf(b)
    requires LooksUp(v, CpToUtf8(cp), id) && id < 0
    ensures var fid := v.fallbackId(CpToUtf8(cp)[0]);
      Encoded(v, CpToUtf8(cp)) == [if fid >= 0 then fid else v.rules.unknown]
  {
    var ch := CpToUtf8(cp);
    CpRoundTrip(cp, []);
    OneSplit(v, ch);
    TokenOfCharIs(v, ch, id);
    ByteCodec.OutsideAlphabet(cp);
    assert ch + [] == ch && ch[..|ch|] == ch && ch[|ch|..] == [];
    assert FallbackUnit(v, ch) == (|ch|, ch[0]);
    hide FallbackUnit, CpToUtf8, Split, FnvUpdate;
    assert FallbackPieces(v, ch) == [FallbackPiece(v, ch, ch[0])];
    NaiveMergeDone(v.rules, FallbackPieces(v, ch));
  }
}
