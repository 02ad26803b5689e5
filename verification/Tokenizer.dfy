/** What the byte-level tokenizer computes as a whole: pretokens, special tokens, decoding, and the round trip. */
module Tokenizer {
  import opened Bytes
  import opened Utf8
  import opened BpeSpec
  import opened BpeEncode
  import opened Pretokens
  import ByteCodec
  import Sp = Specials

  /** A vocabulary entry; `rawByte` is the value of a byte token, negative for any other. */
  datatype Token = Token(text: Bytes, rawByte: int)

  /** What encoding and decoding read: entries, special ids, merge rules, the pretokenizer and the flags. */
  datatype Model = Model(
    tokens: seq<Token>,
    specials: seq<nat>,
    vocab: Vocab,
    unicode: nat,
    addBos: bool, bosId: int, addEos: bool, eosId: int)

  function TextsOf(tokens: seq<Token>): (ts: seq<Bytes>)
    ensures |ts| == |tokens| && forall i :: 0 <= i < |tokens| ==> ts[i] == tokens[i].text
  {
    seq(|tokens|, i requires 0 <= i < |tokens| => tokens[i].text)
  }

  // ---------------------------------------------------------------- what encoding means

  /** The ids of `text[i..]`, pretoken by pretoken, every byte first written in the byte alphabet. */
  function ChunkIds(m: Model, text: Bytes, i: nat): seq<nat>
    requires i <= |text|
    decreases |text| - i
  {
    if i == |text| then []
    else
      var j := PretokenEnd(text, i, m.unicode);
      Encoded(m.vocab, ByteCodec.Encode(text[i..j])) + ChunkIds(m, text, j)
  }

  /** Text up to the next special token, the token, and so on. */
  function TextIds(m: Model, text: Bytes, pos: nat): seq<nat>
    decreases |text| - pos
  {
    if pos >= |text| then []
    else
      match Sp.NextSpecial(TextsOf(m.tokens), m.specials, text, pos)
      case None => ChunkIds(m, text, pos)
      case Some(h) =>
        if pos <= h.at <= |text| && h.id < |m.tokens| && m.tokens[h.id].text != [] then
          ChunkIds(m, text[..h.at], pos) + [h.id] + TextIds(m, text, h.at + |m.tokens[h.id].text|)
        else []
  }

  function Optional(wanted: bool, id: int): seq<nat> {
    if wanted && id >= 0 then [id] else []
  }

  function AllIds(m: Model, text: Bytes, addSpecials: bool): seq<nat> {
    Optional(addSpecials && m.addBos, m.bosId) + TextIds(m, text, 0) + Optional(addSpecials && m.addEos, m.eosId)
  }

  /** Nothing always fits. */
  predicate Fits(ids: seq<nat>, room: int) {
    ids == [] || |ids| <= room
  }

  /** A call with room for `room` ids. */
  function Fit(ids: seq<nat>, room: int): Outcome {
    if Fits(ids, room) then Ok(ids) else TooMany
  }

  // ---------------------------------------------------------------- what decoding means

  /** A byte token is its byte; any other is its text, character by character back to bytes. */
  function TokenBytes(t: Token): Bytes {
    if 0 <= t.rawByte < 256 then [t.rawByte] else ByteCodec.Decode(t.text)
  }

  /** Ids outside the vocabulary stand for nothing. */
  function DecodedBytes(m: Model, ids: seq<int>): Bytes {
    if ids == [] then []
    else
      var id := ids[|ids| - 1];
      DecodedBytes(m, ids[..|ids| - 1]) + if 0 <= id < |m.tokens| then TokenBytes(m.tokens[id]) else []
  }

  // ---------------------------------------------------------------- round trip

  /** Text in the byte alphabet. */
  predicate Clean(s: Bytes) {
    ByteCodec.Encode(ByteCodec.Decode(s)) == s
  }

  /** `id` is an ordinary entry for `s`. */
  predicate Spells(m: Model, id: int, s: Bytes) {
    0 <= id < |m.tokens| && m.tokens[id].rawByte < 0 && m.tokens[id].text == s
  }

  /** The rank of two texts side by side, probed with the hash of both. */
  function Ranked(m: Model, a: Bytes, b: Bytes): int {
    m.vocab.rules.lookup(Fnv(a + b), a, b)
  }

  /** The vocabulary's lookup of a character, by its byte or by its hash, answers `id`. */
  predicate LooksUp(v: Vocab, ch: Bytes, id: int) {
    ch != [] && (|ch| == 1 ==> v.byteId(ch[0]) == id) && (|ch| > 1 ==> v.charId(Fnv(ch), ch) == id)
  }

  /** The token for the raw byte `b`. */
  predicate IsByteToken(m: Model, id: int, b: byte) {
    0 <= id < |m.tokens| && m.tokens[id].rawByte == b
  }

  /** The character of a byte has an ordinary entry. */
  ghost predicate HasEntry(m: Model, b: byte) {
    exists id :: LooksUp(m.vocab, ByteCodec.CharOf(b), id) && Spells(m, id, ByteCodec.CharOf(b))
  }

  /** The character of a byte has no entry, but the byte has a token of its own. */
  ghost predicate HasByteToken(m: Model, b: byte) {
    && !m.vocab.sentencepiece && m.vocab.nFallback > 0 && IsByteToken(m, m.vocab.fallbackId(b), b)
    && exists id :: LooksUp(m.vocab, ByteCodec.CharOf(b), id) && id < 0
  }

  /**
   The vocabularies of the claim: every byte has an entry for its character or a token of its own, merging two pieces
   is only ranked if the merged text has an entry, and special tokens are ordinary entries in ASCII.
   */
  ghost predicate Complete(m: Model) {
    && (forall b: byte :: HasEntry(m, b) || HasByteToken(m, b))
    && (forall a: Bytes, b: Bytes :: Ranked(m, a, b) >= 0 ==> Spells(m, m.vocab.rules.mergedId(Ranked(m, a, b)), a + b))
    && Sp.Listed(TextsOf(m.tokens), m.specials)
    && (forall i :: 0 <= i < |m.specials| ==> AsciiEntry(m, m.specials[i]))
  }

  predicate AsciiEntry(m: Model, id: nat) {
    && id < |m.tokens| && m.tokens[id].rawByte < 0
    && forall k :: 0 <= k < |m.tokens[id].text| ==> m.tokens[id].text[k] < 0x80
  }

  /** The entry `id` stands for the bytes that `s` is the alphabet's text of. */
  predicate Means(m: Model, id: int, s: Bytes) {
    0 <= id < |m.tokens| && TokenBytes(m.tokens[id]) == ByteCodec.Decode(s)
  }

  /** A piece of clean text with an id that stands for it. */
  predicate Proper(m: Model, p: Piece) {
    Clean(p.text) && Means(m, p.id, p.text) && p.hash == Fnv(p.text)
  }

  ghost predicate Faithful(m: Model, ps: seq<Piece>) {
    forall k :: 0 <= k < |ps| ==> Proper(m, ps[k])
  }

  lemma CleanAppend(a: Bytes, b: Bytes)
    requires Clean(a) && Clean(b)
    ensures Clean(a + b) && ByteCodec.Decode(a + b) == ByteCodec.Decode(a) + ByteCodec.Decode(b)
  {
    var x, y := ByteCodec.Decode(a), ByteCodec.Decode(b);
    ByteCodec.DecodeEncode(x, b);
    ByteCodec.EncodeAppend(x, y);
  }

  lemma EncodeClean(s: Bytes)
    ensures Clean(ByteCodec.Encode(s)) && ByteCodec.Decode(ByteCodec.Encode(s)) == s
  {
    ByteCodec.DecodeEncode(s, []);
    assert ByteCodec.Encode(s) + [] == ByteCodec.Encode(s);
    assert ByteCodec.Decode([]) == [];
    assert s + [] == s;
  }

  lemma MergeAtPlace(r: Rules, ps: seq<Piece>, i: nat, k: nat)
    requires i + 1 < |ps| && k < |ps| - 1
    ensures MergeAt(r, ps, i)[k]
         == if k < i then ps[k] else if k == i then MergePair(r, ps[i], ps[i + 1]) else ps[k + 1]
  {
    hide MergePair;
    if k > i {
      assert MergeAt(r, ps, i)[k] == ps[i + 2..][k - i - 1];
    }
  }

  lemma MergeAtFaithful(m: Model, ps: seq<Piece>, i: nat)
    requires Complete(m) && Faithful(m, ps) && i + 1 < |ps| && RankAt(m.vocab.rules, ps, i) >= 0
    ensures Faithful(m, MergeAt(m.vocab.rules, ps, i))
  {
    MergedProper(m, ps[i], ps[i + 1]);
    hide Proper, MergePair, Complete, RankAt, MergeAt;
    var qs := MergeAt(m.vocab.rules, ps, i);
    forall k | 0 <= k < |qs| ensures Proper(m, qs[k]) {
      MergeAtPlace(m.vocab.rules, ps, i, k);
    }
  }

  lemma MergedProper(m: Model, a: Piece, b: Piece)
    requires Complete(m) && Proper(m, a) && Proper(m, b) && PairRank(m.vocab.rules, a, b) >= 0
    ensures Proper(m, MergePair(m.vocab.rules, a, b))
  {
    hide Clean, Spells, Complete, MergePair, FnvUpdate;
    RankedSpells(m, a, b);
    MergedSpells(m, m.vocab.rules, a, b);
    SpelledBytes(m, MergePair(m.vocab.rules, a, b).id, a.text + b.text);
    CleanAppend(a.text, b.text);
  }

  lemma RankedSpells(m: Model, a: Piece, b: Piece)
    requires Complete(m) && PairRank(m.vocab.rules, a, b) >= 0 && a.hash == Fnv(a.text)
    ensures Spells(m, m.vocab.rules.mergedId(PairRank(m.vocab.rules, a, b)), a.text + b.text)
    ensures MergePair(m.vocab.rules, a, b).hash == Fnv(a.text + b.text)
  {
    hide Spells, AsciiEntry, HasEntry, HasByteToken, FnvUpdate;
    FnvConcat(FNV_OFFSET_BASIS, a.text, b.text);
    assert PairRank(m.vocab.rules, a, b) == Ranked(m, a.text, b.text);
  }

  lemma {:induction false} MergeFaithful(m: Model, ps: seq<Piece>)
    requires Complete(m) && Faithful(m, ps)
    ensures Faithful(m, NaiveMerge(m.vocab.rules, ps))
    decreases |ps|
  {
    hide Faithful, Complete, RankAt, MergeAt;
    var i := BestFrom(m.vocab.rules, ps, 0);
    if i != -1 {
      MergeAtFaithful(m, ps, i);
      MergeFaithful(m, MergeAt(m.vocab.rules, ps, i));
    }
  }

  lemma MergedSpells(m: Model, r: Rules, a: Piece, b: Piece)
    requires Spells(m, r.mergedId(PairRank(r, a, b)), a.text + b.text)
    ensures Spells(m, MergePair(r, a, b).id, MergePair(r, a, b).text)
    ensures MergePair(r, a, b).text == a.text + b.text
  {
  }

  /** The front of encoded text is the character of its first byte. */
  lemma FirstChar(s: Bytes)
    requires s != []
    ensures var e := ByteCodec.Encode(s); var c := ByteCodec.CharOf(s[0]);
      && e != [] && CharLength(e) == |c| && e[..|c|] == c && e[|c|..] == ByteCodec.Encode(s[1..])
  {
    var c := ByteCodec.CharOf(s[0]);
    var e := ByteCodec.Encode(s);
    CpRoundTrip(ByteCodec.ByteToCp(s[0]), []);
    assert e == c + ByteCodec.Encode(s[1..]);
    assert e[0] == c[0];
  }

  /** The pieces merging starts from are the characters of the bytes. */
  lemma {:induction false} SplitFaithful(m: Model, s: Bytes)
    requires Complete(m)
    ensures Faithful(m, Split(m.vocab, ByteCodec.Encode(s)))
    decreases |s|
  {
    hide Clean, Means, Complete, CharPieces, CharLength, ByteCodec.CharOf, ByteCodec.Encode, Fnv;
    if s == [] {
      EncodeNothing();
    } else {
      var c := ByteCodec.CharOf(s[0]);
      FirstChar(s);
      SplitFaithful(m, s[1..]);
      CharClean(s[0]);
      CharFaithful(m, s[0]);
      var e := ByteCodec.Encode(s);
      assert Split(m.vocab, e) == CharPieces(m.vocab, c) + Split(m.vocab, ByteCodec.Encode(s[1..]));
    }
  }

  lemma EncodeNothing()
    ensures ByteCodec.Encode([]) == []
  {
  }

  lemma CharClean(b: byte)
    ensures Clean(ByteCodec.CharOf(b))
  {
    EncodeClean([b]);
    assert ByteCodec.Encode([b]) == ByteCodec.CharOf(b) + ByteCodec.Encode([b][1..]);
    assert ByteCodec.Encode([b]) == ByteCodec.CharOf(b);
  }

  lemma TokenOfCharIs(v: Vocab, ch: Bytes, id: int)
    requires LooksUp(v, ch, id)
    ensures TokenOfChar(v, ch) == id
  {
  }

  lemma CharDecodes(b: byte)
    ensures ByteCodec.Decode(ByteCodec.CharOf(b)) == [b]
  {
    ByteCodec.DecodeFront(b, []);
    assert ByteCodec.CharOf(b) + [] == ByteCodec.CharOf(b);
    assert ByteCodec.Decode([]) == [] && [b] + [] == [b];
  }

  /** A character without an entry becomes one piece, of the token of the byte it stands for. */
  lemma ByteTokenPiece(v: Vocab, b: byte)
    requires !v.sentencepiece
    ensures FallbackPieces(v, ByteCodec.CharOf(b)) == [FallbackPiece(v, ByteCodec.CharOf(b), b)]
  {
    var c := ByteCodec.CharOf(b);
    CpRoundTrip(ByteCodec.ByteToCp(b), []);
    ByteCodec.AlphabetRoundTrip(b);
    assert c + [] == c && c[..|c|] == c;
    assert FallbackUnit(v, c) == (|c|, b);
    hide FallbackUnit, FallbackPiece, ByteCodec.CharOf;
    assert c[|c|..] == [];
    assert FallbackPieces(v, c[|c|..]) == [];
  }

  lemma CharFaithful(m: Model, b: byte)
    requires Complete(m)
    ensures Faithful(m, CharPieces(m.vocab, ByteCodec.CharOf(b)))
  {
    hide Clean, AsciiEntry, Fnv, ByteCodec.CharOf, TokenOfChar, LooksUp, TokenBytes;
    var c := ByteCodec.CharOf(b);
    CharClean(b);
    CharDecodes(b);
    if HasEntry(m, b) {
      var id :| LooksUp(m.vocab, c, id) && Spells(m, id, c);
      TokenOfCharIs(m.vocab, c, id);
      SpelledBytes(m, id, c);
    } else {
      var id :| LooksUp(m.vocab, c, id) && id < 0;
      TokenOfCharIs(m.vocab, c, id);
      ByteTokenPiece(m.vocab, b);
      ByteTokenBytes(m, m.vocab.fallbackId(b), b);
    }
  }

  lemma ByteTokenBytes(m: Model, id: int, b: byte)
    requires IsByteToken(m, id, b)
    ensures 0 <= id < |m.tokens| && TokenBytes(m.tokens[id]) == [b]
  {
  }

  /** Decoding the ids of faithful pieces, one by one, is decoding the text they spell. */
  lemma {:induction false} DecodePieces(m: Model, ps: seq<Piece>)
    requires Faithful(m, ps)
    ensures Clean(Flatten(Texts(ps))) && DecodedBytes(m, Ids(ps)) == ByteCodec.Decode(Flatten(Texts(ps)))
  {
    hide Clean, Flatten, TokenBytes, ByteCodec.Decode, Fnv;
    if ps == [] {
      assert Texts(ps) == [] && Ids(ps) == [];
      NothingDecoded();
    } else {
      var front, last := ps[..|ps| - 1], ps[|ps| - 1];
      DecodePieces(m, front);
      assert Proper(m, last);
      assert Texts(ps) == Texts(front) + [last.text];
      assert Ids(ps) == Ids(front) + [last.id];
      hide DecodedBytes, Texts, Ids, Faithful;
      FlattenSnoc(Texts(front), last.text);
      CleanAppend(Flatten(Texts(front)), last.text);
      DecodedSnoc(m, Ids(front), last.id);
    }
  }

  lemma SpelledBytes(m: Model, id: int, s: Bytes)
    requires Spells(m, id, s)
    ensures Means(m, id, s)
  {
  }

  lemma NothingDecoded()
    ensures Clean(Flatten([])) && Flatten([]) == [] && ByteCodec.Decode([]) == []
  {
  }

  lemma DecodedSnoc(m: Model, ids: seq<int>, id: int)
    ensures DecodedBytes(m, ids + [id]) ==
      DecodedBytes(m, ids) + if 0 <= id < |m.tokens| then TokenBytes(m.tokens[id]) else []
  {
    assert (ids + [id])[..|ids|] == ids;
  }

  lemma SnocSplit(a: seq<int>, b: seq<int>)
    requires b != []
    ensures var front, last := b[..|b| - 1], b[|b| - 1]; b == front + [last] && a + b == a + front + [last]
  {
  }

  lemma {:induction false} DecodedAppend(m: Model, a: seq<int>, b: seq<int>)
    ensures DecodedBytes(m, a + b) == DecodedBytes(m, a) + DecodedBytes(m, b)
    decreases |b|
  {
    hide TokenBytes;
    if b == [] {
      assert a + b == a;
    } else {
      hide DecodedBytes;
      var front, last := b[..|b| - 1], b[|b| - 1];
      DecodedAppend(m, a, front);
      DecodedSnoc(m, a + front, last);
      DecodedSnoc(m, front, last);
      SnocSplit(a, b);
      var piece := if 0 <= last < |m.tokens| then TokenBytes(m.tokens[last]) else [];
      Regroup(DecodedBytes(m, a), DecodedBytes(m, front), piece);
    }
  }

  /** A pretoken comes back. */
  lemma PretokenRoundTrip(m: Model, s: Bytes)
    requires Complete(m)
    ensures DecodedBytes(m, Encoded(m.vocab, ByteCodec.Encode(s))) == s
  {
    hide Complete, Split, NaiveMerge, Faithful, Flatten, DecodedBytes;
    var e := ByteCodec.Encode(s);
    var ps := NaiveMerge(m.vocab.rules, Split(m.vocab, e));
    SplitFaithful(m, s);
    MergeFaithful(m, Split(m.vocab, e));
    DecodePieces(m, ps);
    EncodedSpellsText(m.vocab, e);
    EncodeClean(s);
  }

  lemma {:induction false} ChunkRoundTrip(m: Model, text: Bytes, i: nat)
    requires Complete(m) && i <= |text|
    ensures DecodedBytes(m, ChunkIds(m, text, i)) == text[i..]
    decreases |text| - i
  {
    hide Complete, PretokenEnd, Encoded, DecodedBytes, ByteCodec.Encode;
    if i == |text| {
      NothingIn(m);
    } else {
      var j := PretokenEnd(text, i, m.unicode);
      ChunkRoundTrip(m, text, j);
      PretokenRoundTrip(m, text[i..j]);
      DecodedAppend(m, Encoded(m.vocab, ByteCodec.Encode(text[i..j])), ChunkIds(m, text, j));
      assert text[i..] == text[i..j] + text[j..];
    }
  }

  lemma SpecialRoundTrip(m: Model, id: nat)
    requires AsciiEntry(m, id)
    ensures DecodedBytes(m, [id]) == m.tokens[id].text
  {
    ByteCodec.DecodeAscii(m.tokens[id].text);
    DecodedSnoc(m, [], id);
    assert [] + [id] == [id];
  }

  lemma NothingIn(m: Model)
    ensures DecodedBytes(m, []) == []
  {
  }

  /** Text, a special token and what follows come back together. */
  lemma AroundSpecial(m: Model, text: Bytes, pos: nat, at: nat, id: nat, rest: seq<nat>)
    requires Complete(m) && pos <= at <= |text| && AsciiEntry(m, id)
    requires at + |m.tokens[id].text| <= |text| && text[at..at + |m.tokens[id].text|] == m.tokens[id].text
    requires DecodedBytes(m, rest) == text[at + |m.tokens[id].text|..]
    ensures DecodedBytes(m, ChunkIds(m, text[..at], pos) + [id] + rest) == text[pos..]
  {
    hide Complete, DecodedBytes, ChunkIds;
    var t := m.tokens[id].text;
    var chunk := ChunkIds(m, text[..at], pos);
    ChunkRoundTrip(m, text[..at], pos);
    SpecialRoundTrip(m, id);
    DecodedAppend(m, chunk, [id]);
    DecodedAppend(m, chunk + [id], rest);
    assert text[pos..] == text[..at][pos..] + t + text[at + |t|..];
  }

  lemma CompleteListed(m: Model)
    requires Complete(m)
    ensures Sp.Listed(TextsOf(m.tokens), m.specials)
  {
    hide AsciiEntry, Spells, Sp.Listed;
  }

  lemma SpecialIsAscii(m: Model, id: nat)
    requires Complete(m) && id in m.specials
    ensures AsciiEntry(m, id)
  {
    hide AsciiEntry, Spells;
    var i :| 0 <= i < |m.specials| && m.specials[i] == id;
  }

  lemma SpecialStands(m: Model, text: Bytes, at: nat, id: nat)
    requires AsciiEntry(m, id) && Sp.Matches(TextsOf(m.tokens), id, text, at)
    ensures |m.tokens[id].text| > 0 && at + |m.tokens[id].text| <= |text|
    ensures text[at..at + |m.tokens[id].text|] == m.tokens[id].text
  {
  }

  lemma TextIdsAt(m: Model, text: Bytes, pos: nat, h: Sp.Hit)
    requires pos < |text| && Sp.NextSpecial(TextsOf(m.tokens), m.specials, text, pos) == Some(h)
    requires pos <= h.at <= |text| && h.id < |m.tokens| && m.tokens[h.id].text != []
    ensures TextIds(m, text, pos)
         == ChunkIds(m, text[..h.at], pos) + [h.id] + TextIds(m, text, h.at + |m.tokens[h.id].text|)
  {
    hide ChunkIds, Sp.NextSpecial, TextsOf;
  }

  lemma {:induction false} TextRoundTrip(m: Model, text: Bytes, pos: nat)
    requires Complete(m) && pos <= |text|
    ensures DecodedBytes(m, TextIds(m, text, pos)) == text[pos..]
    decreases |text| - pos
  {
    CompleteListed(m);
    hide DecodedBytes, ChunkIds, AsciiEntry, Complete, Sp.Listed, Sp.NextSpecial, Sp.Matches, Sp.BestAt, Sp.Beats;
    if pos == |text| {
      NothingIn(m);
    } else {
      var texts := TextsOf(m.tokens);
      Sp.NextSpecialIs(texts, m.specials, text, pos);
      match Sp.NextSpecial(texts, m.specials, text, pos) {
        case None => ChunkRoundTrip(m, text, pos);
        case Some(h) =>
          SpecialIsAscii(m, h.id);
          SpecialStands(m, text, h.at, h.id);
          var after := h.at + |m.tokens[h.id].text|;
          TextRoundTrip(m, text, after);
          TextIdsAt(m, text, pos, h);
          hide TextIds;
          AroundSpecial(m, text, pos, h.at, h.id, TextIds(m, text, after));
      }
    }
  }

  /** Decoding what encoding made of a text gives the text back. */
  lemma RoundTrip(m: Model, text: Bytes)
    requires Complete(m)
    ensures DecodedBytes(m, AllIds(m, text, false)) == text
  {
    hide Complete, TextIds, DecodedBytes;
    TextRoundTrip(m, text, 0);
    assert AllIds(m, text, false) == TextIds(m, text, 0);
    assert text[0..] == text;
  }
}
