/** What encoding a text means, part by part: rules cut the pretokens, and special tokens cut the chunks. */
module TextParts {
  import opened Bytes
  import opened BpeEncode
  import opened Pretokens
  import opened PretokenRules
  import opened Tokenizer
  import ByteCodec
  import Sp = Specials

  /**
   The first rule that matches at `i` takes `text[i..j]`, and `here` is its encoding in the byte alphabet; models that
   say so have the code-point rules, all others the plain ones.
   */
  ghost predicate IsPart(m: Model, text: Bytes, i: nat, j: nat, here: seq<nat>) {
    && i < j <= |text| && FirstMatch(if m.unicode > 0 then Unicode(m.unicode) else PLAIN, text, i, j)
    && here == Encoded(m.vocab, ByteCodec.Encode(text[i..j]))
  }

  /** `ids` are the encodings of consecutive parts from `i` to the end of `text`. */
  ghost predicate InParts(m: Model, text: Bytes, i: nat, ids: seq<nat>)
    decreases |text| - i
  {
    if i >= |text| then ids == []
    else
      exists j: nat, here: seq<nat>, rest: seq<nat> ::
        IsPart(m, text, i, j, here) && ids == here + rest && InParts(m, text, j, rest)
  }

  /** The leftmost special token from `pos` on, the longest there, of the lowest id on ties. */
  ghost predicate IsNext(m: Model, text: Bytes, pos: nat, at: nat, id: nat) {
    var texts := TextsOf(m.tokens);
    && pos <= at && id in m.specials && Sp.Matches(texts, id, text, at)
    && (forall p: nat, i :: pos <= p < at && 0 <= i < |m.specials| ==> !Sp.Matches(texts, m.specials[i], text, p))
    && (forall i :: 0 <= i < |m.specials| && Sp.Matches(texts, m.specials[i], text, at) ==>
          |texts[m.specials[i]]| < |texts[id]| || (|texts[m.specials[i]]| == |texts[id]| && id <= m.specials[i]))
  }

  /** No special token stands at `pos` or later. */
  ghost predicate NoNext(m: Model, text: Bytes, pos: nat) {
    forall p: nat, i :: pos <= p && 0 <= i < |m.specials| ==> !Sp.Matches(TextsOf(m.tokens), m.specials[i], text, p)
  }

  /** The text before the next special token is in parts, the token follows, and so does the rest. */
  ghost predicate UpToNext(m: Model, text: Bytes, pos: nat, at: nat, id: nat, chunk: seq<nat>) {
    at <= |text| && IsNext(m, text, pos, at, id) && InParts(m, text[..at], pos, chunk)
  }

  /** `ids` are those of the text from `pos` on, special tokens and what stands between them. */
  ghost predicate InText(m: Model, text: Bytes, pos: nat, ids: seq<nat>)
    decreases |text| - pos
  {
    if pos >= |text| then ids == []
    else if NoNext(m, text, pos) then InParts(m, text, pos, ids)
    else
      exists at: nat, id: nat, chunk: seq<nat>, rest: seq<nat> ::
        && UpToNext(m, text, pos, at, id, chunk) && ids == chunk + [id] + rest
        && id < |m.tokens| && m.tokens[id].text != [] && InText(m, text, at + |m.tokens[id].text|, rest)
  }

  // ---------------------------------------------------------------- the parts are those the encoder makes

  lemma PretokenIs(m: Model, text: Bytes, i: nat, j: nat)
    requires i < |text|
    ensures FirstMatch(if m.unicode > 0 then Unicode(m.unicode) else PLAIN, text, i, j)
       <==> j == PretokenEnd(text, i, m.unicode)
  {
    if m.unicode > 0 {
      UnicodeExactly(text, i, m.unicode, j);
    } else {
      PlainExactly(text, i, j);
    }
  }

  /** The ids of a chunk are those of its parts, and of nothing else. */
  lemma {:induction false} PartsExactly(m: Model, text: Bytes, i: nat, ids: seq<nat>)
    requires i <= |text|
    ensures InParts(m, text, i, ids) <==> ids == ChunkIds(m, text, i)
    decreases |text| - i
  {
    hide FirstMatch, Encoded, PretokenEnd;
    if i < |text| {
      var j := PretokenEnd(text, i, m.unicode);
      var here, rest := Encoded(m.vocab, ByteCodec.Encode(text[i..j])), ChunkIds(m, text, j);
      PretokenIs(m, text, i, j);
      PartsExactly(m, text, j, rest);
      assert ChunkIds(m, text, i) == here + rest;
      if ids == ChunkIds(m, text, i) {
        assert IsPart(m, text, i, j, here);
      }
      if InParts(m, text, i, ids) {
        var j': nat, here': seq<nat>, rest': seq<nat> :|
          IsPart(m, text, i, j', here') && ids == here' + rest' && InParts(m, text, j', rest');
        PretokenIs(m, text, i, j');
        PartsExactly(m, text, j, rest');
      }
    }
  }

  lemma NextIs(m: Model, text: Bytes, pos: nat)
    requires Sp.Listed(TextsOf(m.tokens), m.specials)
    ensures match Sp.NextSpecial(TextsOf(m.tokens), m.specials, text, pos)
      case None => NoNext(m, text, pos)
      case Some(h) => IsNext(m, text, pos, h.at, h.id) && !NoNext(m, text, pos) && h.at <= |text|
  {
    hide Sp.NextSpecial, Sp.Matches;
    var texts := TextsOf(m.tokens);
    Sp.NextSpecialIs(texts, m.specials, text, pos);
    Sp.HitWithin(texts, m.specials, text, pos);
    match Sp.NextSpecial(texts, m.specials, text, pos)
    case None =>
    case Some(h) =>
      var i :| 0 <= i < |m.specials| && m.specials[i] == h.id;
      assert Sp.Matches(texts, m.specials[i], text, h.at);
  }

  /** There is only one next special token. */
  lemma NextOnly(m: Model, text: Bytes, pos: nat, at: nat, id: nat, at': nat, id': nat)
    requires IsNext(m, text, pos, at, id) && IsNext(m, text, pos, at', id')
    ensures at == at' && id == id'
  {
    hide Sp.Matches;
    var i :| 0 <= i < |m.specials| && m.specials[i] == id;
    var j :| 0 <= j < |m.specials| && m.specials[j] == id';
  }

  lemma AfterNext(m: Model, text: Bytes, pos: nat, at: nat, id: nat)
    requires IsNext(m, text, pos, at, id)
    ensures id < |m.tokens| && m.tokens[id].text != [] && at + |m.tokens[id].text| <= |text|
  {
  }

  /** The ids of a text are those of its parts and special tokens, and of nothing else. */
  lemma {:induction false} TextExactly(m: Model, text: Bytes, pos: nat, ids: seq<nat>)
    requires Sp.Listed(TextsOf(m.tokens), m.specials)
    ensures InText(m, text, pos, ids) <==> ids == TextIds(m, text, pos)
    decreases |text| - pos
  {
    hide Sp.Listed, Sp.NextSpecial, IsNext, NoNext, InParts, ChunkIds;
    if pos < |text| {
      NextIs(m, text, pos);
      match Sp.NextSpecial(TextsOf(m.tokens), m.specials, text, pos)
      case None => PartsExactly(m, text, pos, ids);
      case Some(h) => HitExactly(m, text, pos, h.at, h.id, ids);
    }
  }

  lemma HitExactly(m: Model, text: Bytes, pos: nat, at: nat, id: nat, ids: seq<nat>)
    requires Sp.Listed(TextsOf(m.tokens), m.specials) && pos < |text|
    requires Sp.NextSpecial(TextsOf(m.tokens), m.specials, text, pos) == Some(Sp.Hit(at, id))
    requires IsNext(m, text, pos, at, id) && !NoNext(m, text, pos) && at <= |text|
    ensures InText(m, text, pos, ids) <==> ids == TextIds(m, text, pos)
    decreases |text| - pos, 0
  {
    hide Sp.Listed, Sp.NextSpecial, NoNext, InParts, ChunkIds;
    AfterNext(m, text, pos, at, id);
    assert pos <= at;
    hide IsNext;
    var after := at + |m.tokens[id].text|;
    var chunk, rest := ChunkIds(m, text[..at], pos), TextIds(m, text, after);
    TextIdsAt(m, text, pos, Sp.Hit(at, id));
    PartsExactly(m, text[..at], pos, chunk);
    TextExactly(m, text, after, rest);
    hide TextIds;
    if ids == TextIds(m, text, pos) {
      assert UpToNext(m, text, pos, at, id, chunk);
    }
    if InText(m, text, pos, ids) {
      var at': nat, id': nat, chunk': seq<nat>, rest': seq<nat> :|
        && UpToNext(m, text, pos, at', id', chunk') && ids == chunk' + [id'] + rest'
        && id' < |m.tokens| && m.tokens[id'].text != [] && InText(m, text, at' + |m.tokens[id'].text|, rest');
      NextOnly(m, text, pos, at, id, at', id');
      PartsExactly(m, text[..at], pos, chunk');
      TextExactly(m, text, after, rest');
    }
  }
}
