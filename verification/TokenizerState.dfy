/** The tokenizer's state: the chunk cache, the special-token index and the decoded vocabulary. */
module TokenizerState {
  import opened Bytes
  import opened BpeSpec
  import opened BpeEncode
  import opened Pretokens
  import opened TextParts
  import opened Tokenizer
  import ByteCodec
  import PT = ProbeTable
  import Sp = Specials
  import Si = SpecialIndex

  const CACHE_SLOTS := 16384
  const CACHE_MAX_ENTRIES := 4096
  const CACHE_MAX_KEY := 64

  /** Every cached entry is what encoding its key gives. */
  ghost predicate Sound(v: Vocab, slots: seq<PT.Slot<seq<nat>>>) {
    forall i :: 0 <= i < |slots| && slots[i].Used? ==> slots[i].value == Encoded(v, slots[i].key)
  }

  lemma SoundPut(v: Vocab, slots: seq<PT.Slot<seq<nat>>>, i: nat, text: Bytes, ids: seq<nat>)
    requires Sound(v, slots) && i < |slots| && ids == Encoded(v, text)
    ensures Sound(v, slots[i := PT.Used(text, ids)])
  {
    hide Encoded;
  }

  class Encoder {
    const m: Model
    const index: Si.Index
    const decoded: seq<Bytes>
    const cache: array<PT.Slot<seq<nat>>>
    var used: nat

    ghost predicate Valid()
      reads this, cache, index, index.present, index.off, index.table
    {
      && index.Valid() && index.texts == TextsOf(m.tokens) && index.ids == m.specials
      && cache.Length == CACHE_SLOTS && Sound(m.vocab, cache[..])
      && |decoded| == |m.tokens| && forall i :: 0 <= i < |decoded| ==> decoded[i] == TokenBytes(m.tokens[i])
    }

    constructor (m: Model)
      requires Sp.Listed(TextsOf(m.tokens), m.specials)
      ensures Valid() && this.m == m && fresh(cache)
    {
      var ix := new Si.Index(TextsOf(m.tokens), m.specials);
      var pool := DecodeAll(m);
      this.m, index, decoded, used := m, ix, pool, 0;
      cache := new PT.Slot<seq<nat>>[CACHE_SLOTS](_ => PT.Free);
    }

    static method DecodeAll(m: Model) returns (pool: seq<Bytes>)
      ensures |pool| == |m.tokens| && forall i :: 0 <= i < |pool| ==> pool[i] == TokenBytes(m.tokens[i])
    {
      pool := [];
      for i := 0 to |m.tokens|
        invariant |pool| == i && forall k :: 0 <= k < i ==> pool[k] == TokenBytes(m.tokens[k])
      {
        var t := m.tokens[i];
        if 0 <= t.rawByte < 256 {
          pool := pool + [[t.rawByte]];
        } else {
          var bytes := ByteCodec.DecodeLoop(t.text);
          pool := pool + [bytes];
        }
      }
    }

    /** `tokenizer_bpe_encode`: whatever was cached before, the answer is that of the uncached encoder. */
    method BpeEncode(text: Bytes, maxOut: int) returns (out: Outcome)
      requires Valid()
      modifies this`used, cache
      ensures Valid() && out == Answer(m.vocab, text, maxOut)
    {
      hide Encoded;
      if |text| == 0 {
        out := EncodeUncached(m.vocab, text, maxOut);
        return;
      }
      if |text| > CACHE_MAX_KEY {
        out := EncodeUncached(m.vocab, text, maxOut);
        return;
      }
      var hit := PT.ProbeOnce(cache, text);
      if hit >= 0 && cache[hit].Used? {
        var ids := cache[hit].value;
        assert ids == Encoded(m.vocab, text);
        return if |ids| > maxOut then TooMany else Ok(ids);
      }
      var tmp := EncodeUncached(m.vocab, text, CACHE_MAX_KEY + 1);
      if tmp.TooMany? {
        out := EncodeUncached(m.vocab, text, maxOut);
        return;
      }
      if used < CACHE_MAX_ENTRIES {
        Remember(text, tmp.ids);
      }
      out := if |tmp.ids| > maxOut then TooMany else tmp;
    }

    /** A new entry goes where probing for its key ended, unless the key is there or the table is full. */
    method Remember(text: Bytes, ids: seq<nat>)
      requires Valid() && ids == Encoded(m.vocab, text)
      modifies this`used, cache
      ensures Valid()
    {
      hide Encoded, Sound, Si.Index.Valid;
      ghost var was := cache[..];
      var slot := PT.ProbeOnce(cache, text);
      if slot >= 0 && cache[slot].Free? {
        cache[slot] := PT.Used(text, ids);
        used := used + 1;
        SoundPut(m.vocab, was, slot, text, ids);
        assert cache[..] == was[slot := PT.Used(text, ids)];
      }
    }

    method NextPretoken(text: Bytes, pos: nat) returns (end: nat)
      requires pos < |text|
      ensures end == PretokenEnd(text, pos, m.unicode)
    {
      if m.unicode > 0 {
        end := NextUnicode(text, pos, m.unicode);
      } else {
        end := NextPlain(text, pos);
      }
    }

    /** `encode_gpt2_chunk`: the ids of `text[start..]` are appended as far as there is room. */
    method EncodeChunk(text: Bytes, start: nat, written: seq<nat>, maxOut: int) returns (out: Outcome)
      requires Valid() && start <= |text| && Fits(written, maxOut)
      modifies this`used, cache
      ensures Valid() && out == Fit(written + ChunkIds(m, text, start), maxOut)
      ensures out.Ok? ==> written <= out.ids && InParts(m, text, start, out.ids[|written|..])
      ensures out.TooMany? ==> forall ids :: InParts(m, text, start, ids) ==> !Fits(written + ids, maxOut)
    {
      out := ChunkLoop(text, start, written, maxOut);
      hide Valid, ChunkIds, InParts;
      forall ids ensures InParts(m, text, start, ids) <==> ids == ChunkIds(m, text, start) {
        PartsExactly(m, text, start, ids);
      }
      assert (written + ChunkIds(m, text, start))[|written|..] == ChunkIds(m, text, start);
    }

    method ChunkLoop(text: Bytes, start: nat, written: seq<nat>, maxOut: int) returns (out: Outcome)
      requires Valid() && start <= |text| && Fits(written, maxOut)
      modifies this`used, cache
      ensures Valid() && out == Fit(written + ChunkIds(m, text, start), maxOut)
    {
      var ids := written;
      var pos := start;
      while pos < |text|
        invariant Valid() && pos <= |text| && Fits(ids, maxOut)
        invariant ids + ChunkIds(m, text, pos) == written + ChunkIds(m, text, start)
      {
        hide Valid, Encoded, ChunkIds;
        var j := NextPretoken(text, pos);
        var enc := ByteCodec.EncodeBytes(text[pos..j]);
        var got := BpeEncode(enc, maxOut - |ids|);
        ChunkStep(m, text, pos, ids, enc);
        EmptyEncodes(m.vocab, enc);
        if got.TooMany? {
          return TooMany;
        }
        ids := ids + got.ids;
        pos := j;
      }
      EmptyChunk(m, text);
      assert ids + [] == ids;
      out := Ok(ids);
    }

    /** The ids of the whole text are appended as far as there is room. */
    method EncodeText(text: Bytes, written: seq<nat>, maxOut: int) returns (out: Outcome)
      requires Valid() && Fits(written, maxOut)
      modifies this`used, cache
      ensures Valid() && out == Fit(written + TextIds(m, text, 0), maxOut)
      ensures out.Ok? ==> written <= out.ids && InText(m, text, 0, out.ids[|written|..])
      ensures out.TooMany? ==> forall ids :: InText(m, text, 0, ids) ==> !Fits(written + ids, maxOut)
    {
      IndexListed();
      out := TextLoop(text, written, maxOut);
      hide Valid, TextIds, InText, Sp.Listed;
      forall ids ensures InText(m, text, 0, ids) <==> ids == TextIds(m, text, 0) {
        TextExactly(m, text, 0, ids);
      }
      assert (written + TextIds(m, text, 0))[|written|..] == TextIds(m, text, 0);
    }

    method TextLoop(text: Bytes, written: seq<nat>, maxOut: int) returns (out: Outcome)
      requires Valid() && Fits(written, maxOut)
      modifies this`used, cache
      ensures Valid() && out == Fit(written + TextIds(m, text, 0), maxOut)
    {
      var ids := written;
      var pos := 0;
      while pos < |text|
        invariant Valid() && Fits(ids, maxOut)
        invariant ids + TextIds(m, text, pos) == written + TextIds(m, text, 0)
        decreases |text| - pos
      {
        hide Valid, TextIds;
        var next := EncodeToSpecial(text, pos, ids, maxOut);
        if next.Full? {
          return TooMany;
        }
        ids, pos := next.ids, next.pos;
      }
      assert ids + [] == ids;
      out := Ok(ids);
    }

    /** `tokenizer_encode_with_specials`: all ids if they fit, else nothing. */
    method EncodeWithSpecials(text: Bytes, addSpecials: bool, maxOut: int) returns (out: Outcome)
      requires Valid()
      modifies this`used, cache
      ensures Valid() && out == Fit(AllIds(m, text, addSpecials), maxOut)
      ensures out.Ok? ==> exists ids :: InText(m, text, 0, ids) && WithEnds(m, addSpecials, ids, out.ids)
      ensures out.TooMany? ==> forall ids, all ::
        InText(m, text, 0, ids) && WithEnds(m, addSpecials, ids, all) ==> !Fits(all, maxOut)
    {
      IndexListed();
      out := EndsAndText(text, addSpecials, maxOut);
      hide Valid, TextIds, InText, AllIds, WithEnds, Sp.Listed;
      TextExactly(m, text, 0, TextIds(m, text, 0));
      EndsExactly(m, text, addSpecials, AllIds(m, text, addSpecials));
      forall ids, all | InText(m, text, 0, ids) && WithEnds(m, addSpecials, ids, all)
        ensures all == AllIds(m, text, addSpecials)
      {
        TextExactly(m, text, 0, ids);
        EndsExactly(m, text, addSpecials, all);
      }
    }

    method EndsAndText(text: Bytes, addSpecials: bool, maxOut: int) returns (out: Outcome)
      requires Valid()
      modifies this`used, cache
      ensures Valid() && out == Fit(AllIds(m, text, addSpecials), maxOut)
    {
      hide Valid, TextIds;
      var ids: seq<nat> := [];
      if addSpecials && m.addBos && m.bosId >= 0 {
        if |ids| >= maxOut {
          return TooMany;
        }
        ids := [m.bosId];
      }
      assert ids == Optional(addSpecials && m.addBos, m.bosId);
      out := EncodeText(text, ids, maxOut);
      if out.TooMany? {
        return;
      }
      if addSpecials && m.addEos && m.eosId >= 0 {
        if |out.ids| >= maxOut {
          return TooMany;
        }
        out := Ok(out.ids + [m.eosId]);
      } else {
        assert out.ids + [] == out.ids;
      }
    }

    /** One round: the text before the next special token, and the token. */
    method EncodeToSpecial(text: Bytes, pos: nat, ids: seq<nat>, maxOut: int) returns (r: Step)
      requires Valid() && pos < |text| && Fits(ids, maxOut)
      modifies this`used, cache
      ensures Valid()
      ensures r.Full? ==> !Fits(ids + TextIds(m, text, pos), maxOut)
      ensures r.Went? ==> r.pos > pos && Fits(r.ids, maxOut)
      ensures r.Went? ==> r.ids + TextIds(m, text, r.pos) == ids + TextIds(m, text, pos)
    {
      hide TextIds, ChunkIds, InParts, Sp.NextSpecial, Sp.Listed, Sound;
      IndexListed();
      var hit := index.FindNext(text, pos);
      AtSpecial(m, text, pos);
      if hit.None? {
        var got := EncodeChunk(text, pos, ids, maxOut);
        if got.TooMany? {
          return Full;
        }
        assert got.ids + [] == got.ids;
        return Went(got.ids, |text|);
      }
      r := EncodeHit(text, pos, hit.value, ids, maxOut);
    }

    method EncodeHit(text: Bytes, pos: nat, h: Sp.Hit, ids: seq<nat>, maxOut: int) returns (r: Step)
      requires Valid() && Fits(ids, maxOut) && h.id < |m.tokens| && m.tokens[h.id].text != [] && pos <= h.at < |text|
      requires h.at == pos ==> ChunkIds(m, text[..h.at], pos) == []
      requires TextIds(m, text, pos)
            == ChunkIds(m, text[..h.at], pos) + [h.id] + TextIds(m, text, h.at + |m.tokens[h.id].text|)
      modifies this`used, cache
      ensures Valid()
      ensures r.Full? ==> !Fits(ids + TextIds(m, text, pos), maxOut)
      ensures r.Went? ==> r.pos > pos && Fits(r.ids, maxOut)
      ensures r.Went? ==> r.ids + TextIds(m, text, r.pos) == ids + TextIds(m, text, pos)
    {
      hide TextIds, ChunkIds, InParts, Valid;
      ghost var chunk, rest := ChunkIds(m, text[..h.at], pos), TextIds(m, text, h.at + |m.tokens[h.id].text|);
      assert ids + (chunk + [h.id] + rest) == ids + chunk + [h.id] + rest;
      var got := Ok(ids);
      if h.at > pos {
        got := EncodeChunk(text[..h.at], pos, ids, maxOut);
      } else {
        assert ids + chunk == ids;
      }
      if got.TooMany? || |got.ids| >= maxOut {
        return Full;
      }
      r := Went(got.ids + [h.id], h.at + |m.tokens[h.id].text|);
    }

    lemma IndexListed()
      requires Valid()
      ensures Sp.Listed(TextsOf(m.tokens), m.specials)
    {
    }

    /** `tokenizer_decode`: the bytes of all known ids, if they and a terminator fit. */
    method Decode(ids: seq<int>, maxOut: int) returns (out: Option<Bytes>)
      requires Valid()
      ensures out == if maxOut > 0 && |DecodedBytes(m, ids)| < maxOut then Some(DecodedBytes(m, ids)) else None
    {
      if maxOut <= 0 {
        return None;
      }
      var bytes := [];
      NothingIn(m);
      hide DecodedBytes;
      assert ids[..0] == [];
      for i := 0 to |ids|
        invariant bytes == DecodedBytes(m, ids[..i]) && |bytes| < maxOut
      {
        hide TokenBytes;
        assert ids[..i + 1] == ids[..i] + [ids[i]];
        DecodedSnoc(m, ids[..i], ids[i]);
        if 0 <= ids[i] < |m.tokens| {
          var piece := decoded[ids[i]];
          if |bytes| + |piece| >= maxOut {
            DecodedGrows(m, ids, i + 1);
            return None;
          }
          bytes := bytes + piece;
        }
      }
      assert ids[..|ids|] == ids;
      out := Some(bytes);
    }
  }

  /** `all` is `ids`, behind the first token and before the last one if they are wanted and there are such. */
  predicate WithEnds(m: Model, addSpecials: bool, ids: seq<nat>, all: seq<nat>) {
    var b, e := addSpecials && m.addBos && m.bosId >= 0, addSpecials && m.addEos && m.eosId >= 0;
    && |all| == |ids| + (if b then 1 else 0) + (if e then 1 else 0)
    && (b ==> all[0] == m.bosId) && (e ==> all[|all| - 1] == m.eosId)
    && all[if b then 1 else 0..][..|ids|] == ids
  }

  lemma EndsExactly(m: Model, text: Bytes, addSpecials: bool, all: seq<nat>)
    ensures WithEnds(m, addSpecials, TextIds(m, text, 0), all) <==> all == AllIds(m, text, addSpecials)
  {
    hide TextIds;
    var ids := TextIds(m, text, 0);
    var b, e := Optional(addSpecials && m.addBos, m.bosId), Optional(addSpecials && m.addEos, m.eosId);
    if WithEnds(m, addSpecials, ids, all) {
      assert all[..|b|] == b && all[|b|..][..|ids|] == ids && all[|b| + |ids|..] == e;
      assert all == all[..|b|] + all[|b|..][..|ids|] + all[|b| + |ids|..];
    }
  }

  datatype Step = Full | Went(ids: seq<nat>, pos: nat)

  /** What is left to encode, seen from the next special token. */
  lemma AtSpecial(m: Model, text: Bytes, pos: nat)
    requires Sp.Listed(TextsOf(m.tokens), m.specials) && pos < |text|
    ensures TextIds(m, text, |text|) == []
    ensures match Sp.NextSpecial(TextsOf(m.tokens), m.specials, text, pos)
      case None => TextIds(m, text, pos) == ChunkIds(m, text, pos)
      case Some(h) =>
        && pos <= h.at < |text| && h.id < |m.tokens| && m.tokens[h.id].text != []
        && h.at + |m.tokens[h.id].text| <= |text|
        && TextIds(m, text, pos)
           == ChunkIds(m, text[..h.at], pos) + [h.id] + TextIds(m, text, h.at + |m.tokens[h.id].text|)
        && (h.at == pos ==> ChunkIds(m, text[..h.at], pos) == [])
  {
    hide ChunkIds, Sp.NextSpecial, Sp.Listed;
    Sp.HitWithin(TextsOf(m.tokens), m.specials, text, pos);
    EmptyChunk(m, text[..pos]);
  }

  lemma ChunkStep(m: Model, text: Bytes, pos: nat, ids: seq<nat>, enc: Bytes)
    requires pos < |text| && enc == ByteCodec.Encode(text[pos..PretokenEnd(text, pos, m.unicode)])
    ensures ids + ChunkIds(m, text, pos)
         == ids + Encoded(m.vocab, enc) + ChunkIds(m, text, PretokenEnd(text, pos, m.unicode))
  {
    hide Encoded, PretokenEnd;
    var here, more := Encoded(m.vocab, enc), ChunkIds(m, text, PretokenEnd(text, pos, m.unicode));
    assert ids + (here + more) == ids + here + more;
  }

  lemma EmptyChunk(m: Model, text: Bytes)
    ensures ChunkIds(m, text, |text|) == []
  {
  }

  lemma EmptyEncodes(v: Vocab, text: Bytes)
    ensures text == [] <==> Encoded(v, text) == []
  {
    EncodedSpellsText(v, text);
    var ps := NaiveMerge(v.rules, Split(v, text));
    assert ps == [] ==> Texts(ps) == [] && Flatten(Texts(ps)) == [];
  }

  lemma DecodedGrows(m: Model, ids: seq<int>, i: nat)
    requires i <= |ids|
    ensures |DecodedBytes(m, ids[..i])| <= |DecodedBytes(m, ids)|
  {
    hide DecodedBytes;
    DecodedAppend(m, ids[..i], ids[i..]);
    assert ids[..i] + ids[i..] == ids;
  }

  /** Encoding and decoding again, with enough room both times, gives the text back. */
  method EncodeThenDecode(enc: Encoder, text: Bytes, maxIds: nat, maxBytes: nat) returns (out: Option<Bytes>)
    requires enc.Valid() && Complete(enc.m)
    requires |AllIds(enc.m, text, false)| <= maxIds && |text| < maxBytes
    modifies enc`used, enc.cache
    ensures out == Some(text)
  {
    hide AllIds, DecodedBytes, Complete;
    RoundTrip(enc.m, text);
    var ids := enc.EncodeWithSpecials(text, false, maxIds);
    out := enc.Decode(ids.ids, maxBytes);
  }
}
