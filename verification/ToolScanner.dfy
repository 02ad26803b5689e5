/** The streaming scanner: positions already searched are remembered between pieces. */
module ToolScanner {
  import opened Bytes
  import opened Markers
  import opened ToolScan
  import opened ToolParts

  const GUARD := 8192

  class Scanner {
    const f: Format
    var inCall: bool
    var suppressed: bool
    var buf: Bytes
    var scanPos: nat
    var closeScan: nat
    var content: Bytes
    var calls: seq<int>
    ghost var base: nat   // the content before it is settled

    /** What was searched before can hold no marker, however the text goes on. */
    ghost predicate Valid()
      reads this
    {
      && f.open != [] && Sound(f)
      && (inCall ==> !suppressed && buf != [] && Clear(buf, 0, closeScan, f.close))
      && (!inCall ==> buf == [])
      && (!inCall && !suppressed ==>
            && base <= scanPos <= |content|
            && Clear(content, base, scanPos, f.open) && Clear(content, base, scanPos, f.stop))
    }

    ghost function Now(): View
      reads this
    {
      if suppressed then View(Suppressed, content, [], calls)
      else if inCall then View(Capture, content, buf, calls)
      else if base <= |content| then View(Text, content[..base], content[base..], calls)
      else START
    }

    constructor (f: Format)
      requires f.open != [] && Sound(f)
      ensures Valid() && Now() == START && this.f == f
    {
      this.f := f;
      inCall, suppressed, buf, scanPos, closeScan, content, calls, base := false, false, [], 0, 0, [], [], 0;
    }

    /** Outside a call: the next marker is dealt with, or the text up to a begun marker is done with. */
    method AdvanceText() returns (again: bool)
      requires Valid() && !inCall && !suppressed
      modifies this
      ensures Valid()
      ensures HasMarker(f, old(Now())) ==> Now() == PastMarker(f, old(Now())) && again == inCall
      ensures !HasMarker(f, old(Now())) ==> Now() == old(Now()) && !again
    {
      var kOpen := FindMarker(content, scanPos, f.open);
      var kStop := FindMarker(content, scanPos, f.stop);
      FindFromBase();
      hide Find, Clear, Sound, PastMarker;
      var k := -1;
      var isStop := false;
      if kOpen >= 0 && (kStop < 0 || kOpen <= kStop) {
        k := kOpen;
      } else if kStop >= 0 {
        k, isStop := kStop, true;
      }
      if k >= 0 {
        again := TakeMarker(k, isStop);
      } else {
        HoldBack();
        again := false;
      }
    }

    /** A marker cuts the content: a call block starts with it, or nothing more is taken. */
    method TakeMarker(k: nat, isStop: bool) returns (again: bool)
      requires Valid() && !inCall && !suppressed && base <= k
      requires FirstMarker(f, content[base..]) == (k - base, isStop)
      modifies this
      ensures Valid() && Now() == PastMarker(f, old(Now())) && again == inCall
    {
      FirstMarkerIs(f, content[base..]);
      assert f.open != [];
      hide FirstMarker, Sound;
      assert content[..base] + content[base..][..k - base] == content[..k];
      assert content[base..][k - base..] == content[k..];
      if isStop {
        content, scanPos, suppressed := content[..k], k, true;
        return false;
      }
      buf := buf + content[k..];
      content := content[..k];
      inCall, closeScan, scanPos := true, 0, 0;
      again := true;
    }

    /** No marker: text that cannot begin one is not searched again. */
    method HoldBack()
      requires Valid() && !inCall && !suppressed
      requires Find(content, scanPos, f.open) < 0 && Find(content, scanPos, f.stop) < 0
      modifies this`scanPos
      ensures Valid()
    {
      hide Find, RuledOut, TailLen;
      var holdOpen := MarkerTailLen(content, f.open);
      var holdStop := MarkerTailLen(content, f.stop);
      var hold := if holdOpen > holdStop then holdOpen else holdStop;
      ClearToTail(content, base, scanPos, f.open);
      ClearToTail(content, base, scanPos, f.stop);
      TailLenIs(content, f.open);
      TailLenIs(content, f.stop);
      var emitEnd := |content| - hold;
      if emitEnd < scanPos {
        emitEnd := scanPos;
      }
      scanPos := emitEnd;
    }

    lemma FindFromBase()
      requires Valid() && !inCall && !suppressed
      ensures var open, stop := Find(content[base..], 0, f.open), Find(content[base..], 0, f.stop);
        && Find(content, scanPos, f.open) == (if open >= 0 then base + open else -1)
        && Find(content, scanPos, f.stop) == (if stop >= 0 then base + stop else -1)
    {
      FindClear(content, base, scanPos, f.open);
      FindClear(content, base, scanPos, f.stop);
      FindDrop(content, base, f.open);
      FindDrop(content, base, f.stop);
    }

    /** The calls of a captured block, in the loop the scanner runs. */
    method ParseBlock(block: Bytes) returns (found: seq<int>)
      requires Sound(f)
      ensures found == BlockCalls(f, block, true)
    {
      found := [];
      var rest := block;
      var first := true;
      while rest != []
        invariant found + BlockCalls(f, rest, first) == BlockCalls(f, block, true)
        decreases |rest|
      {
        var parsed := f.parse(first, rest);
        if parsed.NoCall? {
          break;
        }
        ghost var later := BlockCalls(f, SkipSeparators(rest[parsed.used..]), false);
        assert found + ([parsed.call] + later) == found + [parsed.call] + later;
        found := found + [parsed.call];
        first := false;
        rest := Skip(rest[parsed.used..]);
      }
      assert found + [] == found;
    }

    method Skip(s: Bytes) returns (r: Bytes)
      ensures r == SkipSeparators(s)
    {
      r := s;
      while r != [] && IsSeparator(r[0])
        invariant SkipSeparators(r) == SkipSeparators(s)
      {
        r := r[1..];
      }
    }

    /** A closed block: its calls are noted, or it stays in the content, and what follows it is text again. */
    method TakeBlock(k: nat)
      requires Sound(f) && inCall && !suppressed && Find(buf, 0, f.close) == k && k + |f.close| <= |buf|
      modifies this
      ensures !inCall && !suppressed && buf == [] && closeScan == 0
      ensures base == scanPos <= |content|
      ensures Now() == PastMarker(f, old(Now()))
    {
      hide Find, Sound;
      var total := k + |f.close|;
      var found := ParseBlock(buf[..k]);
      calls := calls + found;
      if found == [] {
        content := content + buf[..total];
      }
      var rest := buf[total..];
      buf, inCall, closeScan := [], false, 0;
      scanPos := |content|;
      base := |content|;
      content := content + rest;
      assert content[..base] + content[base..] == content;
    }

    /** Inside a call: the block is closed and parsed, or the search stops short of a begun close marker. */
    method AdvanceCapture() returns (again: bool)
      requires Valid() && inCall
      modifies this
      ensures Valid()
      ensures HasMarker(f, old(Now())) ==> Now() == PastMarker(f, old(Now())) && again
      ensures !HasMarker(f, old(Now())) ==> Now() == old(Now()) && !again
    {
      var k := FindMarker(buf, closeScan, f.close);
      FindClear(buf, 0, closeScan, f.close);
      if k < 0 {
        var keep := if |f.close| > 0 then |f.close| - 1 else 0;
        ClearToEnd(buf, f.close);
        closeScan := if |buf| > keep then |buf| - keep else 0;
        return false;
      }
      FindFirst(buf, 0, f.close);
      hide Find, Clear, RuledOut, Sound, PastMarker;
      TakeBlock(k);
      again := true;
    }

    /** `advance`: at most `GUARD` rounds, each dealing with one marker or finding that there is none. */
    method Advance()
      requires Valid()
      modifies this
      ensures Valid()
      ensures Now() == PastMarkers(f, old(Now()), GUARD)
    {
      var round := 0;
      var again := true;
      while round < GUARD && again
        invariant Valid() && round <= GUARD
        invariant again ==> PastMarkers(f, Now(), GUARD - round) == PastMarkers(f, old(Now()), GUARD)
        invariant !again ==> Now() == PastMarkers(f, old(Now()), GUARD)
        decreases GUARD - round, again
      {
        hide Valid, HasMarker, PastMarker;
        NoMore(f, Now(), GUARD - round);
        round := round + 1;
        if suppressed {
          again := false;
        } else if inCall {
          again := AdvanceCapture();
        } else {
          again := AdvanceText();
        }
        NoMore(f, Now(), GUARD - round);
      }
    }

    /** A piece of generated text goes to the block being captured, or to the content. */
    method Feed(piece: Bytes)
      requires Valid()
      modifies this
      ensures Valid()
      ensures Now() == PastMarkers(f, Push(old(Now()), piece), GUARD)
    {
      if suppressed {
        NoMore(f, Now(), GUARD);
        return;
      }
      if inCall {
        ClearAppend(buf, piece, 0, closeScan, f.close);
        buf := buf + piece;
      } else {
        ClearAppend(content, piece, base, scanPos, f.open);
        ClearAppend(content, piece, base, scanPos, f.stop);
        content := content + piece;
        assert content[..base] == old(content)[..base] && content[base..] == old(content)[base..] + piece;
      }
      assert Now() == Push(old(Now()), piece);
      Advance();
    }

    /** The generation is over. */
    method End()
      requires Valid()
      modifies this
      ensures Final(content, calls) == Finish(f, old(Now())) && !inCall
    {
      if suppressed {
        buf, inCall := [], false;
        return;
      }
      if inCall && buf != [] {
        var parsed := f.parse(true, buf);
        if parsed.Call? {
          calls := calls + [parsed.call];
        } else {
          content := content + buf;
        }
        buf := [];
        inCall := false;
      } else {
        assert content[..base] + content[base..] == content;
      }
      scanPos := |content|;
    }
  }

  /**
   However a stream is cut, the scanner ends with the content and the calls of scanning it in one piece, as long as
   the whole stream does not hold more markers than one round of the guard deals with. Up to the stop marker, every
   byte is content, in order, or lies in a block that gave calls, and the calls are those of the blocks.
   */
  method ScanStream(f: Format, pieces: seq<Bytes>) returns (content: Bytes, calls: seq<int>, ghost parts: seq<Part>)
    requires f.open != [] && CutSafe(f) && Sound(f)
    requires MarkerCount(f, Push(START, Flatten(pieces))) <= GUARD
    ensures Final(content, calls) == Finish(f, Settle(f, Push(START, Flatten(pieces))))
    ensures Reads(f, Flatten(pieces), parts) && content == ContentOf(parts) && calls == CallsOf(parts)
    ensures var text := TextOf(parts);
      text <= Flatten(pieces) && (text == Flatten(pieces) || Occurs(Flatten(pieces), |text|, f.stop))
    ensures forall i :: 0 <= i < |parts| && parts[i].Called? ==> parts[i].calls != []
  {
    var sc := new Scanner(f);
    for i := 0 to |pieces|
      invariant fresh(sc) && sc.f == f && sc.Valid() && sc.Now() == ScanAll(f, START, pieces[..i])
    {
      hide Settle, MarkerCount, PastMarkers;
      sc.Feed(pieces[i]);
      PieceMarkers(f, pieces, i);
      PastEnough(f, Push(ScanAll(f, START, pieces[..i]), pieces[i]), GUARD);
      assert pieces[..i + 1][..i] == pieces[..i];
    }
    assert pieces[..|pieces|] == pieces;
    if pieces != [] {
      ScanAllIsOneShot(f, pieces);
    } else {
      assert !HasMarker(f, Push(START, Flatten(pieces)));
    }
    sc.End();
    content, calls := sc.content, sc.calls;
    hide *;
    parts := ScanReads(f, Flatten(pieces));
  }

  /** Without a marker, any number of rounds changes nothing. */
  lemma NoMore(f: Format, v: View, n: nat)
    ensures !HasMarker(f, v) ==> PastMarkers(f, v, n) == v
    ensures v.mode == Suppressed ==> !HasMarker(f, v)
    ensures n > 0 && HasMarker(f, v) ==> PastMarkers(f, v, n) == PastMarkers(f, PastMarker(f, v), n - 1)
  {
  }

  /** After a search that found nothing, only a begun marker at the end is left to wait for. */
  lemma ClearToTail(s: Bytes, from: nat, searched: nat, m: Bytes)
    requires from <= searched && Clear(s, from, searched, m) && Find(s, searched, m) < 0
    ensures Clear(s, from, |s| - TailLen(s, m), m)
  {
    FindFirst(s, searched, m);
    if m != [] {
      forall p: nat | from <= p < |s| - TailLen(s, m) ensures RuledOut(s, p, m) {
        if p >= searched {
          BeforeTail(s, p, m);
        }
      }
    }
  }

  lemma ClearToEnd(s: Bytes, m: Bytes)
    requires Find(s, 0, m) < 0
    ensures Clear(s, 0, |s| - (|m| - 1), m)
  {
    FindFirst(s, 0, m);
    forall p: nat | m != [] && p < |s| - (|m| - 1) ensures RuledOut(s, p, m) {
      NotThere(s, p, m);
    }
  }
}
