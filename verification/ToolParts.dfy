/** What a generated text holds, part by part: the calls of its blocks, and everything else as content. */
module ToolParts {
  import opened Bytes
  import opened Markers
  import opened ToolScan

  // ---------------------------------------------------------------- the calls of a block

  /** Comma, space, and tab to carriage return. */
  const SEPARATORS: set<byte> := {44, 32, 9, 10, 11, 12, 13}

  /**
   The longest chain of parses from `at` on: each later one begins where the one before has ended, past the separators,
   and there is no further one.
   */
  ghost predicate ChainFrom(f: Format, block: Bytes, at: nat, first: bool, calls: seq<int>)
    decreases |block| - at
  {
    if at >= |block| then calls == []
    else if !first && block[at] in SEPARATORS then ChainFrom(f, block, at + 1, false, calls)
    else
      match f.parse(first, block[at..])
      case NoCall => calls == []
      case Call(call, used) =>
        used >= 1 && calls != [] && calls[0] == call && ChainFrom(f, block, at + used, false, calls[1..])
  }

  /** The first parse of a block is of a whole call, every later one of a continuation. */
  ghost predicate Chain(f: Format, block: Bytes, calls: seq<int>) {
    ChainFrom(f, block, 0, true, calls)
  }

  // ---------------------------------------------------------------- the parts of a text

  /** Text outside calls, a block that gave calls, or a block that gave none. */
  datatype Part = Plain(text: Bytes) | Called(text: Bytes, calls: seq<int>) | Kept(text: Bytes)

  ghost predicate Absent(s: Bytes, m: Bytes) {
    m == [] || forall p: nat :: !Occurs(s, p, m)
  }

  ghost predicate FirstAt(s: Bytes, k: nat, m: Bytes) {
    m != [] && Occurs(s, k, m) && forall p: nat :: p < k ==> !Occurs(s, p, m)
  }

  ghost predicate NotBefore(s: Bytes, k: nat, m: Bytes) {
    m == [] || forall p: nat :: p < k ==> !Occurs(s, p, m)
  }

  /** The open marker comes first, or the stop marker does. */
  ghost predicate OpensAt(f: Format, s: Bytes, k: nat) {
    FirstAt(s, k, f.open) && NotBefore(s, k, f.stop)
  }

  ghost predicate StopsAt(f: Format, s: Bytes, k: nat) {
    FirstAt(s, k, f.stop) && NotBefore(s, k + 1, f.open)
  }

  /** A block that is never closed is a call if it parses as one. */
  ghost predicate Unclosed(f: Format, block: Bytes, part: Part) {
    Absent(block, f.close)
    && if f.parse(true, block).Call? then part == Called(block, [f.parse(true, block).call]) else part == Kept(block)
  }

  /** A block up to its first close marker, at `c`, with the calls of what stands before it. */
  ghost predicate Closed(f: Format, block: Bytes, c: nat, part: Part) {
    && FirstAt(block, c, f.close) && c + |f.close| <= |block| && part.text == block[..c + |f.close|] && !part.Plain?
    && Chain(f, block[..c], if part.Called? then part.calls else []) && (part.Called? ==> part.calls != [])
  }

  /** The text is cut at its first marker. */
  ghost predicate CutsAt(f: Format, s: Bytes, k: nat, part: Part) {
    k <= |s| && part == Plain(s[..k]) && (OpensAt(f, s, k) || StopsAt(f, s, k))
  }

  /** The parts of a text, up to the stop marker. */
  ghost predicate Reads(f: Format, s: Bytes, parts: seq<Part>)
    decreases |parts|
  {
    if Absent(s, f.open) && Absent(s, f.stop) then parts == [Plain(s)]
    else
      && parts != []
      && exists k: nat ::
        CutsAt(f, s, k, parts[0]) && if StopsAt(f, s, k) then |parts| == 1 else ReadsBlock(f, s[k..], parts[1..])
  }

  /** The parts from an open marker on: its block, and what follows if it is closed. */
  ghost predicate ReadsBlock(f: Format, block: Bytes, parts: seq<Part>)
    decreases |parts|
  {
    && parts != []
    && ((|parts| == 1 && Unclosed(f, block, parts[0]))
        || exists c: nat :: Closed(f, block, c, parts[0]) && Reads(f, block[c + |f.close|..], parts[1..]))
  }

  function ContentOf(parts: seq<Part>): Bytes {
    if parts == [] then []
    else (if parts[0].Called? then [] else parts[0].text) + ContentOf(parts[1..])
  }

  function CallsOf(parts: seq<Part>): seq<int> {
    if parts == [] then []
    else (if parts[0].Called? then parts[0].calls else []) + CallsOf(parts[1..])
  }

  function TextOf(parts: seq<Part>): Bytes {
    if parts == [] then [] else parts[0].text + TextOf(parts[1..])
  }

  // ---------------------------------------------------------------- the chain is what the scanner's loop finds

  lemma Separators(b: byte)
    ensures IsSeparator(b) <==> b in SEPARATORS
  {
  }

  /** The calls the scanner's loop finds from `at` on. */
  function Found(f: Format, block: Bytes, at: nat, first: bool): seq<int>
    requires at <= |block|
  {
    BlockCalls(f, if first then block[at..] else SkipSeparators(block[at..]), first)
  }

  lemma FoundPast(f: Format, block: Bytes, at: nat)
    requires at < |block| && IsSeparator(block[at])
    ensures Found(f, block, at, false) == Found(f, block, at + 1, false)
  {
    hide IsSeparator;
    assert block[at..][1..] == block[at + 1..];
  }

  lemma FoundHere(f: Format, block: Bytes, at: nat, first: bool)
    requires Sound(f) && at < |block| && (first || !IsSeparator(block[at]))
    ensures match f.parse(first, block[at..])
      case NoCall => Found(f, block, at, first) == []
      case Call(call, used) =>
        1 <= used <= |block| - at && Found(f, block, at, first) == [call] + Found(f, block, at + used, false)
  {
    hide IsSeparator;
    match f.parse(first, block[at..])
    case NoCall =>
    case Call(call, used) => assert block[at..][used..] == block[at + used..];
  }

  lemma FoundNothing(f: Format, block: Bytes, first: bool)
    ensures Found(f, block, |block|, first) == []
  {
    assert block[|block|..] == [];
  }

  /** They are the longest chain, and no other sequence is. */
  lemma {:induction false} ChainIs(f: Format, block: Bytes, at: nat, first: bool, calls: seq<int>)
    requires Sound(f) && at <= |block|
    ensures ChainFrom(f, block, at, first, calls) <==> calls == Found(f, block, at, first)
    decreases |block| - at
  {
    hide IsSeparator, Found;
    if at == |block| {
      FoundNothing(f, block, first);
    } else {
      Separators(block[at]);
      if !first && IsSeparator(block[at]) {
        FoundPast(f, block, at);
        ChainIs(f, block, at + 1, false, calls);
      } else {
        FoundHere(f, block, at, first);
        match f.parse(first, block[at..])
        case NoCall =>
        case Call(call, used) =>
          if calls != [] {
            ChainIs(f, block, at + used, false, calls[1..]);
            assert calls == [calls[0]] + calls[1..];
          }
      }
    }
  }

  lemma ChainExactly(f: Format, block: Bytes, calls: seq<int>)
    requires Sound(f)
    ensures Chain(f, block, calls) <==> calls == BlockCalls(f, block, true)
  {
    ChainIs(f, block, 0, true, calls);
    assert block[0..] == block;
  }

  // ---------------------------------------------------------------- the parts are what the scan makes

  function LastPart(f: Format, block: Bytes): Part {
    match f.parse(true, block)
    case NoCall => Kept(block)
    case Call(call, _) => Called(block, [call])
  }

  function BlockPart(f: Format, block: Bytes, c: nat): Part
    requires c + |f.close| <= |block|
  {
    var calls := BlockCalls(f, block[..c], true);
    if calls == [] then Kept(block[..c + |f.close|]) else Called(block[..c + |f.close|], calls)
  }

  /** Where a block's close marker stands, and where a text is cut. */
  function CloseAt(f: Format, block: Bytes): (c: int)
    ensures c == Find(block, 0, f.close) && (c >= 0 ==> 0 < |f.close| && c + |f.close| <= |block|)
  {
    FindFirst(block, 0, f.close);
    Find(block, 0, f.close)
  }

  function CutAt(f: Format, s: Bytes): (cut: (int, bool))
    requires f.open != []
    ensures cut == FirstMarker(f, s) && (cut.0 >= 0 ==> cut.0 <= |s| && (!cut.1 ==> cut.0 < |s|))
  {
    FirstMarkerIs(f, s);
    FirstMarker(f, s)
  }

  /** The parts from an open marker on. */
  function MoreParts(f: Format, block: Bytes): seq<Part>
    requires f.open != []
    decreases |block|, 0
  {
    var c := CloseAt(f, block);
    if c < 0 then [LastPart(f, block)] else [BlockPart(f, block, c)] + PartsOf(f, block[c + |f.close|..])
  }

  /** The parts, by the searches the scanner makes. */
  function PartsOf(f: Format, s: Bytes): seq<Part>
    requires f.open != []
    decreases |s|, 1
  {
    var (k, isStop) := CutAt(f, s);
    if k < 0 then [Plain(s)] else if isStop then [Plain(s[..k])] else [Plain(s[..k])] + MoreParts(f, s[k..])
  }

  lemma FindsFirst(s: Bytes, m: Bytes)
    ensures Find(s, 0, m) < 0 <==> Absent(s, m)
    ensures Find(s, 0, m) >= 0 ==> FirstAt(s, Find(s, 0, m), m)
    ensures forall k: nat :: FirstAt(s, k, m) ==> k == Find(s, 0, m)
  {
    FindFirst(s, 0, m);
    forall k: nat | FirstAt(s, k, m) ensures k == Find(s, 0, m) {
      FindIs(s, 0, m, k);
    }
  }

  /** The marker that comes first is the one the scan finds. */
  lemma MarkersAre(f: Format, s: Bytes)
    requires f.open != []
    ensures FirstMarker(f, s).0 < 0 <==> Absent(s, f.open) && Absent(s, f.stop)
    ensures forall k: nat :: StopsAt(f, s, k) <==> FirstMarker(f, s) == (k, true)
    ensures forall k: nat :: OpensAt(f, s, k) <==> FirstMarker(f, s) == (k, false)
  {
    FindFirst(s, 0, f.open);
    FindFirst(s, 0, f.stop);
    hide Find, Occurs;
  }

  lemma UnclosedIs(f: Format, block: Bytes, part: Part)
    requires Find(block, 0, f.close) < 0
    ensures Unclosed(f, block, part) <==> part == LastPart(f, block)
  {
    FindsFirst(block, f.close);
    hide Find, Absent;
  }

  lemma ClosedIs(f: Format, block: Bytes, c: nat, part: Part)
    requires Sound(f) && c == Find(block, 0, f.close) && c + |f.close| <= |block|
    ensures Closed(f, block, c, part) <==> part == BlockPart(f, block, c)
  {
    FindsFirst(block, f.close);
    ChainExactly(f, block[..c], if part.Called? then part.calls else []);
    hide Find, FirstAt, Chain, BlockCalls;
  }

  lemma ReadsPlain(f: Format, s: Bytes, parts: seq<Part>)
    requires f.open != [] && (FirstMarker(f, s).0 < 0 || FirstMarker(f, s).1)
    ensures Reads(f, s, parts) <==> parts == PartsOf(f, s)
  {
    MarkersAre(f, s);
    FirstMarkerIs(f, s);
    hide FirstMarker, Absent, StopsAt, OpensAt, ReadsBlock;
    var (k, isStop) := FirstMarker(f, s);
    if k >= 0 && parts == [Plain(s[..k])] {
      assert CutsAt(f, s, k, parts[0]);
    }
  }

  /** A text that is cut at an open marker. */
  lemma ReadsOpen(f: Format, s: Bytes, k: nat, parts: seq<Part>)
    requires f.open != [] && FirstMarker(f, s) == (k, false) && k <= |s|
    ensures Reads(f, s, parts) <==> parts != [] && parts[0] == Plain(s[..k]) && ReadsBlock(f, s[k..], parts[1..])
  {
    MarkersAre(f, s);
    hide FirstMarker, Absent, StopsAt, OpensAt, ReadsBlock;
    if parts != [] && parts[0] == Plain(s[..k]) {
      assert CutsAt(f, s, k, parts[0]);
    }
  }

  lemma BlockUnclosed(f: Format, block: Bytes, parts: seq<Part>)
    requires Find(block, 0, f.close) < 0
    ensures ReadsBlock(f, block, parts) <==> parts == [LastPart(f, block)]
  {
    FindsFirst(block, f.close);
    if parts != [] {
      UnclosedIs(f, block, parts[0]);
    }
    hide Find, Absent, Unclosed, LastPart, Reads;
  }

  /** A block is closed at its first close marker, and is not left unclosed then. */
  lemma ClosedAt(f: Format, block: Bytes, part: Part)
    ensures forall k: nat :: Closed(f, block, k, part) ==> k == Find(block, 0, f.close)
    ensures Find(block, 0, f.close) >= 0 ==> !Unclosed(f, block, part)
  {
    FindsFirst(block, f.close);
    hide Find, FirstAt, Absent, Chain;
  }

  lemma BlockClosed(f: Format, block: Bytes, c: nat, parts: seq<Part>)
    requires Sound(f) && c == Find(block, 0, f.close) && c + |f.close| <= |block|
    ensures ReadsBlock(f, block, parts) <==>
      parts != [] && parts[0] == BlockPart(f, block, c) && Reads(f, block[c + |f.close|..], parts[1..])
  {
    hide Find, Closed, Unclosed, BlockPart, Reads, Sound;
    if parts != [] {
      ClosedAt(f, block, parts[0]);
      ClosedIs(f, block, c, parts[0]);
    }
  }

  lemma MoreIs(f: Format, block: Bytes)
    requires f.open != []
    ensures var c := CloseAt(f, block);
      MoreParts(f, block)
      == if c < 0 then [LastPart(f, block)] else [BlockPart(f, block, c)] + PartsOf(f, block[c + |f.close|..])
  {
    hide CloseAt, LastPart, BlockPart, PartsOf;
  }

  lemma MorePartsClosed(f: Format, block: Bytes, c: nat)
    requires f.open != [] && c == Find(block, 0, f.close)
    ensures f.close != [] && c + |f.close| <= |block|
    ensures MoreParts(f, block) == [BlockPart(f, block, c)] + PartsOf(f, block[c + |f.close|..])
  {
    hide Find, CloseAt, LastPart, BlockPart, PartsOf;
    assert c == CloseAt(f, block);
  }

  lemma {:induction false} BlockExactly(f: Format, block: Bytes, parts: seq<Part>)
    requires f.open != [] && Sound(f)
    ensures ReadsBlock(f, block, parts) <==> parts == MoreParts(f, block)
    decreases |block|, 0
  {
    var c := Find(block, 0, f.close);
    if c < 0 {
      BlockUnclosed(f, block, parts);
    } else {
      hide *;
      MorePartsClosed(f, block, c);
      BlockClosed(f, block, c, parts);
      if parts != [] {
        assert parts == [parts[0]] + parts[1..];
        ReadsExactly(f, block[c + |f.close|..], parts[1..]);
      }
    }
  }

  /** A text has one sequence of parts, and it is the one the scan makes. */
  lemma {:induction false} ReadsExactly(f: Format, s: Bytes, parts: seq<Part>)
    requires f.open != [] && Sound(f)
    ensures Reads(f, s, parts) <==> parts == PartsOf(f, s)
    decreases |s|, 1
  {
    FirstMarkerIs(f, s);
    var (k, isStop) := FirstMarker(f, s);
    if k < 0 || isStop {
      ReadsPlain(f, s, parts);
    } else {
      ReadsOpen(f, s, k, parts);
      hide FirstMarker, Reads, ReadsBlock, MoreParts;
      if parts != [] {
        assert parts == [parts[0]] + parts[1..];
        BlockExactly(f, s[k..], parts[1..]);
      }
    }
  }

  // ---------------------------------------------------------------- what the scan ends with

  /** Behind an open marker: the block is closed and dealt with, or the text ends in it. */
  lemma SettleOpen(f: Format, done: Bytes, s: Bytes, calls: seq<int>, k: nat)
    requires f.open != [] && FirstMarker(f, s) == (k, false) && k <= |s|
    ensures Settle(f, View(Text, done, s, calls)) == Settle(f, View(Capture, done + s[..k], s[k..], calls))
  {
    hide FirstMarker;
    assert PastMarker(f, View(Text, done, s, calls)) == View(Capture, done + s[..k], s[k..], calls);
  }

  lemma SettleBlock(f: Format, done: Bytes, block: Bytes, calls: seq<int>, c: nat)
    requires f.open != [] && Find(block, 0, f.close) == c && c + |f.close| <= |block|
    ensures var part, after := BlockPart(f, block, c), block[c + |f.close|..];
      Settle(f, View(Capture, done, block, calls))
      == Settle(f, View(Text, done + ContentOf([part]), after, calls + CallsOf([part])))
  {
    hide Find, BlockCalls, FirstMarker;
    var part := BlockPart(f, block, c);
    OnePart(part);
    assert done + [] == done && calls + [] == calls;
    assert PastMarker(f, View(Capture, done, block, calls))
        == View(Text, done + ContentOf([part]), block[c + |f.close|..], calls + CallsOf([part]));
  }

  lemma OnePart(part: Part)
    ensures ContentOf([part]) == if part.Called? then [] else part.text
    ensures CallsOf([part]) == if part.Called? then part.calls else []
  {
    assert [part][1..] == [];
  }

  lemma ConsParts(part: Part, rest: seq<Part>)
    ensures ContentOf([part] + rest) == ContentOf([part]) + ContentOf(rest)
    ensures CallsOf([part] + rest) == CallsOf([part]) + CallsOf(rest)
    ensures TextOf([part] + rest) == part.text + TextOf(rest)
  {
    OnePart(part);
    assert ([part] + rest)[1..] == rest;
  }

  lemma SettleLast(f: Format, done: Bytes, block: Bytes, calls: seq<int>)
    requires f.open != [] && Find(block, 0, f.close) < 0 && block != []
    ensures var part := LastPart(f, block);
      Finish(f, Settle(f, View(Capture, done, block, calls)))
      == Final(done + ContentOf([part]), calls + CallsOf([part]))
  {
    hide Find;
    OnePart(LastPart(f, block));
    assert done + [] == done && calls + [] == calls;
  }

  lemma SettlePlain(f: Format, done: Bytes, s: Bytes, calls: seq<int>)
    requires f.open != [] && (FirstMarker(f, s).0 < 0 || FirstMarker(f, s).1)
    ensures var parts := PartsOf(f, s);
      Finish(f, Settle(f, View(Text, done, s, calls))) == Final(done + ContentOf(parts), calls + CallsOf(parts))
  {
    FirstMarkerIs(f, s);
    var (k, isStop) := FirstMarker(f, s);
    OnePart(if k < 0 then Plain(s) else Plain(s[..k]));
    assert calls + [] == calls;
    hide FirstMarker;
    if k >= 0 {
      assert PastMarker(f, View(Text, done, s, calls)) == View(Suppressed, done + s[..k], [], calls);
    }
  }

  lemma JoinCalls(a: seq<int>, b: seq<int>, c: seq<int>)
    ensures a + (b + c) == a + b + c && [] + b == b && a + [] == a
  {
  }

  lemma ScanUnclosed(f: Format, done: Bytes, s: Bytes, calls: seq<int>, k: nat)
    requires f.open != [] && FirstMarker(f, s) == (k, false) && k < |s| && Find(s[k..], 0, f.close) < 0
    ensures var parts := [Plain(s[..k]), LastPart(f, s[k..])];
      Finish(f, Settle(f, View(Text, done, s, calls))) == Final(done + ContentOf(parts), calls + CallsOf(parts))
  {
    SettleOpen(f, done, s, calls, k);
    var part := LastPart(f, s[k..]);
    hide Find, FirstMarker, Settle, Finish, LastPart, ContentOf, CallsOf;
    SettleLast(f, done + s[..k], s[k..], calls);
    OnePart(Plain(s[..k]));
    ConsParts(Plain(s[..k]), [part]);
    assert [Plain(s[..k])] + [part] == [Plain(s[..k]), part];
    Regroup(done, s[..k], ContentOf([part]));
    JoinCalls([], CallsOf([part]), []);
  }

  lemma ScanClosed(f: Format, done: Bytes, s: Bytes, calls: seq<int>, k: nat, c: nat, rest: seq<Part>)
    requires f.open != [] && FirstMarker(f, s) == (k, false) && k < |s|
    requires Find(s[k..], 0, f.close) == c && c + |f.close| <= |s| - k
    requires var part, after := BlockPart(f, s[k..], c), s[k..][c + |f.close|..];
      Finish(f, Settle(f, View(Text, done + s[..k] + ContentOf([part]), after, calls + CallsOf([part]))))
      == Final(done + s[..k] + ContentOf([part]) + ContentOf(rest), calls + CallsOf([part]) + CallsOf(rest))
    ensures var parts := [Plain(s[..k])] + ([BlockPart(f, s[k..], c)] + rest);
      Finish(f, Settle(f, View(Text, done, s, calls))) == Final(done + ContentOf(parts), calls + CallsOf(parts))
  {
    SettleOpen(f, done, s, calls, k);
    var part := BlockPart(f, s[k..], c);
    hide Find, FirstMarker, Settle, Finish, BlockPart, ContentOf, CallsOf;
    SettleBlock(f, done + s[..k], s[k..], calls, c);
    OnePart(Plain(s[..k]));
    ConsParts(Plain(s[..k]), [part] + rest);
    ConsParts(part, rest);
    var text := ContentOf([part]);
    Regroup(done, s[..k], text + ContentOf(rest));
    Regroup(done + s[..k], text, ContentOf(rest));
    JoinCalls(calls, CallsOf([part]), CallsOf(rest));
    JoinCalls([], CallsOf([part]) + CallsOf(rest), []);
  }

  /** The parts of a text that is cut at an open marker. */
  lemma PartsOpened(f: Format, s: Bytes, k: nat)
    requires f.open != [] && FirstMarker(f, s) == (k, false)
    ensures k < |s|
    ensures var c := Find(s[k..], 0, f.close);
      && (c < 0 ==> PartsOf(f, s) == [Plain(s[..k]), LastPart(f, s[k..])])
      && (c >= 0 ==>
            && 0 < c + |f.close| <= |s| - k
            && PartsOf(f, s)
               == [Plain(s[..k])] + ([BlockPart(f, s[k..], c)] + PartsOf(f, s[k..][c + |f.close|..])))
  {
    hide FirstMarker, Find, CutAt, CloseAt, LastPart, BlockPart;
    assert (k as int, false) == CutAt(f, s);
    MoreIs(f, s[k..]);
    hide *;
  }

  /** The one-shot scan ends with the content and the calls of the parts. */
  lemma {:induction false} ScanIsParts(f: Format, done: Bytes, s: Bytes, calls: seq<int>)
    requires f.open != [] && Sound(f)
    ensures var parts := PartsOf(f, s);
      Finish(f, Settle(f, View(Text, done, s, calls))) == Final(done + ContentOf(parts), calls + CallsOf(parts))
    decreases |s|, 1
  {
    hide *;
    var (k, isStop) := FirstMarker(f, s);
    if k < 0 || isStop {
      SettlePlain(f, done, s, calls);
    } else {
      PartsOpened(f, s, k);
      var c := Find(s[k..], 0, f.close);
      if c < 0 {
        ScanUnclosed(f, done, s, calls, k);
      } else {
        ScanOpened(f, done, s, calls, k, c);
      }
    }
  }

  lemma {:induction false} ScanOpened(f: Format, done: Bytes, s: Bytes, calls: seq<int>, k: nat, c: nat)
    requires f.open != [] && Sound(f) && FirstMarker(f, s) == (k, false) && k < |s|
    requires Find(s[k..], 0, f.close) == c && 0 < c + |f.close| <= |s| - k
    ensures var parts := [Plain(s[..k])] + ([BlockPart(f, s[k..], c)] + PartsOf(f, s[k..][c + |f.close|..]));
      Finish(f, Settle(f, View(Text, done, s, calls))) == Final(done + ContentOf(parts), calls + CallsOf(parts))
    decreases |s|, 0
  {
    hide *;
    var part, after := BlockPart(f, s[k..], c), s[k..][c + |f.close|..];
    ScanIsParts(f, done + s[..k] + ContentOf([part]), after, calls + CallsOf([part]));
    ScanClosed(f, done, s, calls, k, c, PartsOf(f, after));
  }

  /**
   Scanning a text ends with the content of its parts and the calls of its blocks, and parts it has exactly one
   sequence of.
   */
  lemma ScanReads(f: Format, s: Bytes) returns (parts: seq<Part>)
    requires f.open != [] && Sound(f)
    ensures Reads(f, s, parts) && forall others :: Reads(f, s, others) ==> others == parts
    ensures TextOf(parts) <= s && (TextOf(parts) == s || Occurs(s, |TextOf(parts)|, f.stop))
    ensures forall i :: 0 <= i < |parts| && parts[i].Called? ==> parts[i].calls != []
    ensures Finish(f, Settle(f, Push(START, s))) == Final(ContentOf(parts), CallsOf(parts))
  {
    hide Settle, Finish, Reads, PartsOf;
    parts := PartsOf(f, s);
    forall others ensures Reads(f, s, others) <==> others == PartsOf(f, s) {
      ReadsExactly(f, s, others);
    }
    assert [] + s == s;
    ScanIsParts(f, [], s, []);
    PartsCover(f, s);
    assert [] + ContentOf(parts) == ContentOf(parts) && [] + CallsOf(parts) == CallsOf(parts);
  }

  lemma CoverOpen(f: Format, s: Bytes, k: nat, part: Part, after: Bytes, rest: seq<Part>)
    requires k <= |s| && part.text + after == s[k..]
    requires TextOf(rest) <= after && (TextOf(rest) == after || Occurs(after, |TextOf(rest)|, f.stop))
    ensures var text := TextOf([Plain(s[..k])] + ([part] + rest));
      text <= s && (text == s || Occurs(s, |text|, f.stop))
  {
    ConsParts(Plain(s[..k]), [part] + rest);
    ConsParts(part, rest);
    hide TextOf;
    var t := TextOf(rest);
    assert s == s[..k] + part.text + after;
    assert s[..k] + (part.text + t) == s[..k] + part.text + t;
    var n := k + |part.text|;
    assert s[n..] == after;
    OccursDrop(s, n, |t|, f.stop);
  }

  lemma BlockPartText(f: Format, block: Bytes, c: nat)
    requires c + |f.close| <= |block|
    ensures var part := BlockPart(f, block, c);
      part.text + block[c + |f.close|..] == block && (part.Called? ==> part.calls != [])
  {
    hide BlockCalls;
  }

  /** What the parts from an open marker on leave of their block. */
  lemma MorePartsAre(f: Format, block: Bytes) returns (part: Part, after: Bytes, rest: seq<Part>)
    requires f.open != []
    ensures MoreParts(f, block) == [part] + rest && part.text + after == block && (part.Called? ==> part.calls != [])
    ensures (after == [] && rest == []) || (|after| < |block| && rest == PartsOf(f, after))
  {
    var c := Find(block, 0, f.close);
    if c < 0 {
      hide Find;
      part, after, rest := LastPart(f, block), [], [];
      assert [part] + rest == [part] && part.text + after == part.text;
    } else {
      hide *;
      MorePartsClosed(f, block, c);
      BlockPartText(f, block, c);
      part, after := BlockPart(f, block, c), block[c + |f.close|..];
      rest := PartsOf(f, after);
    }
  }

  /** The parts are the text up to the stop marker, byte for byte; only blocks that gave calls are not content. */
  lemma {:induction false} PartsCover(f: Format, s: Bytes)
    requires f.open != []
    ensures var text := TextOf(PartsOf(f, s)); text <= s && (text == s || Occurs(s, |text|, f.stop))
    ensures forall i :: 0 <= i < |PartsOf(f, s)| && PartsOf(f, s)[i].Called? ==> PartsOf(f, s)[i].calls != []
    decreases |s|
  {
    FirstMarkerIs(f, s);
    var (k, isStop) := FirstMarker(f, s);
    if k >= 0 && !isStop {
      assert PartsOf(f, s) == [Plain(s[..k])] + MoreParts(f, s[k..]);
      hide FirstMarker, PartsOf, MoreParts, Occurs;
      var part, after, rest := MorePartsAre(f, s[k..]);
      if rest != [] {
        PartsCover(f, after);
      }
      CoverOpen(f, s, k, part, after, rest);
    } else {
      TextOfOne(if k < 0 then Plain(s) else Plain(s[..k]));
    }
  }

  lemma TextOfOne(part: Part)
    ensures TextOf([part]) == part.text
  {
    assert [part][1..] == [];
  }
}
