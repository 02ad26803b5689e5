/** What scanning a generation for tool calls means, one marker at a time, and why its cutting does not matter. */
module ToolScan {
  import opened Bytes
  import opened Markers

  /** A payload parser sees whether it is given a whole call or the continuation of one; it reports what it used up. */
  datatype Parsed = NoCall | Call(call: int, used: nat)

  /** `stop == []` stands for a format without a stop marker. */
  datatype Format = Format(open: Bytes, close: Bytes, stop: Bytes, parse: (bool, Bytes) -> Parsed)

  /** Every parse uses up at least a byte, and no more than there are. */
  ghost predicate Sound(f: Format) {
    forall first: bool, s: Bytes :: f.parse(first, s).Call? ==> 1 <= f.parse(first, s).used <= |s|
  }

  /** Plain text up to `pending` is settled, or a call block is being captured, or the stop marker was met. */
  datatype Mode = Text | Capture | Suppressed

  datatype View = View(mode: Mode, done: Bytes, pending: Bytes, calls: seq<int>)

  predicate IsSeparator(b: byte) {
    b == ',' as int || b == ' ' as int || 9 <= b <= 13
  }

  function SkipSeparators(s: Bytes): (r: Bytes)
    ensures |r| <= |s|
  {
    if s != [] && IsSeparator(s[0]) then SkipSeparators(s[1..]) else s
  }

  /** The calls of a block: one parsed as a whole, then its continuations, separators between them skipped. */
  function BlockCalls(f: Format, block: Bytes, first: bool): seq<int>
    decreases |block|
  {
    if block == [] then []
    else
      match f.parse(first, block)
      case NoCall => []
      case Call(call, used) =>
        if 1 <= used <= |block| then [call] + BlockCalls(f, SkipSeparators(block[used..]), false) else [call]
  }

  // ---------------------------------------------------------------- one marker

  /** Where the first of the open and stop markers stands, the open marker going first. */
  function FirstMarker(f: Format, s: Bytes): (int, bool) {
    var open, stop := Find(s, 0, f.open), Find(s, 0, f.stop);
    if open >= 0 && (stop < 0 || open <= stop) then (open, false)
    else if stop >= 0 then (stop, true)
    else (-1, false)
  }

  predicate HasMarker(f: Format, v: View) {
    match v.mode
    case Text => FirstMarker(f, v.pending).0 >= 0
    case Capture => Find(v.pending, 0, f.close) >= 0
    case Suppressed => false
  }

  /** The state once the next marker is dealt with. */
  function PastMarker(f: Format, v: View): View
    requires HasMarker(f, v)
  {
    match v.mode
    case Text =>
      var (k, isStop) := FirstMarker(f, v.pending);
      FirstMarkerIs(f, v.pending);
      var done := v.done + v.pending[..k];
      if isStop then View(Suppressed, done, [], v.calls) else View(Capture, done, v.pending[k..], v.calls)
    case Capture =>
      var k := Find(v.pending, 0, f.close);
      FindFirst(v.pending, 0, f.close);
      var calls := BlockCalls(f, v.pending[..k], true);
      var total := k + |f.close|;
      View(Text, if calls == [] then v.done + v.pending[..total] else v.done, v.pending[total..], v.calls + calls)
  }

  lemma FirstMarkerIs(f: Format, s: Bytes)
    ensures var (k, isStop) := FirstMarker(f, s);
      k >= 0 ==> k + |if isStop then f.stop else f.open| <= |s| && Occurs(s, k, if isStop then f.stop else f.open)
  {
    FindFirst(s, 0, f.open);
    FindFirst(s, 0, f.stop);
  }

  function Measure(v: View): nat {
    2 * |v.pending| + if v.mode == Text then 1 else 0
  }

  lemma MarkerShrinks(f: Format, v: View)
    requires HasMarker(f, v) && f.open != []
    ensures Measure(PastMarker(f, v)) < Measure(v)
  {
    FirstMarkerIs(f, v.pending);
    FindFirst(v.pending, 0, f.close);
  }

  /** Every marker is dealt with. */
  function Settle(f: Format, v: View): View
    requires f.open != []
    decreases Measure(v)
  {
    if HasMarker(f, v) then
      MarkerShrinks(f, v);
      Settle(f, PastMarker(f, v))
    else v
  }

  /** How many markers there are to deal with. */
  function MarkerCount(f: Format, v: View): nat
    requires f.open != []
    decreases Measure(v)
  {
    if HasMarker(f, v) then
      MarkerShrinks(f, v);
      1 + MarkerCount(f, PastMarker(f, v))
    else 0
  }

  /** The state after at most `n` markers. */
  function PastMarkers(f: Format, v: View, n: nat): View
    decreases n
  {
    if n > 0 && HasMarker(f, v) then PastMarkers(f, PastMarker(f, v), n - 1) else v
  }

  lemma {:induction false} PastEnough(f: Format, v: View, n: nat)
    requires f.open != [] && MarkerCount(f, v) <= n
    ensures PastMarkers(f, v, n) == Settle(f, v)
    decreases n
  {
    if HasMarker(f, v) {
      PastEnough(f, PastMarker(f, v), n - 1);
    }
  }

  // ---------------------------------------------------------------- more text

  /** Wherever `m` stands in `s`, it ends it. */
  ghost predicate EndsOnly(m: Bytes, s: Bytes) {
    forall p: nat :: Occurs(s, p, m) ==> p + |m| == |s|
  }

  /**
   The formats whose scan does not depend on the cut: an open marker in the stop marker begins or ends it, and a stop
   marker in the open marker ends it.
   */
  ghost predicate CutSafe(f: Format) {
    f.stop != [] ==> (Occurs(f.stop, 0, f.open) || EndsOnly(f.open, f.stop)) && EndsOnly(f.stop, f.open)
  }

  /** A piece arrives; after the stop marker nothing does. */
  function Push(v: View, piece: Bytes): View {
    if v.mode == Suppressed then v else v.(pending := v.pending + piece)
  }

  /** A marker begun no later than another that ends sooner contains it. */
  lemma Contained(s: Bytes, k: nat, m: Bytes, l: nat, n: Bytes)
    requires Occurs(s, k, m) && Occurs(s, l, n) && l <= k && k + |m| <= l + |n|
    ensures Occurs(n, k - l, m)
  {
    var p := k - l;
    forall j | 0 <= j < |m| ensures n[p..p + |m|][j] == m[j] {
      assert s[l..l + |n|][p + j] == s[k..k + |m|][j];
    }
  }

  /** A marker that begins another stands wherever that one does. */
  lemma BegunWith(s: Bytes, l: nat, m: Bytes, n: Bytes)
    requires Occurs(s, l, n) && Occurs(n, 0, m)
    ensures Occurs(s, l, m)
  {
    forall j | 0 <= j < |m| ensures s[l..l + |m|][j] == m[j] {
      assert s[l..l + |n|][j] == n[0..|m|][j];
    }
  }

  /** In a longer text, an open marker found is not preceded by a stop marker. */
  lemma OpenStaysFirst(f: Format, s: Bytes, q: Bytes, k: nat, l: nat)
    requires CutSafe(f) && Find(s, 0, f.open) == k && Occurs(s + q, l, f.stop) && f.stop != []
    requires l + |f.stop| > |s|
    ensures k <= l
  {
    FindFirst(s, 0, f.open);
    if l < k {
      OccursAppend(s, q, k, f.open);
      Contained(s + q, k, f.open, l, f.stop);
      assert Occurs(f.stop, 0, f.open);
      BegunWith(s + q, l, f.open, f.stop);
      OccursAppend(s, q, l, f.open);
    }
  }

  /** In a longer text, a stop marker found is preceded by an open marker only if the text had it already. */
  lemma StopStaysFirst(f: Format, s: Bytes, q: Bytes, k: nat, l: nat)
    requires CutSafe(f) && Find(s, 0, f.stop) == k && Occurs(s + q, l, f.open) && f.stop != []
    requires l + |f.open| > |s|
    ensures k < l
  {
    FindFirst(s, 0, f.stop);
    if l <= k {
      OccursAppend(s, q, k, f.stop);
      Contained(s + q, k, f.stop, l, f.open);
    }
  }

  /** What was there stands where it did; what was not there reaches beyond the text. */
  lemma FindLonger(s: Bytes, q: Bytes, m: Bytes)
    ensures Find(s, 0, m) >= 0 ==> Find(s + q, 0, m) == Find(s, 0, m)
    ensures Find(s, 0, m) < 0 ==> Find(s + q, 0, m) < 0 || Find(s + q, 0, m) + |m| > |s|
    ensures Find(s + q, 0, m) >= 0 ==> m != [] && Occurs(s + q, Find(s + q, 0, m), m)
  {
    if Find(s, 0, m) >= 0 {
      FindAppend(s, q, 0, m);
    }
    FindFirst(s, 0, m);
    FindFirst(s + q, 0, m);
    var l := Find(s + q, 0, m);
    if l >= 0 {
      OccursAppend(s, q, l, m);
    }
  }

  /** The marker met first in a text is met first in any longer text. */
  lemma FirstMarkerAppend(f: Format, s: Bytes, q: Bytes)
    requires CutSafe(f) && FirstMarker(f, s).0 >= 0
    ensures FirstMarker(f, s + q) == FirstMarker(f, s)
  {
    hide Find, Occurs, CutSafe;
    FindLonger(s, q, f.open);
    FindLonger(s, q, f.stop);
    var open, stop := Find(s + q, 0, f.open), Find(s + q, 0, f.stop);
    if Find(s, 0, f.open) < 0 && open >= 0 {
      StopStaysFirst(f, s, q, Find(s, 0, f.stop), open);
    } else if Find(s, 0, f.stop) < 0 && stop >= 0 {
      OpenStaysFirst(f, s, q, Find(s, 0, f.open), stop);
    }
  }

  lemma PastTextMarkerPush(f: Format, v: View, q: Bytes)
    requires CutSafe(f) && v.mode == Text && HasMarker(f, v)
    ensures HasMarker(f, Push(v, q)) && PastMarker(f, Push(v, q)) == Push(PastMarker(f, v), q)
  {
    var s := v.pending;
    FirstMarkerAppend(f, s, q);
    FirstMarkerIs(f, s);
    hide FirstMarker, CutSafe;
    var k := FirstMarker(f, s).0;
    assert (s + q)[..k] == s[..k] && (s + q)[k..] == s[k..] + q;
  }

  lemma PastBlockIs(f: Format, v: View, k: nat, total: nat)
    requires v.mode == Capture && Find(v.pending, 0, f.close) == k && total == k + |f.close|
    ensures HasMarker(f, v) && total <= |v.pending|
    ensures var calls := BlockCalls(f, v.pending[..k], true);
      PastMarker(f, v)
      == View(Text, if calls == [] then v.done + v.pending[..total] else v.done, v.pending[total..], v.calls + calls)
  {
    hide BlockCalls;
    FindFirst(v.pending, 0, f.close);
  }

  lemma CutAppend(s: Bytes, q: Bytes, k: nat, total: nat)
    requires k <= total <= |s|
    ensures (s + q)[..k] == s[..k] && (s + q)[..total] == s[..total] && (s + q)[total..] == s[total..] + q
  {
  }

  lemma PastBlockPush(f: Format, v: View, q: Bytes)
    requires v.mode == Capture && HasMarker(f, v)
    ensures HasMarker(f, Push(v, q)) && PastMarker(f, Push(v, q)) == Push(PastMarker(f, v), q)
  {
    var s := v.pending;
    var k := Find(s, 0, f.close);
    var total := k + |f.close|;
    FindAppend(s, q, 0, f.close);
    hide Find, BlockCalls, PastMarker, HasMarker;
    PastBlockIs(f, v, k, total);
    PastBlockIs(f, Push(v, q), k, total);
    CutAppend(s, q, k, total);
  }

  /** Dealing with a marker and receiving a piece can be swapped. */
  lemma PastMarkerPush(f: Format, v: View, q: Bytes)
    requires CutSafe(f) && HasMarker(f, v)
    ensures HasMarker(f, Push(v, q)) && PastMarker(f, Push(v, q)) == Push(PastMarker(f, v), q)
  {
    hide PastMarker, CutSafe;
    match v.mode
    case Text => PastTextMarkerPush(f, v, q);
    case Capture => PastBlockPush(f, v, q);
  }

  /** Settling before more text arrives changes neither where the scan ends nor how many markers it meets. */
  lemma {:induction false} SettlePush(f: Format, v: View, q: Bytes)
    requires f.open != [] && CutSafe(f)
    ensures Settle(f, Push(Settle(f, v), q)) == Settle(f, Push(v, q))
    ensures MarkerCount(f, v) + MarkerCount(f, Push(Settle(f, v), q)) == MarkerCount(f, Push(v, q))
    decreases Measure(v)
  {
    if HasMarker(f, v) {
      MarkerShrinks(f, v);
      PastMarkerPush(f, v, q);
      SettlePush(f, PastMarker(f, v), q);
    }
  }

  // ---------------------------------------------------------------- whole streams

  const START := View(Text, [], [], [])

  /** The pieces arrive one by one, each settled before the next. */
  function ScanAll(f: Format, v: View, pieces: seq<Bytes>): View
    requires f.open != []
  {
    if pieces == [] then v
    else Settle(f, Push(ScanAll(f, v, pieces[..|pieces| - 1]), pieces[|pieces| - 1]))
  }

  lemma {:induction false} ScanAllIsOneShot(f: Format, pieces: seq<Bytes>)
    requires f.open != [] && CutSafe(f) && pieces != []
    ensures ScanAll(f, START, pieces) == Settle(f, Push(START, Flatten(pieces)))
  {
    hide Settle, MarkerCount;
    var front, last := pieces[..|pieces| - 1], pieces[|pieces| - 1];
    assert pieces == front + [last];
    FlattenSnoc(front, last);
    if front == [] {
      assert Flatten(pieces) == last;
    } else {
      ScanAllIsOneShot(f, front);
      var v := Push(START, Flatten(front));
      SettlePush(f, v, last);
      assert Push(v, last) == Push(START, Flatten(pieces));
    }
  }

  /** No piece of a stream meets more markers than the stream holds. */
  lemma PieceMarkers(f: Format, pieces: seq<Bytes>, k: nat)
    requires f.open != [] && CutSafe(f) && k < |pieces|
    ensures MarkerCount(f, Push(ScanAll(f, START, pieces[..k]), pieces[k]))
         <= MarkerCount(f, Push(START, Flatten(pieces)))
  {
    hide Settle, MarkerCount, ScanAll, Flatten;
    var front, rest := pieces[..k], pieces[k + 1..];
    var v := Push(START, Flatten(front));
    PrefixScan(f, front, pieces[k]);
    SettlePush(f, v, pieces[k]);
    SettlePush(f, Push(v, pieces[k]), Flatten(rest));
    assert Push(Push(v, pieces[k]), Flatten(rest)) == Push(START, Flatten(pieces)) by {
      assert pieces == front + [pieces[k]] + rest;
      FlattenAppend(front + [pieces[k]], rest);
      FlattenSnoc(front, pieces[k]);
    }
  }

  lemma PrefixScan(f: Format, front: seq<Bytes>, piece: Bytes)
    requires f.open != [] && CutSafe(f)
    ensures var v := Push(START, Flatten(front));
      MarkerCount(f, Push(ScanAll(f, START, front), piece)) <= MarkerCount(f, Push(v, piece))
  {
    hide Settle, MarkerCount;
    var v := Push(START, Flatten(front));
    if front == [] {
      EmptyScan(f);
      assert Push(START, Flatten(front)) == START;
    } else {
      ScanAllIsOneShot(f, front);
      SettlePush(f, v, piece);
    }
  }

  lemma EmptyScan(f: Format)
    requires f.open != []
    ensures ScanAll(f, START, []) == START && Flatten([]) == []
  {
  }

  datatype Final = Final(content: Bytes, calls: seq<int>)

  /** `toolcall_scanner_finish`: a call cut short is salvaged if it parses, and is content otherwise. */
  function Finish(f: Format, v: View): Final {
    match v.mode
    case Suppressed => Final(v.done, v.calls)
    case Text => Final(v.done + v.pending, v.calls)
    case Capture =>
      if v.pending == [] then Final(v.done, v.calls)
      else
        match f.parse(true, v.pending)
        case NoCall => Final(v.done + v.pending, v.calls)
        case Call(call, _) => Final(v.done, v.calls + [call])
  }

  /** Two ways of cutting the same stream end with the same content and the same calls. */
  lemma CuttingDoesNotMatter(f: Format, a: seq<Bytes>, b: seq<Bytes>)
    requires f.open != [] && CutSafe(f) && a != [] && b != [] && Flatten(a) == Flatten(b)
    ensures Finish(f, ScanAll(f, START, a)) == Finish(f, ScanAll(f, START, b))
         == Finish(f, Settle(f, Push(START, Flatten(a))))
  {
    ScanAllIsOneShot(f, a);
    ScanAllIsOneShot(f, b);
  }
}
