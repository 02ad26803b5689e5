/** Exactly which formats are scanned alike however their stream is cut, and that the registered ones are. */
module ToolCuts {
  import opened Bytes
  import opened Markers
  import opened ToolScan

  /** No two ways of cutting any stream end with different content or calls. */
  ghost predicate CutFree(f: Format)
    requires f.open != []
  {
    forall a: seq<Bytes>, b: seq<Bytes> :: a != [] && b != [] && Flatten(a) == Flatten(b) ==>
      Finish(f, ScanAll(f, START, a)) == Finish(f, ScanAll(f, START, b))
  }

  ghost predicate Inside(m: Bytes, s: Bytes) {
    exists p: nat :: Occurs(s, p, m)
  }

  // ---------------------------------------------------------------- streams that depend on the cut

  /** Content that is settled stays. */
  lemma {:induction false} DoneStays(f: Format, v: View)
    requires f.open != []
    ensures v.done <= Settle(f, v).done
    decreases Measure(v)
  {
    if HasMarker(f, v) {
      MarkerShrinks(f, v);
      DoneStays(f, PastMarker(f, v));
    }
  }

  lemma TwoPieces(f: Format, front: Bytes, last: Bytes)
    requires f.open != []
    ensures ScanAll(f, START, [front + last]) == Settle(f, View(Text, [], front + last, []))
    ensures ScanAll(f, START, [front, last]) == Settle(f, Push(Settle(f, View(Text, [], front, [])), last))
    ensures Flatten([front, last]) == Flatten([front + last])
  {
    hide Settle;
    assert [front, last][..1] == [front] && [front][..0] == [] && [front + last][..0] == [];
    assert ScanAll(f, START, []) == START;
    assert ScanAll(f, START, [front]) == Settle(f, Push(START, front));
    assert [] + front == front && [] + (front + last) == front + last;
    FlattenSnoc([front], last);
    FlattenSnoc([], front);
    FlattenSnoc([], front + last);
    assert [] + [front] == [front] && [front] + [last] == [front, last] && [] + [front + last] == [front + last];
  }

  lemma Differ(f: Format, front: Bytes, last: Bytes)
    requires f.open != []
    requires Finish(f, Settle(f, View(Text, [], front + last, [])))
          != Finish(f, Settle(f, Push(Settle(f, View(Text, [], front, [])), last)))
    ensures !CutFree(f)
  {
    TwoPieces(f, front, last);
    hide Settle, Finish, ScanAll;
  }

  /** Cut behind its first occurrence, the marker is found where it was. */
  lemma FoundInFront(front: Bytes, rest: Bytes, m: Bytes, k: nat)
    requires Find(front + rest, 0, m) == k && k + |m| == |front|
    ensures Find(front, 0, m) == k
  {
    var s := front + rest;
    FindFirst(s, 0, m);
    hide Find, Occurs;
    OccursAppend(front, rest, k, m);
    forall p: nat | p < k ensures !Occurs(front, p, m) {
      OccursAppend(front, rest, p, m);
    }
    FindIs(front, 0, m, k);
  }

  lemma TooShort(s: Bytes, m: Bytes)
    requires |s| < |m|
    ensures Find(s, 0, m) == -1
  {
  }

  lemma WholeMarker(m: Bytes)
    requires m != []
    ensures Find(m, 0, m) == 0
  {
    assert Occurs(m, 0, m);
  }

  lemma FirstPlace(s: Bytes, m: Bytes, p: nat)
    requires m != [] && Occurs(s, p, m)
    ensures 0 <= Find(s, 0, m) <= p && Occurs(s, Find(s, 0, m), m)
  {
    FindFirst(s, 0, m);
  }

  /** The stop marker is met at once: nothing is left. */
  lemma StopAtOnce(f: Format, s: Bytes, k: nat)
    requires f.open != [] && FirstMarker(f, s) == (k, true) && k <= |s|
    ensures Settle(f, View(Text, [], s, [])) == View(Suppressed, s[..k], [], [])
  {
    hide FirstMarker;
    var v, x := View(Text, [], s, []), View(Suppressed, s[..k], [], []);
    assert [] + s[..k] == s[..k];
    assert Settle(f, v) == Settle(f, x) == x;
  }

  /** Text in front of a call stays content. */
  lemma TextBeforeCall(f: Format, front: Bytes, last: Bytes, k: nat)
    requires f.open != [] && FirstMarker(f, front) == (k, false) && 0 < k <= |front|
    ensures Finish(f, Settle(f, Push(Settle(f, View(Text, [], front, [])), last))).content != []
  {
    hide FirstMarker;
    var v := View(Text, [], front, []);
    DoneStays(f, PastMarker(f, v));
    DoneStays(f, Push(Settle(f, v), last));
    assert |PastMarker(f, v).done| == k;
  }

  /** An open marker on its own is held until the end. */
  lemma OpenHeld(f: Format)
    requires f.open != [] && FirstMarker(f, f.open) == (0, false) && Find(f.open, 0, f.close) < 0
    ensures Settle(f, View(Text, [], f.open, [])) == View(Capture, [], f.open, [])
  {
    hide Find, FirstMarker;
    var v, x := View(Text, [], f.open, []), View(Capture, [], f.open, []);
    assert [] + f.open[..0] == [] && f.open[0..] == f.open;
    assert Settle(f, v) == Settle(f, x) == x;
  }

  /** An open marker within the stop marker, behind its start and before its end: the stop marker, cut behind it. */
  lemma OpenWithinStop(f: Format, p: nat)
    requires f.open != [] && !Occurs(f.stop, 0, f.open) && Occurs(f.stop, p, f.open) && p + |f.open| < |f.stop|
    ensures !CutFree(f)
  {
    hide CutFree, Settle, Finish;
    FirstPlace(f.stop, f.open, p);
    WholeMarker(f.stop);
    var k := Find(f.stop, 0, f.open);
    var front, last := f.stop[..k + |f.open|], f.stop[k + |f.open|..];
    assert front + last == f.stop;
    FoundInFront(front, last, f.open, k);
    TooShort(front, f.stop);
    assert FirstMarker(f, front) == (k, false) && FirstMarker(f, f.stop) == (0, true);
    hide Find, FirstMarker, Occurs;
    StopAtOnce(f, f.stop, 0);
    TextBeforeCall(f, front, last, k);
    Suppresses(f, f.stop[..0], []);
    Differ(f, front, last);
  }

  /** Behind the stop marker nothing is taken any more. */
  lemma Suppresses(f: Format, done: Bytes, q: Bytes)
    requires f.open != []
    ensures var v := View(Suppressed, done, [], []); Settle(f, Push(v, q)) == v && Finish(f, v) == Final(done, [])
  {
  }

  /** A held open marker ends as content of its own or as a call. */
  lemma HeldDiffers(f: Format, done: Bytes)
    requires |done| < |f.open|
    ensures Finish(f, View(Capture, [], f.open, [])) != Final(done, [])
  {
  }

  /** A stop marker within the open marker, before its end: the open marker, cut behind it. */
  lemma StopWithinOpen(f: Format, p: nat)
    requires f.open != [] && f.stop != [] && Occurs(f.open, p, f.stop) && p + |f.stop| < |f.open|
    requires f.close == [] || !Inside(f.close, f.open)
    ensures !CutFree(f)
  {
    hide CutFree, Settle, Finish, Push;
    FirstPlace(f.open, f.stop, p);
    WholeMarker(f.open);
    FindFirst(f.open, 0, f.close);
    var k := Find(f.open, 0, f.stop);
    var front, last := f.open[..k + |f.stop|], f.open[k + |f.stop|..];
    assert front + last == f.open;
    FoundInFront(front, last, f.stop, k);
    TooShort(front, f.open);
    assert FirstMarker(f, f.open) == (0, false) && FirstMarker(f, front) == (k, true);
    OpenHeld(f);
    hide Find, FirstMarker, Occurs, Inside;
    StopAtOnce(f, front, k);
    Suppresses(f, front[..k], last);
    HeldDiffers(f, front[..k]);
    Differ(f, front, last);
  }

  /** For a close marker that is not part of the open marker, the formats that are safe to cut are exactly these. */
  lemma SafeExactly(f: Format)
    requires f.open != [] && (f.close == [] || !Inside(f.close, f.open))
    ensures CutFree(f) <==> CutSafe(f)
  {
    if CutSafe(f) {
      forall a: seq<Bytes>, b: seq<Bytes> | a != [] && b != [] && Flatten(a) == Flatten(b)
        ensures Finish(f, ScanAll(f, START, a)) == Finish(f, ScanAll(f, START, b))
      {
        hide CutSafe;
        CuttingDoesNotMatter(f, a, b);
      }
    } else if !EndsOnly(f.stop, f.open) {
      var p: nat :| Occurs(f.open, p, f.stop) && p + |f.stop| != |f.open|;
      StopWithinOpen(f, p);
    } else {
      var p: nat :| Occurs(f.stop, p, f.open) && p + |f.open| != |f.stop|;
      OpenWithinStop(f, p);
    }
  }

  // ---------------------------------------------------------------- the registered formats

  function Ascii(s: string): (b: Bytes)
    requires forall i :: 0 <= i < |s| ==> s[i] < 128 as char
    ensures |b| == |s| && forall i :: 0 <= i < |s| ==> b[i] == s[i] as int
  {
    seq(|s|, i requires 0 <= i < |s| => s[i] as int)
  }

  function CallColon(parse: (bool, Bytes) -> Parsed): Format {
    Format(Ascii("<|tool_call>"), Ascii("<tool_call|>"), Ascii("<|tool_response>"), parse)
  }

  function XmlCall(parse: (bool, Bytes) -> Parsed): Format {
    Format(Ascii("<tool_call>"), Ascii("</tool_call>"), [], parse)
  }

  function FuncArgs(parse: (bool, Bytes) -> Parsed): Format {
    Format(Ascii("<|tool_call_start|>"), Ascii("<|tool_call_end|>"), Ascii("<|tool_call_end|>"), parse)
  }

  function XmlFunc(parse: (bool, Bytes) -> Parsed): Format {
    Format(Ascii("<function="), Ascii("</function>"), Ascii("<|im_end|>"), parse)
  }

  /** The tool-call formats of the registry that have an open marker, with any payload parser. */
  function Registered(parse: (bool, Bytes) -> Parsed): (fs: seq<Format>)
    ensures |fs| == 5
  {
    [CallColon(parse), XmlCall(parse), XmlCall(parse), FuncArgs(parse), XmlFunc(parse)]
  }

  /** A marker does not stand where its first byte or some other of its bytes does not. */
  lemma NotAt(s: Bytes, p: nat, m: Bytes, j: nat)
    requires j < |m| && (p + |m| > |s| || s[p + j] != m[j])
    ensures !Occurs(s, p, m)
  {
    if p + |m| <= |s| {
      assert s[p..p + |m|][j] == s[p + j];
    }
  }

  /** Text with its only `<` in front holds no marker that starts with `<`, unless it starts with it. */
  lemma OnlyInFront(s: Bytes, m: Bytes, j: nat)
    requires m != [] && m[0] == 60 && forall i :: 1 <= i < |s| ==> s[i] != 60
    requires j < |m| && (|m| > |s| || s[j] != m[j])
    ensures !Inside(m, s)
  {
    forall p: nat ensures !Occurs(s, p, m) {
      NotAt(s, p, m, if p == 0 then j else 0);
    }
  }

  ghost predicate Harmless(f: Format) {
    f.open != [] && f.close != [] && CutSafe(f) && CutFree(f) && !Inside(f.close, f.open)
  }

  /** Neither of the open and stop markers stands within the other. */
  lemma ApartIsHarmless(f: Format)
    requires f.open != [] && f.close != [] && !Inside(f.close, f.open)
    requires f.stop == [] || (!Inside(f.open, f.stop) && !Inside(f.stop, f.open))
    ensures Harmless(f)
  {
    hide CutFree, Occurs;
    SafeExactly(f);
  }

  lemma CallColonApart(parse: (bool, Bytes) -> Parsed)
    ensures var f := CallColon(parse);
      !Inside(f.close, f.open) && !Inside(f.open, f.stop) && !Inside(f.stop, f.open)
  {
    var f := CallColon(parse);
    OnlyInFront(f.open, f.close, 1);
    OnlyInFront(f.stop, f.open, 7);
    OnlyInFront(f.open, f.stop, 0);
  }

  lemma XmlCallApart(parse: (bool, Bytes) -> Parsed)
    ensures var f := XmlCall(parse); !Inside(f.close, f.open)
  {
    var f := XmlCall(parse);
    OnlyInFront(f.open, f.close, 1);
  }

  lemma FuncArgsApart(parse: (bool, Bytes) -> Parsed)
    ensures var f := FuncArgs(parse);
      !Inside(f.close, f.open) && !Inside(f.open, f.stop) && !Inside(f.stop, f.open)
  {
    var f := FuncArgs(parse);
    OnlyInFront(f.open, f.close, 12);
    OnlyInFront(f.stop, f.open, 12);
  }

  lemma XmlFuncApart(parse: (bool, Bytes) -> Parsed)
    ensures var f := XmlFunc(parse);
      !Inside(f.close, f.open) && !Inside(f.open, f.stop) && !Inside(f.stop, f.open)
  {
    var f := XmlFunc(parse);
    OnlyInFront(f.open, f.close, 1);
    OnlyInFront(f.stop, f.open, 1);
    OnlyInFront(f.open, f.stop, 1);
  }

  /** No cut of any stream matters to a registered format. */
  lemma RegisteredSafe(parse: (bool, Bytes) -> Parsed, i: nat)
    requires i < |Registered(parse)|
    ensures Harmless(Registered(parse)[i])
  {
    hide Inside, Harmless;
    match i {
      case 0 => CallColonApart(parse);
      case 1 => XmlCallApart(parse);
      case 2 => XmlCallApart(parse);
      case 3 => FuncArgsApart(parse);
      case _ => XmlFuncApart(parse);
    }
    ApartIsHarmless(Registered(parse)[i]);
  }
}
