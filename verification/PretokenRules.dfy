/** The two pretokenizers as ordered rules: the first rule that matches at a place says where the pretoken ends. */
module PretokenRules {
  import opened Bytes
  import opened Utf8
  import opened Pretokens

  datatype Rule =
    | Suffix(fold: bool)    // an apostrophe suffix, in any case if folded
    | SpacedDigits          // a space and a run of digits
    | Word                  // a run of letters, behind at most one byte that is no letter, digit or newline
    | Digits                // a run of digits
    | Symbols               // a run of symbols, behind at most one space, and the newlines after it
    | Lines                 // spaces and tabs up to newlines, and the newlines
    | Spaces                // a run of whitespace, its last byte left to the word that follows
    | CpWord                // as `Word`, by code points
    | FewDigits(most: nat)  // up to so many digits
    | CpSymbols             // as `Symbols`, by code points
    | NewlineSpaces         // a run of whitespace up to its last newline
    | Any                   // one byte

  const PLAIN: seq<Rule> := [Suffix(false), SpacedDigits, Word, Digits, Symbols, Lines, Spaces]

  function Unicode(digitRun: nat): seq<Rule> {
    [Suffix(true), CpWord, FewDigits(digitRun), CpSymbols, NewlineSpaces, Spaces, Any]
  }

  const SUFFIXES: set<Bytes> :=
    {[39, 115], [39, 116], [39, 109], [39, 100], [39, 114, 101], [39, 118, 101], [39, 108, 108]}

  // ---------------------------------------------------------------- what the rules say

  function Folded(s: Bytes): (r: Bytes)
    ensures |r| == |s|
  {
    seq(|s|, i requires 0 <= i < |s| => Lower(s[i]))
  }

  /** All bytes of `s[i..j]` are of class `p`, and the run ends there. */
  ghost predicate Run(s: Bytes, i: nat, j: nat, p: byte -> bool) {
    i <= j <= |s| && (forall k :: i <= k < j ==> p(s[k])) && (j < |s| ==> !p(s[j]))
  }

  predicate LetterAt(s: Bytes, j: nat) {
    j < |s| && CpIsLetter(CpAt(s, j).0)
  }

  predicate SymbolAt(s: Bytes, j: nat) {
    j < |s| && IsSymbolAt(s, j)
  }

  /** Whole code points lead from `i` to `j`, each where `at` holds, and it does not hold at `j`. */
  ghost predicate CpRun(s: Bytes, i: nat, j: nat, at: (Bytes, nat) -> bool)
    decreases |s| - i
  {
    if i >= |s| || !at(s, i) then j == i else CpRun(s, i + CpAt(s, i).1, j, at)
  }

  /** A byte, or a whole code point, that may stand in front of a word. */
  predicate Leads(c: byte) {
    !IsNewline(c) && !IsLetter(c) && !IsDigit(c)
  }

  predicate CpLeads(s: Bytes, i: nat)
    requires i < |s|
  {
    !IsNewline(s[i]) && !CpIsLetter(CpAt(s, i).0) && !CpIsDigit(CpAt(s, i).0)
  }

  ghost predicate SymbolsBy(s: Bytes, i: nat, j: nat, m: nat, k: nat)
    requires i < |s|
  {
    (m == i || (m == i + 1 && s[i] == 32)) && m < k && Run(s, m, k, IsSymbol) && Run(s, k, j, IsNewline)
  }

  ghost predicate SpacesBy(s: Bytes, i: nat, j: nat, k: nat) {
    i < k && Run(s, i, k, IsSpace) && j == if k < |s| && k > i + 1 then k - 1 else k
  }

  ghost predicate CpSymbolsBy(s: Bytes, i: nat, j: nat, m: nat, k: nat)
    requires i < |s|
  {
    (m == i || (m == i + 1 && s[i] == 32)) && m < k && CpRun(s, m, k, SymbolAt) && Run(s, k, j, IsNewline)
  }

  ghost predicate NewlineBy(s: Bytes, i: nat, j: nat, k: nat) {
    i < j <= k && Run(s, i, k, IsSpace) && IsNewline(s[j - 1]) && forall l :: j <= l < k ==> !IsNewline(s[l])
  }

  /** The rule matches `s[i..j]`. */
  ghost predicate Matches(r: Rule, s: Bytes, i: nat, j: nat)
    requires i < |s|
  {
    match r
    case Suffix(fold) => i <= j <= |s| && (if fold then Folded(s[i..j]) else s[i..j]) in SUFFIXES
    case SpacedDigits => s[i] == 32 && i + 1 < j && Run(s, i + 1, j, IsDigit)
    case Word => exists w: nat :: w < j && (w == i || (w == i + 1 && Leads(s[i]))) && Run(s, w, j, IsLetter)
    case Digits => i < j && Run(s, i, j, IsDigit)
    case Symbols =>
      exists m: nat, k: nat :: SymbolsBy(s, i, j, m, k)
    case Lines => exists k: nat :: k < j && Run(s, i, k, IsBlank) && Run(s, k, j, IsNewline)
    case Spaces => exists k: nat :: SpacesBy(s, i, j, k)
    case CpWord =>
      exists w: nat :: w < j && (w == i || (w == i + CpAt(s, i).1 && CpLeads(s, i))) && CpRun(s, w, j, LetterAt)
    case FewDigits(most) =>
      i < j <= |s| && j <= i + most && (forall k :: i <= k < j ==> IsDigit(s[k]))
      && (j < |s| && j < i + most ==> !IsDigit(s[j]))
    case CpSymbols =>
      exists m: nat, k: nat :: CpSymbolsBy(s, i, j, m, k)
    case NewlineSpaces =>
      exists k: nat :: NewlineBy(s, i, j, k)
    case Any => j == i + 1
  }

  /** The first rule that matches anything at `i` matches `s[i..j]`. */
  ghost predicate FirstMatch(rules: seq<Rule>, s: Bytes, i: nat, j: nat)
    requires i < |s|
  {
    rules != [] &&
    if exists k: nat :: Matches(rules[0], s, i, k) then Matches(rules[0], s, i, j) else FirstMatch(rules[1..], s, i, j)
  }

  // ---------------------------------------------------------------- where each rule ends

  /** The one end the rule allows, or -1. */
  function RuleEnd(r: Rule, s: Bytes, i: nat): int
    requires i < |s|
  {
    match r
    case Suffix(fold) => var n := SuffixLength(s, i, fold); if n > 0 then i + n else -1
    case SpacedDigits => if s[i] == 32 && i + 1 < |s| && IsDigit(s[i + 1]) then RunEnd(s, i + 1, IsDigit) else -1
    case Word =>
      var w := if Leads(s[i]) then i + 1 else i;
      if w < |s| && IsLetter(s[w]) then RunEnd(s, w, IsLetter) else -1
    case Digits => if IsDigit(s[i]) then RunEnd(s, i, IsDigit) else -1
    case Symbols =>
      var m := if s[i] == 32 then i + 1 else i;
      if m < |s| && IsSymbol(s[m]) then RunEnd(s, RunEnd(s, m, IsSymbol), IsNewline) else -1
    case Lines =>
      var k := RunEnd(s, i, IsBlank);
      if k < |s| && IsNewline(s[k]) then RunEnd(s, k, IsNewline) else -1
    case Spaces => if IsSpace(s[i]) then SpaceEnd(s, i) else -1
    case CpWord =>
      var w := if CpLeads(s, i) then i + CpAt(s, i).1 else i;
      if LetterAt(s, w) then LetterRunEnd(s, w) else -1
    case FewDigits(most) => if IsDigit(s[i]) && most > 0 then BoundedRunEnd(s, i, IsDigit, most) else -1
    case CpSymbols =>
      var m := if s[i] == 32 then i + 1 else i;
      if SymbolAt(s, m) then RunEnd(s, SymbolRunEnd(s, m), IsNewline) else -1
    case NewlineSpaces => if IsSpace(s[i]) && NewlineEnd(s, i, i) > i then NewlineEnd(s, i, i) else -1
    case Any => i + 1
  }

  lemma RunIs(s: Bytes, i: nat, j: nat, p: byte -> bool)
    requires i <= |s|
    ensures Run(s, i, j, p) <==> j == RunEnd(s, i, p)
  {
  }

  lemma RunStarts(s: Bytes, i: nat, p: byte -> bool)
    requires i <= |s|
    ensures RunEnd(s, i, p) > i <==> i < |s| && p(s[i])
  {
  }

  lemma {:induction false} LetterRunIs(s: Bytes, i: nat, j: nat)
    requires i <= |s|
    ensures CpRun(s, i, j, LetterAt) <==> j == LetterRunEnd(s, i)
    decreases |s| - i
  {
    hide CpAt, CpIsLetter;
    if LetterAt(s, i) {
      LetterRunIs(s, i + CpAt(s, i).1, j);
    }
  }

  lemma {:induction false} SymbolRunIs(s: Bytes, i: nat, j: nat)
    requires i <= |s|
    ensures CpRun(s, i, j, SymbolAt) <==> j == SymbolRunEnd(s, i)
    decreases |s| - i
  {
    hide CpAt, IsSymbolAt;
    if SymbolAt(s, i) {
      SymbolRunIs(s, i + CpAt(s, i).1, j);
    }
  }

  lemma {:induction false} FewIs(s: Bytes, i: nat, j: nat, most: nat)
    requires i <= |s|
    ensures j == BoundedRunEnd(s, i, IsDigit, most) <==>
      i <= j <= |s| && j <= i + most && (forall k :: i <= k < j ==> IsDigit(s[k]))
      && (j < |s| && j < i + most ==> !IsDigit(s[j]))
    decreases most
  {
    hide IsDigit;
    if i < |s| && IsDigit(s[i]) && most > 0 {
      FewIs(s, i + 1, j, most - 1);
    }
  }

  // ---------------------------------------------------------------- each rule allows no other end

  lemma SuffixIs(s: Bytes, i: nat, j: nat, fold: bool)
    requires i < |s|
    ensures Matches(Suffix(fold), s, i, j) <==> RuleEnd(Suffix(fold), s, i) == j
  {
    if i <= j <= |s| {
      SuffixText(if fold then Folded(s[i..j]) else s[i..j]);
    }
  }

  lemma SuffixText(t: Bytes)
    ensures t in SUFFIXES <==>
      || (|t| == 2 && t[0] == 39 && (t[1] == 115 || t[1] == 116 || t[1] == 109 || t[1] == 100))
      || (|t| == 3 && t[0] == 39 && t[1] == t[2] == 108)
      || (|t| == 3 && t[0] == 39 && (t[1] == 114 || t[1] == 118) && t[2] == 101)
  {
    if |t| == 2 {
      assert t == [t[0], t[1]];
    } else if |t| == 3 {
      assert t == [t[0], t[1], t[2]];
    }
  }

  lemma WordIs(s: Bytes, i: nat, j: nat)
    requires i < |s|
    ensures Matches(Word, s, i, j) <==> RuleEnd(Word, s, i) == j
  {
    hide IsLetter, IsDigit, IsNewline, Run;
    RunIs(s, i, j, IsLetter);
    RunStarts(s, i, IsLetter);
    RunIs(s, i + 1, j, IsLetter);
    RunStarts(s, i + 1, IsLetter);
  }

  lemma SymbolsIs(s: Bytes, i: nat, j: nat)
    requires i < |s|
    ensures Matches(Symbols, s, i, j) <==> RuleEnd(Symbols, s, i) == j
  {
    var m := if s[i] == 32 then i + 1 else i;
    var k := RunEnd(s, m, IsSymbol);
    RunIs(s, m, k, IsSymbol);
    RunStarts(s, m, IsSymbol);
    RunIs(s, k, j, IsNewline);
    if RuleEnd(Symbols, s, i) == j {
      assert SymbolsBy(s, i, j, m, k);
    }
    if Matches(Symbols, s, i, j) {
      var m': nat, k': nat :| SymbolsBy(s, i, j, m', k');
      assert IsSymbol(s[m']) && m' == m;
      RunIs(s, m, k', IsSymbol);
    }
  }

  lemma LinesIs(s: Bytes, i: nat, j: nat)
    requires i < |s|
    ensures Matches(Lines, s, i, j) <==> RuleEnd(Lines, s, i) == j
  {
    hide IsBlank, IsNewline, Run;
    forall k: nat ensures Run(s, i, k, IsBlank) <==> k == RunEnd(s, i, IsBlank) {
      RunIs(s, i, k, IsBlank);
    }
    var k := RunEnd(s, i, IsBlank);
    RunIs(s, k, j, IsNewline);
    RunStarts(s, k, IsNewline);
  }

  lemma SpacesIs(s: Bytes, i: nat, j: nat)
    requires i < |s|
    ensures Matches(Spaces, s, i, j) <==> RuleEnd(Spaces, s, i) == j
  {
    hide IsSpace, Run;
    var k := RunEnd(s, i, IsSpace);
    RunIs(s, i, k, IsSpace);
    RunStarts(s, i, IsSpace);
    if RuleEnd(Spaces, s, i) == j {
      assert SpacesBy(s, i, j, k);
    }
    if Matches(Spaces, s, i, j) {
      var k': nat :| SpacesBy(s, i, j, k');
      RunIs(s, i, k', IsSpace);
    }
  }

  lemma CpWordIs(s: Bytes, i: nat, j: nat)
    requires i < |s|
    ensures Matches(CpWord, s, i, j) <==> RuleEnd(CpWord, s, i) == j
  {
    hide CpRun, CpAt, CpIsLetter, CpIsDigit, IsNewline;
    LetterRunIs(s, i, j);
    LetterRunIs(s, i + CpAt(s, i).1, j);
  }

  lemma CpSymbolsIs(s: Bytes, i: nat, j: nat)
    requires i < |s|
    ensures Matches(CpSymbols, s, i, j) <==> RuleEnd(CpSymbols, s, i) == j
  {
    assert s[i] == 32 ==> !SymbolAt(s, i);
    hide IsSymbolAt, CpAt, Run;
    var m := if s[i] == 32 then i + 1 else i;
    var k := SymbolRunEnd(s, m);
    SymbolRunIs(s, m, k);
    RunIs(s, k, j, IsNewline);
    if RuleEnd(CpSymbols, s, i) == j {
      assert CpSymbolsBy(s, i, j, m, k);
    }
    if Matches(CpSymbols, s, i, j) {
      var m': nat, k': nat :| CpSymbolsBy(s, i, j, m', k');
      assert SymbolAt(s, m') && m' == m;
      SymbolRunIs(s, m, k');
    }
  }

  lemma NewlineSpacesIs(s: Bytes, i: nat, j: nat)
    requires i < |s|
    ensures Matches(NewlineSpaces, s, i, j) <==> RuleEnd(NewlineSpaces, s, i) == j
  {
    NewlineEndIs(s, i, i);
    hide IsSpace, IsNewline, Run, NewlineEnd;
    var k := RunEnd(s, i, IsSpace);
    RunIs(s, i, k, IsSpace);
    RunStarts(s, i, IsSpace);
    if RuleEnd(NewlineSpaces, s, i) == j {
      assert NewlineBy(s, i, j, k);
    }
    if Matches(NewlineSpaces, s, i, j) {
      var k': nat :| NewlineBy(s, i, j, k');
      RunIs(s, i, k', IsSpace);
    }
  }

  /** Every rule allows exactly one end, or none. */
  lemma RuleEndIs(r: Rule, s: Bytes, i: nat, j: nat)
    requires i < |s|
    ensures Matches(r, s, i, j) <==> RuleEnd(r, s, i) == j
  {
    match r
    case Suffix(fold) => SuffixIs(s, i, j, fold);
    case SpacedDigits => RunIs(s, i + 1, j, IsDigit); RunStarts(s, i + 1, IsDigit);
    case Word => WordIs(s, i, j);
    case Digits => RunIs(s, i, j, IsDigit); RunStarts(s, i, IsDigit);
    case Symbols => SymbolsIs(s, i, j);
    case Lines => LinesIs(s, i, j);
    case Spaces => SpacesIs(s, i, j);
    case CpWord => CpWordIs(s, i, j);
    case FewDigits(most) => FewIs(s, i, j, most);
    case CpSymbols => CpSymbolsIs(s, i, j);
    case NewlineSpaces => NewlineSpacesIs(s, i, j);
    case Any =>
  }

  // ---------------------------------------------------------------- the first match

  function FirstEnd(rules: seq<Rule>, s: Bytes, i: nat): int
    requires i < |s|
  {
    if rules == [] then -1
    else if RuleEnd(rules[0], s, i) >= 0 then RuleEnd(rules[0], s, i)
    else FirstEnd(rules[1..], s, i)
  }

  lemma {:induction false} FirstMatchIs(rules: seq<Rule>, s: Bytes, i: nat, j: nat)
    requires i < |s|
    ensures FirstMatch(rules, s, i, j) <==> FirstEnd(rules, s, i) == j
  {
    hide RuleEnd, Matches;
    if rules != [] {
      var r := rules[0];
      forall k: nat ensures Matches(r, s, i, k) <==> RuleEnd(r, s, i) == k {
        RuleEndIs(r, s, i, k);
      }
      FirstMatchIs(rules[1..], s, i, j);
      if RuleEnd(r, s, i) >= 0 {
        var k: nat := RuleEnd(r, s, i);
        assert Matches(r, s, i, k);
      }
    }
  }

  /** `next_pretoken` ends where the first plain rule that matches says. */
  lemma PlainExactly(s: Bytes, i: nat, j: nat)
    requires i < |s|
    ensures FirstMatch(PLAIN, s, i, j) <==> j == PlainEnd(s, i)
  {
    FirstMatchIs(PLAIN, s, i, j);
    PlainEndIs(s, i);
  }

  /** `next_pretoken_unicode` ends where the first code-point rule that matches says. */
  lemma UnicodeExactly(s: Bytes, i: nat, digitRun: nat, j: nat)
    requires i < |s| && digitRun > 0
    ensures FirstMatch(Unicode(digitRun), s, i, j) <==> j == UnicodeEnd(s, i, digitRun)
  {
    FirstMatchIs(Unicode(digitRun), s, i, j);
    UnicodeEndIs(s, i, digitRun);
  }

  lemma PlainEndIs(s: Bytes, i: nat)
    requires i < |s|
    ensures FirstEnd(PLAIN, s, i) == PlainEnd(s, i)
  {
    hide RunEnd, SuffixLength, SpaceEnd;
    FirstOf7(PLAIN, s, i);
  }

  lemma UnicodeEndIs(s: Bytes, i: nat, digitRun: nat)
    requires i < |s| && digitRun > 0
    ensures FirstEnd(Unicode(digitRun), s, i) == UnicodeEnd(s, i, digitRun)
  {
    hide RunEnd, SuffixLength, SpaceEnd, LetterRunEnd, SymbolRunEnd, BoundedRunEnd, NewlineEnd, CpAt, CpIsLetter,
         CpIsDigit, IsSymbolAt;
    FirstOf7(Unicode(digitRun), s, i);
  }

  lemma FirstOf7(rules: seq<Rule>, s: Bytes, i: nat)
    requires i < |s| && |rules| == 7
    ensures FirstEnd(rules, s, i) ==
      if RuleEnd(rules[0], s, i) >= 0 then RuleEnd(rules[0], s, i)
      else if RuleEnd(rules[1], s, i) >= 0 then RuleEnd(rules[1], s, i)
      else if RuleEnd(rules[2], s, i) >= 0 then RuleEnd(rules[2], s, i)
      else if RuleEnd(rules[3], s, i) >= 0 then RuleEnd(rules[3], s, i)
      else if RuleEnd(rules[4], s, i) >= 0 then RuleEnd(rules[4], s, i)
      else if RuleEnd(rules[5], s, i) >= 0 then RuleEnd(rules[5], s, i)
      else if RuleEnd(rules[6], s, i) >= 0 then RuleEnd(rules[6], s, i)
      else -1
  {
    hide FirstEnd, RuleEnd;
    assert rules[0..] == rules;
    FirstOf(rules, s, i, 0);
    FirstOf(rules, s, i, 1);
    FirstOf(rules, s, i, 2);
    FirstOf(rules, s, i, 3);
    FirstOf(rules, s, i, 4);
    FirstOf(rules, s, i, 5);
    FirstOf(rules, s, i, 6);
  }

  lemma FirstOf(rules: seq<Rule>, s: Bytes, i: nat, n: nat)
    requires i < |s| && n < |rules|
    ensures FirstEnd(rules[n..], s, i)
         == if RuleEnd(rules[n], s, i) >= 0 then RuleEnd(rules[n], s, i) else FirstEnd(rules[n + 1..], s, i)
    ensures FirstEnd(rules[|rules|..], s, i) == -1
  {
    hide RuleEnd;
    assert rules[n..][1..] == rules[n + 1..];
  }
}
