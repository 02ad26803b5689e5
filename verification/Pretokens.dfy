/** The two pretokenizers: where the pretoken that starts at a position ends. */
module Pretokens {
  import opened Bytes
  import opened Utf8

  // ---------------------------------------------------------------- byte classes

  predicate IsLetter(c: byte) { 65 <= c <= 90 || 97 <= c <= 122 || c >= 0x80 }

  predicate IsDigit(c: byte) { 48 <= c <= 57 }

  predicate IsSpace(c: byte) { c == 32 || 9 <= c <= 13 }

  predicate IsNewline(c: byte) { c == 10 || c == 13 }

  predicate IsBlank(c: byte) { c == 32 || c == 9 }

  predicate IsSymbol(c: byte) { !IsSpace(c) && !IsLetter(c) && !IsDigit(c) }

  predicate IsInlineSpace(c: byte) { IsSpace(c) && !IsNewline(c) }

  predicate CpIsLetter(cp: nat) {
    if cp < 0x80 then 65 <= cp <= 90 || 97 <= cp <= 122
    else
      !(0x2000 <= cp <= 0x2BFF) && !(0x1F000 <= cp <= 0x1FFFF) && !(0x80 <= cp <= 0xA9) && !(0xAB <= cp <= 0xB4)
      && !(0xB6 <= cp <= 0xB9) && !(0xBB <= cp <= 0xBF) && cp != 0xD7 && cp != 0xF7
  }

  predicate CpIsDigit(cp: nat) { 48 <= cp <= 57 }

  // ---------------------------------------------------------------- runs

  /** End of the run of bytes of class `p` from `j` on. */
  function RunEnd(s: Bytes, j: nat, p: byte -> bool): (r: nat)
    requires j <= |s|
    ensures j <= r <= |s| && (j < |s| && p(s[j]) ==> j < r)
    ensures (forall k :: j <= k < r ==> p(s[k])) && (r < |s| ==> !p(s[r]))
    decreases |s| - j
  {
    if j < |s| && p(s[j]) then RunEnd(s, j + 1, p) else j
  }

  /** The same, but at most `most` bytes. */
  function BoundedRunEnd(s: Bytes, j: nat, p: byte -> bool, most: nat): (r: nat)
    requires j <= |s|
    ensures j <= r <= |s| && r <= j + most && (j < |s| && p(s[j]) && most > 0 ==> j < r)
    decreases most
  {
    if j < |s| && p(s[j]) && most > 0 then BoundedRunEnd(s, j + 1, p, most - 1) else j
  }

  /** The code point at `j`, and the bytes it takes. */
  function CpAt(s: Bytes, j: nat): (r: (nat, nat))
    requires j < |s|
    ensures 1 <= r.1 <= |s| - j
  {
    Utf8ToCp(s[j..])
  }

  function LetterRunEnd(s: Bytes, j: nat): (r: nat)
    requires j <= |s|
    ensures j <= r <= |s| && (j < |s| && CpIsLetter(CpAt(s, j).0) ==> j < r)
    decreases |s| - j
  {
    if j < |s| && CpIsLetter(CpAt(s, j).0) then LetterRunEnd(s, j + CpAt(s, j).1) else j
  }

  predicate IsSymbolAt(s: Bytes, j: nat)
    requires j < |s|
  {
    !IsSpace(s[j]) && !CpIsLetter(CpAt(s, j).0) && !CpIsDigit(CpAt(s, j).0)
  }

  function SymbolRunEnd(s: Bytes, j: nat): (r: nat)
    requires j <= |s|
    ensures j <= r <= |s| && (j < |s| && IsSymbolAt(s, j) ==> j < r)
    decreases |s| - j
  {
    if j < |s| && IsSymbolAt(s, j) then SymbolRunEnd(s, j + CpAt(s, j).1) else j
  }

  /** Behind the last newline of the whitespace run from `j` on; `last` if it has none. */
  function NewlineEnd(s: Bytes, j: nat, last: nat): (r: nat)
    requires j <= |s|
    decreases |s| - j
  {
    if j < |s| && IsNewline(s[j]) then NewlineEnd(s, j + 1, j + 1)
    else
      var k := RunEnd(s, j, IsInlineSpace);
      if k > j && k < |s| && IsNewline(s[k]) then NewlineEnd(s, k, last) else last
  }

  // ---------------------------------------------------------------- contractions

  function Lower(c: byte): byte {
    if 65 <= c <= 90 then c + 32 else c
  }

  /** Length of an apostrophe suffix ('s 't 'm 'd 're 've 'll) at `i`; 0 if none. */
  function SuffixLength(s: Bytes, i: nat, fold: bool): (n: nat)
    requires i < |s|
    ensures n <= 3 && i + n <= |s|
  {
    if s[i] != 39 || i + 1 >= |s| then 0
    else
      var c1 := if fold then Lower(s[i + 1]) else s[i + 1];
      if c1 == 's' as int || c1 == 't' as int || c1 == 'm' as int || c1 == 'd' as int then 2
      else if i + 2 >= |s| then 0
      else
        var c2 := if fold then Lower(s[i + 2]) else s[i + 2];
        if (c1 == 'r' as int && c2 == 'e' as int) || (c1 == 'v' as int && c2 == 'e' as int)
           || (c1 == 'l' as int && c2 == 'l' as int) then 3
        else 0
  }

  // ---------------------------------------------------------------- the two rules

  /** `next_pretoken`: where it ends, bytes above ASCII counting as letters; `PretokenRules` says it as rules. */
  function PlainEnd(s: Bytes, i: nat): (r: nat)
    requires i < |s|
    ensures i < r <= |s|
  {
    var c := s[i];
    var suffix := SuffixLength(s, i, false);
    if suffix > 0 then i + suffix
    else if c == 32 && i + 1 < |s| && IsDigit(s[i + 1]) then RunEnd(s, i + 1, IsDigit)
    else
      var word := if IsNewline(c) || IsLetter(c) || IsDigit(c) then i else i + 1;
      if word < |s| && IsLetter(s[word]) then RunEnd(s, word, IsLetter)
      else if IsDigit(c) then RunEnd(s, i, IsDigit)
      else
        var mark := if c == 32 then i + 1 else i;
        if mark < |s| && IsSymbol(s[mark]) then RunEnd(s, RunEnd(s, mark, IsSymbol), IsNewline)
        else
          var line := RunEnd(s, i, IsBlank);
          if line < |s| && IsNewline(s[line]) then RunEnd(s, line, IsNewline)
          else if IsSpace(c) then SpaceEnd(s, i)
          else i + 1
  }

  /** A whitespace run leaves its last byte to the word that follows, unless it is the only one. */
  function SpaceEnd(s: Bytes, i: nat): (r: nat)
    requires i < |s| && IsSpace(s[i])
    ensures i < r <= |s|
  {
    var j := RunEnd(s, i, IsSpace);
    if j < |s| && j > i + 1 then j - 1 else j
  }

  /** `next_pretoken_unicode`: letters by code point, digits in runs of at most `digitRun`. */
  function UnicodeEnd(s: Bytes, i: nat, digitRun: nat): (r: nat)
    requires i < |s| && digitRun > 0
    ensures i < r <= |s|
  {
    var c := s[i];
    var (cp, n) := CpAt(s, i);
    var suffix := SuffixLength(s, i, true);
    if suffix > 0 then i + suffix
    else
      var word := if IsNewline(c) || CpIsLetter(cp) || CpIsDigit(cp) then i else i + n;
      if word < |s| && CpIsLetter(CpAt(s, word).0) then LetterRunEnd(s, word)
      else if IsDigit(c) then BoundedRunEnd(s, i, IsDigit, digitRun)
      else
        var mark := if c == 32 then i + 1 else i;
        if mark < |s| && IsSymbolAt(s, mark) then RunEnd(s, SymbolRunEnd(s, mark), IsNewline)
        else if IsSpace(c) then
          NewlineEndIs(s, i, i);
          if NewlineEnd(s, i, i) > i then NewlineEnd(s, i, i) else SpaceEnd(s, i)
        else i + 1
  }

  lemma NewlineIsSpace(c: byte)
    requires IsNewline(c)
    ensures IsSpace(c)
  {
  }

  /** A run of blanks within a line belongs to the whitespace run and holds no newline. */
  lemma InlineRun(s: Bytes, j: nat, k: nat)
    requires j <= |s| && k == RunEnd(s, j, IsInlineSpace)
    ensures j <= k <= |s| && RunEnd(s, j, IsSpace) == RunEnd(s, k, IsSpace)
    ensures forall l :: j <= l < k ==> !IsNewline(s[l])
    ensures k < |s| && IsNewline(s[k]) ==> IsSpace(s[k])
    ensures k == |s| || !IsNewline(s[k]) ==> RunEnd(s, k, IsSpace) == k
  {
    RunWithin(s, j, k);
  }

  /** The end of the last newline, if the whitespace run holds one. */
  lemma {:induction false} NewlineEndIs(s: Bytes, j: nat, last: nat)
    requires j <= |s| && last <= j
    ensures var r := NewlineEnd(s, j, last); var run := RunEnd(s, j, IsSpace);
      && (r == last || (j < r <= run && IsNewline(s[r - 1])))
      && (forall k :: j <= k < run && r <= k ==> !IsNewline(s[k]))
      && (r == last ==> forall k :: j <= k < run ==> !IsNewline(s[k]))
    decreases |s| - j
  {
    hide IsSpace, IsInlineSpace, IsNewline;
    if j < |s| && IsNewline(s[j]) {
      NewlineIsSpace(s[j]);
      NewlineEndIs(s, j + 1, j + 1);
    } else {
      var k := RunEnd(s, j, IsInlineSpace);
      InlineRun(s, j, k);
      if k > j && k < |s| && IsNewline(s[k]) {
        NewlineEndIs(s, k, last);
      }
    }
  }

  lemma {:induction false} RunWithin(s: Bytes, j: nat, k: nat)
    requires j <= k <= |s| && forall l :: j <= l < k ==> IsSpace(s[l])
    ensures RunEnd(s, j, IsSpace) == RunEnd(s, k, IsSpace)
    decreases k - j
  {
    if j < k {
      RunWithin(s, j + 1, k);
    }
  }

  // ---------------------------------------------------------------- partition

  /** `unicode` holds the digit run of a unicode pretokenizer, 0 selects the plain one. */
  function PretokenEnd(s: Bytes, i: nat, unicode: nat): (r: nat)
    requires i < |s|
    ensures i < r <= |s|
  {
    if unicode > 0 then UnicodeEnd(s, i, unicode) else PlainEnd(s, i)
  }

  function Pretokens(s: Bytes, i: nat, unicode: nat): seq<Bytes>
    requires i <= |s|
    decreases |s| - i
  {
    if i == |s| then []
    else
      var j := PretokenEnd(s, i, unicode);
      [s[i..j]] + Pretokens(s, j, unicode)
  }

  /** Pretokens are non-empty and put together again they are the text. */
  lemma {:induction false} PretokensPartition(s: Bytes, i: nat, unicode: nat)
    requires i <= |s|
    ensures Flatten(Pretokens(s, i, unicode)) == s[i..]
    ensures forall k :: 0 <= k < |Pretokens(s, i, unicode)| ==> Pretokens(s, i, unicode)[k] != []
    decreases |s| - i
  {
    hide PretokenEnd;
    if i < |s| {
      var j := PretokenEnd(s, i, unicode);
      PretokensPartition(s, j, unicode);
      FlattenCons(s[i..j], Pretokens(s, j, unicode));
      assert s[i..] == s[i..j] + s[j..];
    }
  }

  // ---------------------------------------------------------------- the loops

  method SkipRun(s: Bytes, j: nat, p: byte -> bool) returns (r: nat)
    requires j <= |s|
    ensures r == RunEnd(s, j, p)
  {
    r := j;
    while r < |s| && p(s[r])
      invariant j <= r <= |s| && RunEnd(s, r, p) == RunEnd(s, j, p)
    {
      r := r + 1;
    }
  }

  /** `next_pretoken`. */
  method NextPlain(s: Bytes, i: nat) returns (pos: nat)
    requires i < |s|
    ensures pos == PlainEnd(s, i)
  {
    var c := s[i];
    var suffix := SuffixLength(s, i, false);
    if suffix > 0 {
      return i + suffix;
    }
    if c == 32 && i + 1 < |s| && IsDigit(s[i + 1]) {
      pos := SkipRun(s, i + 1, IsDigit);
      return;
    }
    var j := i;
    if !IsNewline(c) && !IsLetter(c) && !IsDigit(c) {
      j := j + 1;
    }
    if j < |s| && IsLetter(s[j]) {
      pos := SkipRun(s, j, IsLetter);
      return;
    }
    if IsDigit(c) {
      pos := SkipRun(s, i, IsDigit);
      return;
    }
    j := if c == 32 then i + 1 else i;
    if j < |s| && IsSymbol(s[j]) {
      j := SkipRun(s, j, IsSymbol);
      pos := SkipRun(s, j, IsNewline);
      return;
    }
    j := SkipRun(s, i, IsBlank);
    if j < |s| && IsNewline(s[j]) {
      pos := SkipRun(s, j, IsNewline);
      return;
    }
    if IsSpace(c) {
      pos := NextSpace(s, i);
      return;
    }
    assert false;  // every byte is of one of the classes above; the program's last resort is never needed
  }

  method NextSpace(s: Bytes, i: nat) returns (pos: nat)
    requires i < |s| && IsSpace(s[i])
    ensures pos == SpaceEnd(s, i)
  {
    pos := SkipRun(s, i, IsSpace);
    if pos < |s| && pos > i + 1 {
      pos := pos - 1;
    }
  }

  method SkipLetters(s: Bytes, j: nat) returns (r: nat)
    requires j <= |s|
    ensures r == LetterRunEnd(s, j)
  {
    hide CpIsLetter, CpAt;
    r := j;
    while r < |s|
      invariant j <= r <= |s| && LetterRunEnd(s, r) == LetterRunEnd(s, j)
    {
      var (cp, n) := CpAt(s, r);
      if !CpIsLetter(cp) {
        break;
      }
      r := r + n;
    }
  }

  method SkipDigits(s: Bytes, j: nat, most: nat) returns (r: nat)
    requires j <= |s|
    ensures r == BoundedRunEnd(s, j, IsDigit, most)
  {
    r := j;
    var n := 0;
    while r < |s| && IsDigit(s[r]) && n < most
      invariant j <= r <= |s| && n <= most
      invariant BoundedRunEnd(s, r, IsDigit, most - n) == BoundedRunEnd(s, j, IsDigit, most)
    {
      r := r + 1;
      n := n + 1;
    }
  }

  method SkipSymbols(s: Bytes, j: nat) returns (r: nat)
    requires j <= |s|
    ensures r == SymbolRunEnd(s, j)
  {
    hide CpIsLetter, CpIsDigit, CpAt, IsSpace;
    r := j;
    while r < |s|
      invariant j <= r <= |s| && SymbolRunEnd(s, r) == SymbolRunEnd(s, j)
    {
      var (cp, n) := CpAt(s, r);
      if IsSpace(s[r]) || CpIsLetter(cp) || CpIsDigit(cp) {
        break;
      }
      r := r + n;
    }
  }

  /** `contains_newline_before_non_newline_run`. */
  method HasNewline(s: Bytes, i: nat) returns (found: bool)
    requires i <= |s|
    ensures found <==> exists k :: i <= k < RunEnd(s, i, IsSpace) && IsNewline(s[k])
  {
    var j := i;
    while j < |s| && IsSpace(s[j])
      invariant i <= j <= |s| && RunEnd(s, j, IsSpace) == RunEnd(s, i, IsSpace)
      invariant forall k :: i <= k < j ==> !IsNewline(s[k])
    {
      if IsNewline(s[j]) {
        return true;
      }
      j := j + 1;
    }
    found := false;
  }

  method SkipNewlines(s: Bytes, i: nat) returns (last: nat)
    requires i <= |s|
    ensures last == NewlineEnd(s, i, i)
  {
    var j := i;
    last := i;
    while j < |s| && IsSpace(s[j])
      invariant i <= j <= |s| && NewlineEnd(s, j, last) == NewlineEnd(s, i, i)
    {
      if IsNewline(s[j]) {
        j := j + 1;
        last := j;
      } else {
        var k := SkipRun(s, j, IsInlineSpace);
        if k < |s| && IsNewline(s[k]) {
          j := k;
        } else {
          break;
        }
      }
    }
  }

  /** `next_pretoken_unicode`. */
  method NextUnicode(s: Bytes, i: nat, digitRun: nat) returns (pos: nat)
    requires i < |s| && digitRun > 0
    ensures pos == UnicodeEnd(s, i, digitRun)
  {
    hide CpIsLetter, CpIsDigit, RunEnd, LetterRunEnd, SymbolRunEnd, BoundedRunEnd, NewlineEnd, CpAt;
    var c := s[i];
    var suffix := SuffixLength(s, i, true);
    if suffix > 0 {
      return i + suffix;
    }
    var j := i;
    var (cp, n) := CpAt(s, i);
    if !IsNewline(c) && !CpIsLetter(cp) && !CpIsDigit(cp) {
      j := i + n;
    }
    if j < |s| && CpIsLetter(CpAt(s, j).0) {
      pos := SkipLetters(s, j);
      return;
    }
    if IsDigit(c) {
      pos := SkipDigits(s, i, digitRun);
      return;
    }
    j := if c == 32 then i + 1 else i;
    if j < |s| && IsSymbolAt(s, j) {
      j := SkipSymbols(s, j);
      pos := SkipRun(s, j, IsNewline);
      return;
    }
    if IsSpace(c) {
      NewlineEndIs(s, i, i);
      var newline := HasNewline(s, i);
      if newline {
        pos := SkipNewlines(s, i);
      } else {
        pos := NextSpace(s, i);
      }
      return;
    }
    pos := i + 1;
  }
}
