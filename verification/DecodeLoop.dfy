/** The decode loop: tokens are picked on the host or on a device, possibly fed before they are known. */
module DecodeLoop {
  import opened KvRows
  import opened ReusePlan
  import opened Sessions

  /** How the next token is obtained: read back from a register already fed, picked on the device, or sampled. */
  datatype Mode = Mode(pipelined: bool, devicePick: bool)

  /** Row `nPos - 1` holds a token that is not noted yet. */
  ghost predicate Ahead(s: Session, fed: seq<int>, tok: int)
    reads s, s.rows
  {
    && s.step > 0 && s.rows.Length == s.nCtx && s.nPos == |fed| + 1 <= s.nCtx
    && s.fed == fed && RowsAre(s.rows[..], fed) && s.rows[|fed|] == Row(tok, |fed|)
  }

  /** The session holds exactly `fed`. */
  ghost predicate Holds(s: Session, fed: seq<int>)
    reads s, s.rows
  {
    s.Valid() && s.nPos == |s.fed| && s.fed == fed
  }

  /** A token is sampled, or read back from the device. */
  method ReadToken(s: Session) returns (tok: int)
    modifies s`picked
    ensures s.picked == old(s.picked) + [tok]
  {
    tok := *;
    s.picked := s.picked + [tok];
  }

  /** The device picks into a register, the register is fed, and only then is the token read back. */
  method PickAhead(s: Session, mode: Mode) returns (tok: int, specFed: bool, redo: bool, pre: Outcome, mode': Mode)
    requires s.Valid() && s.nPos == |s.fed|
    modifies s`fed, s`nPos, s`faults, s`computed, s`picked, s.rows
    ensures if specFed then Ahead(s, old(s.fed), tok) && pre.At? && !redo else Holds(s, old(s.fed))
    ensures pre.Failed? ==> pre.st in {InvalidArg, Interrupted, ComputeFail} && !redo
    ensures pre == Failed(InvalidArg) ==> s.nPos >= s.nCtx
    ensures s.faults >= old(s.faults) && (pre.Failed? && pre.st != InvalidArg ==> s.faults > old(s.faults))
    ensures s.picked == old(s.picked) + if redo then [] else [tok]
    ensures redo ==> !mode'.pipelined && !mode'.devicePick
    ensures mode'.pipelined ==> mode'.devicePick == mode.devicePick
  {
    assert s.fed[..s.nPos] == s.fed;
    tok, specFed, redo, pre, mode' := 0, false, false, At(0), mode;
    var picked: bool := *;
    var held: int := *;
    var readBack: bool := false;
    if picked {
      pre := s.FeedReg(held);
      specFed := pre.At?;
      if pre == Failed(Unsupported) {
        mode' := mode'.(pipelined := false);
        pre := At(0);
      }
      readBack := *;
    }
    if readBack {
      tok := held;
      s.picked := s.picked + [tok];
    } else {
      if specFed {
        s.nPos := s.nPos - 1;
      }
      specFed, redo, pre, mode' := false, true, At(0), Mode(false, false);
    }
  }

  method Pick(s: Session, mode: Mode, logitsOnHost: bool)
    returns (tok: int, specFed: bool, redo: bool, pre: Outcome, mode': Mode)
    requires s.Valid() && s.nPos == |s.fed|
    modifies s`fed, s`nPos, s`faults, s`computed, s`picked, s.rows
    ensures if specFed then Ahead(s, old(s.fed), tok) && pre.At? && !redo else Holds(s, old(s.fed))
    ensures pre.Failed? ==> pre.st in {InvalidArg, Interrupted, ComputeFail} && !redo
    ensures pre == Failed(InvalidArg) ==> s.nPos >= s.nCtx
    ensures s.faults >= old(s.faults) && (pre.Failed? && pre.st != InvalidArg ==> s.faults > old(s.faults))
    ensures s.picked == old(s.picked) + if redo then [] else [tok]
  {
    if mode.pipelined {
      tok, specFed, redo, pre, mode' := PickAhead(s, mode);
    } else {
      tok, specFed, redo, pre, mode' := 0, false, false, At(0), mode;
      if mode.devicePick && !logitsOnHost {
        var picked: bool := *;
        if !picked {
          mode', redo := mode.(devicePick := false), true;
        }
      }
      if !redo {
        tok := ReadToken(s);
      }
    }
  }

  /** The last fed token is computed once more, for its logits on the host. */
  method Redo(s: Session, last: int) returns (ok: bool)
    requires s.Valid() && s.nPos == |s.fed| > 0 && s.fed[s.nPos - 1] == last
    modifies s`fed, s`nPos, s`faults, s`computed, s.rows
    ensures s.Valid()
    ensures ok ==> Holds(s, old(s.fed))
    ensures s.faults >= old(s.faults) && (!ok && 0 <= last < s.vocab ==> s.faults > old(s.faults))
  {
    s.nPos := s.nPos - 1;
    var rc := s.FeedToken(last);
    ok := rc.At?;
    assert old(s.fed) == old(s.fed)[..|old(s.fed)| - 1] + [last];
  }

  /** What a turn of the loop does with the token it reports. */
  method FeedPicked(s: Session, tok: int, specFed: bool, pre: Outcome, ghost fed: seq<int>, ghost faults: nat)
    returns (rc: Outcome)
    requires if specFed then Ahead(s, fed, tok) && pre.At? else Holds(s, fed)
    requires pre.Failed? ==> pre.st in {InvalidArg, Interrupted, ComputeFail}
    requires pre == Failed(InvalidArg) ==> s.nPos >= s.nCtx
    requires s.faults >= faults && (pre.Failed? && pre.st != InvalidArg ==> s.faults > faults)
    modifies s`fed, s`nPos, s`faults, s`computed, s.rows
    ensures s.faults >= faults && (rc.Failed? && rc.st != InvalidArg ==> s.faults > faults)
    ensures if rc.At? then Holds(s, fed + [tok]) else Holds(s, fed) && rc.st in {InvalidArg, Interrupted, ComputeFail}
    ensures rc == Failed(InvalidArg) ==> s.nPos >= s.nCtx || !(0 <= tok < s.vocab)
  {
    if specFed {
      s.fed := s.fed + [tok];
      rc := At(s.nPos);
      assert s.fed[..s.nPos] == s.fed;
    } else if pre.Failed? {
      rc := pre;
    } else {
      assert s.fed[..s.nPos] == s.fed;
      rc := s.FeedToken(tok);
      assert s.fed[..s.nPos] == s.fed;
    }
  }

  /** How a turn of the loop ends: nothing more to report, a token fed, or a token reported but not fed. */
  datatype Turn = Stop | Next(tok: int) | Unfed(tok: int)

  method TakeTurn(s: Session, mode: Mode, isEog: int -> bool, hasFed: bool, lastFed: int)
    returns (turn: Turn, mode': Mode)
    requires s.Valid() && s.nPos == |s.fed| && !s.poisoned && !s.limitHit
    requires hasFed ==> s.fed != [] && s.fed[|s.fed| - 1] == lastFed
    modifies s`fed, s`nPos, s`poisoned, s`limitHit, s`faults, s`computed, s`picked, s.rows
    ensures s.Valid() && s.faults >= old(s.faults)
    ensures turn.Stop? ==> !s.limitHit && (!s.poisoned ==> Holds(s, old(s.fed)))
    ensures turn.Stop? ==> if s.poisoned
      then hasFed && s.picked == old(s.picked) && (0 <= lastFed < s.vocab ==> s.faults > old(s.faults))
      else exists e :: isEog(e) && s.picked == old(s.picked) + [e]
    ensures !turn.Stop? ==> s.picked == old(s.picked) + [turn.tok]
    ensures turn.Unfed? && !s.limitHit ==> s.faults > old(s.faults)
    ensures turn.Next? ==> !s.limitHit && !s.poisoned && !isEog(turn.tok) && Holds(s, old(s.fed) + [turn.tok])
    ensures turn.Unfed? ==> !isEog(turn.tok) && Holds(s, old(s.fed))
    ensures turn.Unfed? && s.limitHit ==> !s.poisoned && (s.nPos >= s.nCtx || !(0 <= turn.tok < s.vocab))
  {
    ghost var fed, faults := s.fed, s.faults;
    var onHost: bool := *;
    var tok, specFed, redo, pre, next := Pick(s, mode, onHost);
    mode' := next;
    if redo {
      if hasFed {
        var ok := Redo(s, lastFed);
        if !ok {
          s.poisoned := true;
          return Stop, mode';
        }
      }
      tok := ReadToken(s);
    }
    if isEog(tok) {
      if specFed {
        s.nPos := s.nPos - 1;
        assert s.fed[..s.nPos] == s.fed;
      }
      return Stop, mode';
    }
    var rc := FeedPicked(s, tok, specFed, pre, fed, faults);
    if rc.At? {
      return Next(tok), mode';
    }
    if rc.st == ComputeFail {
      s.poisoned := true;
    } else if rc.st != Interrupted {
      s.limitHit := true;
    }
    turn := Unfed(tok);
  }

  /** The reported tokens the session holds. */
  function Noted(reported: seq<int>, unfedTail: bool): seq<int> {
    if unfedTail && reported != [] then reported[..|reported| - 1] else reported
  }

  /** All of these are tokens of the vocabulary. */
  predicate AllKnown(s: Session, tokens: seq<int>) {
    forall k :: 0 <= k < |tokens| ==> 0 <= tokens[k] < s.vocab
  }

  lemma LastKnown(s: Session, tokens: seq<int>)
    requires tokens != [] && AllKnown(s, tokens)
    ensures 0 <= tokens[|tokens| - 1] < s.vocab
  {
  }

  lemma WithinContext(s: Session)
    requires s.Valid()
    ensures s.nPos <= s.nCtx
  {
  }

  /**
   The tokens picked are reported one by one, and an end token is not. The loop stops only at such a token, at the
   token limit, after a failure or an interrupt, or when the context is full or a token unknown.
   On every exit that does not poison the session it holds what it held before and the reported tokens, the last one
   excepted exactly when it is flagged as not fed. The loop ends even without a token limit.
   */
  method Decode(s: Session, maxTokens: int, isEog: int -> bool, start: Mode)
    returns (reported: seq<int>, unfedTail: bool)
    requires s.Valid() && s.nPos == |s.fed| && !s.poisoned && !s.limitHit
    modifies s`fed, s`nPos, s`poisoned, s`limitHit, s`faults, s`computed, s`picked, s.rows
    ensures s.Valid() && s.faults >= old(s.faults)
    ensures s.picked == old(s.picked) + reported
      || exists e :: isEog(e) && s.picked == old(s.picked) + reported + [e] && !s.poisoned && !unfedTail
    ensures s.picked == old(s.picked) + reported && s.faults == old(s.faults) && !s.limitHit ==>
      AllKnown(s, reported) ==> |reported| == maxTokens
    ensures !s.poisoned || unfedTail ==> Holds(s, old(s.fed) + Noted(reported, unfedTail))
    ensures unfedTail ==> reported != []
    ensures s.limitHit ==>
      unfedTail && !s.poisoned && (s.nPos >= s.nCtx || !(0 <= reported[|reported| - 1] < s.vocab))
    ensures maxTokens >= 0 ==> |reported| <= maxTokens
    ensures forall k :: 0 <= k < |reported| ==> !isEog(reported[k])
  {
    hide RowsAre, AllKnown, Session.Valid;
    WithinContext(s);
    reported, unfedTail := [], false;
    ghost var before := s.fed;
    assert s.fed == before + reported;
    var mode := start;
    var hasFed, lastFed := false, -1;
    var i := 0;
    while maxTokens < 0 || i < maxTokens
      invariant s.Valid() && s.nPos == |s.fed| && s.fed == before + reported
      invariant !s.poisoned && !s.limitHit && !unfedTail
      invariant i == |reported| && (maxTokens >= 0 ==> i <= maxTokens)
      invariant hasFed == (reported != []) && (hasFed ==> lastFed == reported[i - 1])
      invariant forall k :: 0 <= k < |reported| ==> !isEog(reported[k])
      invariant s.faults >= old(s.faults) && s.picked == old(s.picked) + reported
      decreases s.nCtx - s.nPos
    {
      var goOn := s.Asks();
      if !goOn {
        break;
      }
      ghost var was := reported;
      var turn, next := TakeTurn(s, mode, isEog, hasFed, lastFed);
      WithinContext(s);
      mode := next;
      if turn.Stop? {
        if reported != [] && AllKnown(s, reported) {
          LastKnown(s, reported);
        }
        break;
      }
      reported := reported + [turn.tok];
      assert before + was + [turn.tok] == before + reported;
      if turn.Unfed? {
        unfedTail := true;
        assert reported[..|reported| - 1] == was;
        break;
      }
      hasFed, lastFed := true, turn.tok;
      i := i + 1;
    }
  }

  /** One completion: the prompt is prefilled, then tokens are decoded; a prefill cut short poisons the session. */
  method Generate(s: Session, ids: seq<int>, maxTokens: int, isEog: int -> bool, start: Mode)
    returns (st: Status, reported: seq<int>, unfedTail: bool)
    requires s.Valid() && !s.poisoned && !s.limitHit
    modifies s`fed, s`nPos, s`poisoned, s`limitHit, s`faults, s`computed, s`picked, s.rows
    ensures s.Valid() && s.faults >= old(s.faults)
    ensures s.faults == old(s.faults) && |ids| <= s.nCtx ==> st.Ok?
    ensures !s.poisoned && st.Ok? ==> Holds(s, ids + Noted(reported, unfedTail))
    ensures !s.poisoned && !st.Ok? ==> s.nPos == |s.fed| && s.fed <= ids && reported == []
  {
    reported, unfedTail := [], false;
    var rc, nFed := s.PrefillPrompt(ids);
    if rc.Failed? {
      if rc.st == Interrupted {
        s.poisoned := true;
        return Ok, [], false;
      }
      if rc.st == ComputeFail {
        s.poisoned := true;
        return ComputeFail, [], false;
      }
      return InvalidArg, [], false;
    }
    st := Ok;
    reported, unfedTail := Decode(s, maxTokens, isEog, start);
  }
}
