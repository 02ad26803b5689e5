/** What holds after every schedule of the pool. */
module PoolTheorems {
  import opened PoolModel
  import opened PoolInvariant
  import opened PoolKeep
  import opened PoolRuns
  import opened PoolPublish
  import opened PoolSteps
  import opened PoolProgress

  /** `s` is a state some schedule of `n` threads leads to. */
  ghost predicate Reachable(n: nat, s: State) {
    n > 0 && exists turns :: s == Execute(Init(n), turns)
  }

  lemma ReachableInv(n: nat, s: State)
    requires Reachable(n, s)
    ensures Inv(s)
  {
    hide Inv, Init;
    var turns :| s == Execute(Init(n), turns);
    InitInv(n);
    ExecuteKeeps(Init(n), turns);
  }

  // ---------------------------------------------------------------- exactly once

  predicate Covers(r: Run, i: int) {
    r.begin <= i < r.end
  }

  /** Item `i` lies in one finished run, of this function and context, and in no other. */
  ghost predicate RanOnce(rs: seq<Run>, fn: nat, ctx: nat, i: int) {
    exists k :: 0 <= k < |rs| && Covers(rs[k], i)
      && rs[k].phase.Counted? && rs[k].fn == fn && rs[k].ctx == ctx
      && forall l :: 0 <= l < |rs| && Covers(rs[l], i) ==> l == k
  }

  lemma {:induction false} TilesCover(rs: seq<Run>, upto: nat, i: int) returns (k: nat)
    requires Tiles(rs, upto) && 0 <= i < upto
    ensures k < |rs| && Covers(rs[k], i)
    decreases |rs|
  {
    k := |rs| - 1;
    if i < rs[k].begin {
      assert rs[k - 1].end == rs[k].begin;
      k := TilesCover(rs[..k], rs[k].begin, i);
    }
  }

  lemma {:induction false} TilesOrdered(rs: seq<Run>, upto: nat, k: nat, l: nat)
    requires Tiles(rs, upto) && k < l < |rs|
    ensures rs[k].end <= rs[l].begin
    decreases l - k
  {
    if k + 1 < l {
      TilesOrdered(rs, upto, k + 1, l);
    }
  }

  lemma TilesUnique(rs: seq<Run>, upto: nat, k: nat, l: nat, i: int)
    requires Tiles(rs, upto) && k < |rs| && l < |rs| && Covers(rs[k], i) && Covers(rs[l], i)
    ensures k == l
  {
    if k < l {
      TilesOrdered(rs, upto, k, l);
    } else if l < k {
      TilesOrdered(rs, upto, l, k);
    }
  }

  lemma CompleteRanOnce(rs: seq<Run>, j: Job, i: int)
    requires Complete(rs, j) && 0 <= i < j.end
    ensures RanOnce(rs, j.fn, j.ctx, i)
  {
    hide Tiles;
    var k := TilesCover(rs, j.end, i);
    forall l: nat | l < |rs| && Covers(rs[l], i) ensures l == k {
      TilesUnique(rs, j.end, k, l, i);
    }
  }

  /** Every item of a returned job was run exactly once, with the job's function and context. */
  lemma JobRanOnce(n: nat, s: State, j: nat, i: int)
    requires Reachable(n, s) && j < s.returned
    ensures j < |s.jobs| == |s.runs|
    ensures 0 <= i < s.jobs[j].end ==> RanOnce(s.runs[j], s.jobs[j].fn, s.jobs[j].ctx, i)
  {
    ReachableInv(n, s);
    hide Reachable, Fields, Census, Locks, Locals, Signalled, Complete;
    if 0 <= i < s.jobs[j].end {
      CompleteRanOnce(s.runs[j], s.jobs[j], i);
    }
  }

  lemma RunsTile(s: State, j: nat)
    requires Inv(s) && j < |s.jobs|
    ensures exists upto: nat :: Tiles(s.runs[j], upto) && upto <= s.jobs[j].end
    ensures RunWith(s.runs[j], s.jobs[j])
  {
    hide Census, Locks, Locals, Signalled;
    if j < s.returned {
      assert Tiles(s.runs[j], s.jobs[j].end);
    } else if Unpublished(s.threads[0].pc) {
      assert Tiles(s.runs[j], 0);
    } else {
      assert Tiles(s.runs[j], s.cur);
    }
  }

  /** At no time, for no job, do two runs share an item or does a run use another job's function or context. */
  lemma NeverTwice(n: nat, s: State, j: nat, k: nat, l: nat, i: int)
    requires Reachable(n, s) && j < |s.runs| && k < |s.runs[j]| && l < |s.runs[j]|
    requires Covers(s.runs[j][k], i) && Covers(s.runs[j][l], i)
    ensures k == l
    ensures j < |s.jobs| && s.runs[j][k].fn == s.jobs[j].fn && s.runs[j][k].ctx == s.jobs[j].ctx
  {
    ReachableInv(n, s);
    hide Reachable, Phases, Fields, Census, Locks, Locals, History, Signalled;
    RunsTile(s, j);
    hide Tiles;
    var upto: nat :| Tiles(s.runs[j], upto) && upto <= s.jobs[j].end;
    TilesUnique(s.runs[j], upto, k, l, i);
  }

  // ---------------------------------------------------------------- returning

  /** The turn on which a call returns finds nobody still inside a chunk, and everything counted. */
  lemma ReturnsWhenDone(n: nat, s: State, t: nat, c: Choice)
    requires Reachable(n, s) && Act(s, t, c).returned != s.returned
    ensures t == 0 && |s.jobs| > 0 && Act(s, t, c).returned == s.returned + 1 == |s.jobs|
    ensures s.executed == s.jobs[|s.jobs| - 1].end
    ensures forall u :: 0 <= u < |s.threads| ==> !s.threads[u].pc.DRun? && !s.threads[u].pc.DAdd?
  {
    ReachableInv(n, s);
    hide Reachable, Fields, Census, Locks, Locals, History, Signalled, Complete, Act;
    ReturnIsPublishers(s, t, c);
    ExecutedBound(s);
    NobodyBusy(s);
  }

  lemma ReturnIsPublishers(s: State, t: nat, c: Choice)
    requires |s.threads| > 0 && Act(s, t, c).returned != s.returned
    ensures t == 0 && s.threads[0].pc.PReturn? && Act(s, t, c).returned == s.returned + 1
  {
    hide Apply, DrainStep, StartStep, StoreStep, AnnounceStep, CastStep, FinishStep;
  }

  lemma NobodyBusy(s: State)
    requires Inv(s) && s.threads[0].pc.PReturn?
    ensures s.executed == s.jobs[s.epoch - 1].end
    ensures forall u :: 0 <= u < |s.threads| ==> !s.threads[u].pc.DRun? && !s.threads[u].pc.DAdd?
  {
    ExecutedBound(s);
    hide Fields, Census, Locks, Locals, Signalled;
  }

  /** A turn changes no run of a job other than the one its thread claims or runs for. */
  lemma OtherRuns(s: State, t: nat, c: Choice, j: nat)
    requires t < |s.threads| && j < |s.jobs| == |s.runs|
    requires IsBusy(s.threads[t].pc) || CanClaim(s, t) ==> j + 1 != s.threads[t].e
    ensures var r := Act(s, t, c);
      s.returned <= r.returned && s.jobs <= r.jobs && |s.runs| <= |r.runs| && r.runs[j] == s.runs[j]
  {
    hide Apply, DrainStep, StartStep, StoreStep, AnnounceStep, CastStep, FinishStep;
  }

  lemma ReturnedIsFinalStep(s: State, t: nat, c: Choice, j: nat)
    requires Inv(s) && j < s.returned
    ensures var r := Act(s, t, c); j < r.returned && j < |r.jobs| && j < |r.runs|
    ensures var r := Act(s, t, c); j < |s.jobs| == |s.runs| && r.runs[j] == s.runs[j] && r.jobs[j] == s.jobs[j]
  {
    assert j < |s.jobs| == |s.runs| by {
      hide Fields, Census, Locks, Locals, History, Signalled;
    }
    hide Phases, Fields, Census, Locks, Locals, History, Signalled;
    if t < |s.threads| {
      if IsBusy(s.threads[t].pc) {
        BusyFacts(s, t);
      } else if CanClaim(s, t) {
        ClaimFacts(s, t);
      }
      hide Act, Inv, DrainLocals;
      OtherRuns(s, t, c, j);
    }
  }

  /** Nothing is ever added to, or changed in, the runs of a job whose call has returned. */
  lemma {:induction false} ReturnedIsFinal(n: nat, s: State, turns: seq<Turn>, j: nat)
    requires Reachable(n, s) && j < s.returned
    ensures var r := Execute(s, turns); j < r.returned && j < |r.jobs| == |r.runs|
    ensures var r := Execute(s, turns); j < |s.jobs| == |s.runs| && r.runs[j] == s.runs[j] && r.jobs[j] == s.jobs[j]
    decreases |turns|
  {
    ReachableInv(n, s);
    hide Act, Reachable, Phases, Fields, Census, Locks, Locals, History, Signalled;
    ExecuteKeeps(s, turns);
    if turns == [] {
      ReturnedIsFinalStep(s, |s.threads|, Go, j);
    } else {
      var last := turns[|turns| - 1];
      ReturnedIsFinal(n, s, turns[..|turns| - 1], j);
      ExecuteKeeps(s, turns[..|turns| - 1]);
      ReturnedIsFinalStep(Execute(s, turns[..|turns| - 1]), last.t, last.c, j);
    }
  }

  // ---------------------------------------------------------------- late workers

  lemma WorkerLeavesRuns(s: State, t: nat, c: Choice)
    requires 1 <= t < |s.threads| && !IsBusy(s.threads[t].pc) && !CanClaim(s, t)
    ensures Act(s, t, c).runs == s.runs && Act(s, t, c).executed == s.executed
  {
    hide LoadMove, SignalMove, ParkMove, EnterMove;
  }

  /** A worker that saw an older epoch than the newest job's claims and runs nothing, whatever it does. */
  lemma LateWorkerClaimsNothing(n: nat, s: State, t: nat, c: Choice)
    requires Reachable(n, s) && 1 <= t < |s.threads|
    requires HasEpoch(s.threads[t].pc) && s.threads[t].e < |s.jobs|
    ensures Act(s, t, c).runs == s.runs && Act(s, t, c).executed == s.executed
    ensures s.threads[t].pc.DCas? ==> s.cur != s.threads[t].snap || s.curTag != s.threads[t].e
  {
    ReachableInv(n, s);
    if IsBusy(s.threads[t].pc) {
      BusyFacts(s, t);
    } else if CanClaim(s, t) {
      ClaimFacts(s, t);
    }
    hide Act;
    WorkerLeavesRuns(s, t, c);
    if s.threads[t].pc.DCas? {
      DrainerFacts(s, t);
    }
    hide Reachable, Fields, Census, Locks, Locals, History, Signalled, HasEpoch, DrainLocals;
  }

  /** An exchange that would succeed is on the newest job, with its own function and context, while its call waits. */
  lemma ClaimsAreCurrent(n: nat, s: State, t: nat)
    requires Reachable(n, s) && t < |s.threads| && s.threads[t].pc.DCas?
    requires s.cur == s.threads[t].snap && s.curTag == s.threads[t].e
    ensures 0 < s.threads[t].e == |s.jobs| && s.returned == |s.jobs| - 1
    ensures s.threads[t].fn == s.jobs[|s.jobs| - 1].fn && s.threads[t].ctx == s.jobs[|s.jobs| - 1].ctx
    ensures s.threads[t].snap < s.threads[t].next <= s.jobs[|s.jobs| - 1].end
  {
    ReachableInv(n, s);
    DrainerFacts(s, t);
    ClaimFacts(s, t);
    hide Reachable, Inv;
  }

  // ---------------------------------------------------------------- no lost wake-up

  lemma CastWakes(s: State, u: nat, c: Choice)
    requires 1 <= u < |s.threads| && s.threads[u].pc.Asleep? && s.threads[0].pc.PCast?
    requires s.parked > 0 && |s.jobs| > 0
    ensures Act(s, 0, c).threads[u] == s.threads[u].(pc := Woken)
  {
    CastMoves(s, CastStep(s), u);
    hide CastStep;
  }

  /** A worker asleep on the wake condition has seen the epoch, or the publisher is about to wake it. */
  lemma NoLostWakeUp(n: nat, s: State, u: nat)
    requires Reachable(n, s) && 1 <= u < |s.threads| && s.threads[u].pc.Asleep? && s.threads[u].last != s.epoch
    ensures s.threads[0].pc.PCast? && s.parked > 0
    ensures forall c :: Act(s, 0, c).threads[u] == s.threads[u].(pc := Woken)
  {
    ReachableInv(n, s);
    assert Local(s, u);
    SleeperIsCounted(s, u);
    hide Act, Reachable, Fields, Census, Locks, Locals, History, Signalled, HasEpoch, IsPassed, DrainRank;
    forall c ensures Act(s, 0, c).threads[u] == s.threads[u].(pc := Woken) {
      CastWakes(s, u, c);
    }
  }

  /** The publisher asleep with everything counted will be woken: whoever counted last is about to broadcast. */
  lemma NoLostCompletion(n: nat, s: State)
    requires Reachable(n, s) && |s.threads| > 0 && s.threads[0].pc.PDAsleep?
    ensures |s.jobs| > 0 && s.executed <= s.jobs[|s.jobs| - 1].end
    ensures s.executed == s.jobs[|s.jobs| - 1].end ==>
      && s.doneWaiting && 1 <= s.finisher < |s.threads| && AboutToSignal(s.threads[s.finisher].pc)
    ensures s.executed < s.jobs[|s.jobs| - 1].end ==> exists u :: 1 <= u < |s.threads| && IsBusy(s.threads[u].pc)
  {
    ReachableInv(n, s);
    ExecutedBound(s);
    if s.executed < s.jobs[|s.jobs| - 1].end {
      var u := BusyWorker(s);
    }
    hide Reachable, Fields, Census, Locals, History;
  }

  /** From every reachable state, turns without any spurious wake-up let every call taken on return. */
  lemma EveryCallCanReturn(n: nat, s: State) returns (turns: seq<Turn>)
    requires Reachable(n, s)
    ensures Plain(turns)
    ensures var r := Execute(s, turns); r.jobs == s.jobs && r.returned == |s.jobs|
  {
    ReachableInv(n, s);
    turns := CanFinish(s);
    hide Reachable, Execute, Fields, Census, Locals, History;
  }
}
