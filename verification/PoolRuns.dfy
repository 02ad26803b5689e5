/** Claiming, running and counting a chunk keep the invariant. */
module PoolRuns {
  import opened PoolModel
  import opened PoolInvariant
  import opened PoolKeep

  /** Thread `t` moves between program points of the same standing: no head count or lock changes. */
  predicate SameStanding(s: State, s': State, t: nat) {
    && t < |s.threads| == |s'.threads|
    && s'.threads == s.threads[t := s'.threads[t]]
    && s'.active == s.active && s'.parked == s.parked
    && s'.wakeOwner == s.wakeOwner && s'.doneOwner == s.doneOwner && s'.doneWaiting == s.doneWaiting
    && var pc, pc' := s.threads[t].pc, s'.threads[t].pc;
    && (t > 0 ==> IsActive(pc) == IsActive(pc') && IsParked(pc) == IsParked(pc'))
    && HoldsWake(pc) == HoldsWake(pc') && HoldsDone(pc) == HoldsDone(pc')
    && (t == 0 ==> Flagged(pc) == Flagged(pc'))
  }

  lemma SameStandingKeeps(s: State, s': State, t: nat)
    requires Shape(s) && Shape(s') && Census(s) && Locks(s) && SameStanding(s, s', t)
    ensures Census(s') && Locks(s')
  {
    hide IsActive, IsParked, HoldsWake, HoldsDone, Flagged;
    if t == 0 {
      assert Members(s'.threads, IsActive) == Members(s.threads, IsActive);
      assert Members(s'.threads, IsParked) == Members(s.threads, IsParked);
    } else {
      MembersMove(s.threads, IsActive, t, s'.threads[t]);
      MembersMove(s.threads, IsParked, t, s'.threads[t]);
    }
  }

  /** What is known while a chunk can still be claimed or has not been counted: the job is out. */
  ghost predicate Underway(s: State)
    requires Shape(s)
  {
    && 0 < s.epoch == |s.jobs| && s.returned == s.epoch - 1
    && Published(s.threads[0].pc)
  }

  lemma ReturnedComplete(s: State)
    requires Inv(s) && s.epoch > 0
    ensures s.epoch <= |s.runs| && s.epoch <= |s.jobs|
    ensures s.returned == s.epoch ==> Complete(s.runs[s.epoch - 1], s.jobs[s.epoch - 1])
  {
    hide Census, Locks, Locals, Signalled, Fields, Complete;
  }

  lemma UnclaimedUnderway(s: State)
    requires Inv(s) && s.epoch > 0 && !Storing(s.threads[0].pc) && s.cur < s.jobs[s.epoch - 1].end
    ensures Underway(s) && !IsWaiting(s.threads[0].pc)
  {
    hide Census, Locks, Locals, Signalled, Fields;
    ReturnedComplete(s);
  }

  lemma UncountedUnderway(s: State, k: nat)
    requires Inv(s) && s.epoch > 0 && !Storing(s.threads[0].pc)
    requires k < |s.runs[s.epoch - 1]| && !s.runs[s.epoch - 1][k].phase.Counted?
    ensures Underway(s)
    ensures s.executed < s.jobs[s.epoch - 1].end
  {
    hide Census, Locks, Locals, Signalled;
    ReturnedComplete(s);
    CountedSumBound(s.runs[s.epoch - 1], s.cur);
  }

  lemma TilesClaim(rs: seq<Run>, r: Run)
    requires Tiles(rs, r.begin) && r.begin < r.end
    ensures Tiles(rs + [r], r.end)
  {
  }

  lemma TilesPhase(rs: seq<Run>, k: nat, phase: Phase, upto: nat)
    requires Tiles(rs, upto) && k < |rs|
    ensures Tiles(rs[k := rs[k].(phase := phase)], upto)
  {
  }

  lemma OwnedClaim(ts: seq<Thread>, rs: seq<Run>, t: nat, th: Thread)
    requires Owned(ts, rs) && t < |ts| && !IsBusy(ts[t].pc)
    requires th.pc.DRun? && th.slot == |rs|
    ensures Owned(ts[t := th], rs + [RunOf(t, th)])
  {
  }

  lemma OwnedPerform(ts: seq<Thread>, rs: seq<Run>, t: nat)
    requires Owned(ts, rs) && t < |ts| && ts[t].pc.DRun? && ts[t].slot < |rs|
    ensures Owned(ts[t := ts[t].(pc := DAdd)], rs[ts[t].slot := rs[ts[t].slot].(phase := Ran)])
  {
  }

  lemma OwnedAccount(ts: seq<Thread>, rs: seq<Run>, t: nat, pc: Pc)
    requires Owned(ts, rs) && t < |ts| && ts[t].pc.DAdd? && ts[t].slot < |rs| && !IsBusy(pc)
    ensures Owned(ts[t := ts[t].(pc := pc)], rs[ts[t].slot := rs[ts[t].slot].(phase := Counted)])
  {
  }

  /** A thread that goes on draining keeps its locals in order. */
  lemma MovedLocal(s: State, r: State, t: nat)
    requires t < |s.threads| == |r.threads| && Local(s, t) && IsDrain(s.threads[t].pc) && IsDrain(r.threads[t].pc)
    requires r.threads[t].e == s.threads[t].e && r.threads[t].last == s.threads[t].last
    requires t > 0 ==> r.threads[0] == s.threads[0]
    requires 0 < s.epoch <= |s.jobs| && r.epoch == s.epoch && r.jobs == s.jobs
    requires DrainLocals(r.threads[t], s.jobs[s.epoch - 1])
    ensures Local(r, t)
  {
    hide DrainLocals;
  }

  // ---------------------------------------------------------------- claim

  ghost predicate CanClaim(s: State, t: nat) {
    && t < |s.threads| && s.threads[t].pc.DCas?
    && s.curTag == s.threads[t].e && s.cur == s.threads[t].snap
    && 0 < s.threads[t].e <= |s.runs|
  }

  lemma ClaimFacts(s: State, t: nat)
    requires Inv(s) && CanClaim(s, t)
    ensures Underway(s) && !IsWaiting(s.threads[0].pc) && s.threads[t].e == s.epoch
    ensures DrainLocals(s.threads[t], s.jobs[s.epoch - 1])
  {
    hide Census, Locks, History, Signalled, Locals, Shape, Phases, Fields;
    DrainerFacts(s, t);
    UnclaimedUnderway(s);
  }

  lemma ClaimKeepsShape(s: State, t: nat)
    requires Inv(s) && CanClaim(s, t)
    ensures var s' := Claim(s, t); Shape(s') && Phases(s') && Fields(s') && Census(s') && Locks(s')
  {
    hide Census, Locks, History, Signalled, Locals;
    ClaimFacts(s, t);
    SameStandingKeeps(s, Claim(s, t), t);
  }

  lemma ClaimKeepsLocals(s: State, t: nat)
    requires Inv(s) && CanClaim(s, t)
    ensures Locals(Claim(s, t))
  {
    ClaimFacts(s, t);
    var s' := Claim(s, t);
    assert Local(s, t);
    hide Phases, Fields, Census, Locks, History, Signalled, Local, IsPassed, HasEpoch;
    MovedLocal(s, s', t);
    forall u: nat | u < |s.threads| ensures Local(s', u) {
      if u != t {
        OtherLocal(s, s', u);
      }
    }
  }

  lemma ClaimKeepsHistory(s: State, t: nat)
    requires Inv(s) && CanClaim(s, t)
    requires var s' := Claim(s, t); Shape(s') && Phases(s') && Fields(s')
    ensures History(Claim(s, t))
  {
    hide Census, Locks, Locals, Tiles, Complete, Signalled, Owned;
    ClaimFacts(s, t);
    var th := s.threads[t];
    var r := Run(th.snap, th.next, t, th.fn, th.ctx, Claimed);
    assert r == RunOf(t, Claim(s, t).threads[t]);
    OwnedClaim(s.threads, s.runs[s.epoch - 1], t, Claim(s, t).threads[t]);
    CountedSumClaim(s.runs[s.epoch - 1], r);
    TilesClaim(s.runs[s.epoch - 1], r);
  }

  lemma ClaimKeepsSignalled(s: State, t: nat)
    requires Inv(s) && CanClaim(s, t)
    requires var s' := Claim(s, t); Shape(s') && Phases(s')
    ensures Signalled(Claim(s, t))
  {
    hide Census, Locks, Locals, Fields, History, Tiles, Complete;
    ClaimFacts(s, t);
  }

  lemma ClaimKeeps(s: State, t: nat)
    requires Inv(s) && CanClaim(s, t)
    ensures Inv(Claim(s, t))
  {
    hide Shape, Phases, Fields, Census, Locks, Locals, History, Signalled, Claim;
    ClaimKeepsShape(s, t);
    ClaimKeepsLocals(s, t);
    ClaimKeepsHistory(s, t);
    ClaimKeepsSignalled(s, t);
  }

  lemma RetryKeeps(s: State, t: nat)
    requires Inv(s) && t < |s.threads| && s.threads[t].pc.DCas?
    ensures Inv(Apply(s, t, RetryMove(s, t)))
  {
    hide Phases, Fields, Census, Locks, History, Signalled;
    DrainerFacts(s, t);
    assert Local(s, t);
    QuietKeeps(s, t, RetryMove(s, t));
  }

  // ---------------------------------------------------------------- run and count

  ghost predicate HoldsRun(s: State, t: nat)
    requires Shape(s)
  {
    && t < |s.threads| && 0 < s.threads[t].e == s.epoch == |s.jobs|
    && s.threads[t].slot < |s.runs[s.epoch - 1]|
    && var th := s.threads[t];
    && s.runs[s.epoch - 1][th.slot] == Run(th.snap, th.next, t, th.fn, th.ctx, if th.pc.DRun? then Claimed else Ran)
  }

  lemma BusyFacts(s: State, t: nat)
    requires Inv(s) && t < |s.threads| && IsBusy(s.threads[t].pc)
    ensures Underway(s) && HoldsRun(s, t)
    ensures DrainLocals(s.threads[t], s.jobs[s.epoch - 1])
    ensures s.executed < s.jobs[s.epoch - 1].end
  {
    hide Census, Locks, Signalled, Locals, Fields;
    DrainerFacts(s, t);
    UncountedUnderway(s, s.threads[t].slot);
  }

  lemma PerformKeepsShape(s: State, t: nat)
    requires Inv(s) && t < |s.threads| && s.threads[t].pc.DRun?
    ensures var s' := Perform(s, t); Shape(s') && Phases(s') && Fields(s') && Census(s') && Locks(s')
  {
    hide Census, Locks, History, Signalled, Locals;
    BusyFacts(s, t);
    SameStandingKeeps(s, Perform(s, t), t);
  }

  lemma PerformKeepsLocals(s: State, t: nat)
    requires Inv(s) && t < |s.threads| && s.threads[t].pc.DRun?
    ensures Locals(Perform(s, t))
  {
    BusyFacts(s, t);
    var s' := Perform(s, t);
    assert Local(s, t);
    hide Phases, Fields, Census, Locks, History, Signalled, Local, IsPassed, HasEpoch, SetPhase;
    MovedLocal(s, s', t);
    forall u: nat | u < |s.threads| ensures Local(s', u) {
      if u != t {
        OtherLocal(s, s', u);
      }
    }
  }

  lemma PerformKeepsHistory(s: State, t: nat)
    requires Inv(s) && t < |s.threads| && s.threads[t].pc.DRun?
    requires var s' := Perform(s, t); Shape(s') && Phases(s') && Fields(s')
    ensures History(Perform(s, t))
  {
    hide Census, Locks, Locals, Tiles, Complete, Signalled, Owned;
    BusyFacts(s, t);
    var k := s.threads[t].slot;
    OwnedPerform(s.threads, s.runs[s.epoch - 1], t);
    CountedSumPhase(s.runs[s.epoch - 1], k, Ran);
    TilesPhase(s.runs[s.epoch - 1], k, Ran, s.cur);
  }

  lemma PerformKeepsSignalled(s: State, t: nat)
    requires Inv(s) && t < |s.threads| && s.threads[t].pc.DRun?
    requires var s' := Perform(s, t); Shape(s') && Phases(s')
    ensures Signalled(Perform(s, t))
  {
    hide Census, Locks, Locals, Fields, History, SetPhase, Tiles, Complete;
    BusyFacts(s, t);
  }

  lemma PerformKeeps(s: State, t: nat)
    requires Inv(s) && t < |s.threads| && s.threads[t].pc.DRun?
    ensures Inv(Perform(s, t))
  {
    hide Shape, Phases, Fields, Census, Locks, Locals, History, Signalled, Perform;
    PerformKeepsShape(s, t);
    PerformKeepsLocals(s, t);
    PerformKeepsHistory(s, t);
    PerformKeepsSignalled(s, t);
  }

  lemma AccountKeepsShape(s: State, t: nat)
    requires Inv(s) && t < |s.threads| && s.threads[t].pc.DAdd?
    ensures s.threads[t].snap <= s.threads[t].next
    ensures var s' := Account(s, t); Shape(s') && Phases(s') && Fields(s') && Census(s') && Locks(s')
  {
    hide Census, Locks, History, Signalled, Locals;
    BusyFacts(s, t);
    SameStandingKeeps(s, Account(s, t), t);
  }

  lemma AccountKeepsLocals(s: State, t: nat)
    requires Inv(s) && t < |s.threads| && s.threads[t].pc.DAdd? && s.threads[t].snap <= s.threads[t].next
    ensures Locals(Account(s, t))
  {
    BusyFacts(s, t);
    var s' := Account(s, t);
    assert Local(s, t);
    hide Phases, Fields, Census, Locks, History, Signalled, Local, IsPassed, HasEpoch, SetPhase;
    MovedLocal(s, s', t);
    forall u: nat | u < |s.threads| ensures Local(s', u) {
      if u != t {
        OtherLocal(s, s', u);
      }
    }
  }

  lemma AccountKeepsHistory(s: State, t: nat)
    requires Inv(s) && t < |s.threads| && s.threads[t].pc.DAdd? && s.threads[t].snap <= s.threads[t].next
    requires var s' := Account(s, t); Shape(s') && Phases(s') && Fields(s')
    ensures History(Account(s, t))
  {
    hide Census, Locks, Locals, Tiles, Complete, Signalled, Owned, CountedSum, IsWorkerPc, IsPublisherPc;
    BusyFacts(s, t);
    var k := s.threads[t].slot;
    OwnedAccount(s.threads, s.runs[s.epoch - 1], t, Account(s, t).threads[t].pc);
    CountedSumPhase(s.runs[s.epoch - 1], k, Counted);
    TilesPhase(s.runs[s.epoch - 1], k, Counted, s.cur);
  }

  lemma AccountKeepsSignalled(s: State, t: nat)
    requires Inv(s) && t < |s.threads| && s.threads[t].pc.DAdd? && s.threads[t].snap <= s.threads[t].next
    requires var s' := Account(s, t); Shape(s') && Phases(s')
    ensures Signalled(Account(s, t))
  {
    hide Census, Locks, Locals, Fields, History, SetPhase, Tiles, Complete;
    BusyFacts(s, t);
  }

  lemma AccountKeeps(s: State, t: nat)
    requires Inv(s) && t < |s.threads| && s.threads[t].pc.DAdd?
    ensures s.threads[t].snap <= s.threads[t].next && Inv(Account(s, t))
  {
    hide Shape, Phases, Fields, Census, Locks, Locals, History, Signalled, Account;
    AccountKeepsShape(s, t);
    AccountKeepsLocals(s, t);
    AccountKeepsHistory(s, t);
    AccountKeepsSignalled(s, t);
  }
}
