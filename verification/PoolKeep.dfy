/** Every turn keeps the invariant. */
module PoolKeep {
  import opened PoolModel
  import opened PoolInvariant

  // ---------------------------------------------------------------- moves that touch no run and no job field

  /** A lock is taken when free, given back by its holder, or left alone. */
  predicate Handover(owner: int, owner': int, t: int, held: bool, holds: bool) {
    if held == holds then owner' == owner
    else if holds then owner == FREE && owner' == t
    else owner' == FREE
  }

  predicate IsSignalling(pc: Pc) {
    pc.DSignal? || pc.DSignalLock? || pc.DSignalCast? || pc.DSignalUnlock?
  }

  predicate IsBusy(pc: Pc) {
    pc.DRun? || pc.DAdd?
  }

  function One(b: bool): int {
    if b then 1 else 0
  }

  predicate QuietThread(s: State, t: nat, th: Thread, th': Thread)
    requires |s.threads| > 0
  {
    && (if t == 0 then IsDrain(th.pc) && (IsDrain(th'.pc) || th'.pc.PWait?) else IsWorkerPc(th'.pc))
    && !IsBusy(th.pc) && !IsBusy(th'.pc)
    && (AboutToSignal(th.pc) ==>
          AboutToSignal(th'.pc) || (!s.threads[0].pc.PDWait? && !s.threads[0].pc.PDAsleep?))
    && (t == 0 && th'.pc.PWait? ==> s.epoch > 0 && |s.jobs| == s.epoch && s.cur == s.jobs[s.epoch - 1].end)
  }

  /** The heads are counted, and the locks passed on, as the program points say. */
  predicate Quiet(s: State, t: nat, m: Move)
    requires t < |s.threads|
  {
    var th := s.threads[t];
    && QuietThread(s, t, th, m.th)
    && m.active == s.active + (if t == 0 then 0 else One(IsActive(m.th.pc)) - One(IsActive(th.pc)))
    && m.parked == s.parked + (if t == 0 then 0 else One(IsParked(m.th.pc)) - One(IsParked(th.pc)))
    && Handover(s.wakeOwner, m.wakeOwner, t, HoldsWake(th.pc), HoldsWake(m.th.pc))
    && Handover(s.doneOwner, m.doneOwner, t, HoldsDone(th.pc), HoldsDone(m.th.pc))
  }

  lemma QuietKeepsFields(s: State, t: nat, m: Move)
    requires Inv(s) && t < |s.threads| && Quiet(s, t, m)
    ensures var s' := Apply(s, t, m); Shape(s') && Phases(s') && Fields(s')
  {
    hide Census, Locks, Locals, History, Signalled, Handover, IsActive, IsParked, HoldsWake, HoldsDone;
  }

  lemma QuietKeepsCensus(s: State, t: nat, m: Move)
    requires Inv(s) && t < |s.threads| && Quiet(s, t, m) && Shape(Apply(s, t, m))
    ensures Census(Apply(s, t, m))
  {
    hide Phases, Fields, Locks, Locals, History, Signalled, Handover, QuietThread, IsActive, IsParked, HoldsWake,
         HoldsDone;
    var s' := Apply(s, t, m);
    if t == 0 {
      assert Members(s'.threads, IsActive) == Members(s.threads, IsActive);
      assert Members(s'.threads, IsParked) == Members(s.threads, IsParked);
    } else {
      MembersMove(s.threads, IsActive, t, m.th);
      MembersMove(s.threads, IsParked, t, m.th);
    }
  }

  lemma QuietKeepsLocks(s: State, t: nat, m: Move)
    requires Inv(s) && t < |s.threads| && Quiet(s, t, m) && Shape(Apply(s, t, m))
    ensures Locks(Apply(s, t, m))
  {
    hide Phases, Fields, Census, Locals, History, Signalled, IsActive, IsParked, HoldsWake, HoldsDone, IsWorkerPc,
         IsPublisherPc, IsBusy, AboutToSignal;
  }

  /** Recorded runs and their threads are as before. */
  predicate SameRuns(s: State, s': State) {
    && 0 < s'.epoch == s.epoch <= |s.runs| && s.epoch <= |s'.runs|
    && s'.runs[s.epoch - 1] == s.runs[s.epoch - 1] && |s'.threads| == |s.threads|
    && forall u :: 0 <= u < |s.threads| && (IsBusy(s.threads[u].pc) || IsBusy(s'.threads[u].pc)) ==>
         s'.threads[u] == s.threads[u]
  }

  lemma SameRunsOwned(s: State, s': State)
    requires SameRuns(s, s') && Owned(s.threads, s.runs[s.epoch - 1])
    ensures Owned(s'.threads, s'.runs[s.epoch - 1])
  {
  }

  /** The history stays as it is while neither runs nor counts change and the publisher is no further than they say. */
  lemma HistoryStays(s: State, r: State)
    requires Shape(s) && Phases(s) && Fields(s) && History(s) && Shape(r) && Phases(r) && Fields(r)
    requires r.epoch == s.epoch && (s.epoch > 0 ==> SameRuns(s, r)) && r.runs == s.runs && r.jobs == s.jobs
    requires r.returned == s.returned && r.cur == s.cur && r.executed == s.executed
    requires var pc, pc' := s.threads[0].pc, r.threads[0].pc;
      && (Unpublished(pc') ==> Unpublished(pc)) && (Storing(pc) ==> Storing(pc'))
      && (IsWaiting(pc') ==>
            IsWaiting(pc) || (0 < s.epoch <= |s.jobs| && s.cur == s.jobs[s.epoch - 1].end))
      && (pc'.PDUnlock? || pc'.PUnflag? || pc'.PReturn? ==>
            0 < s.epoch <= |s.jobs| && s.executed == s.jobs[s.epoch - 1].end)
    ensures History(r)
  {
    hide Fields, Tiles, RunWith, Complete, Owned, CountedSum, SameRuns, Unpublished, Published, Storing, IsWaiting,
         IsWorkerPc, IsPublisherPc;
    if s.epoch > 0 {
      SameRunsOwned(s, r);
    }
  }

  lemma QuietSameRuns(s: State, t: nat, m: Move)
    requires |s.threads| > 0 && t < |s.threads| && Quiet(s, t, m) && 0 < s.epoch <= |s.runs|
    ensures SameRuns(s, Apply(s, t, m))
  {
    hide Handover, IsActive, IsParked, HoldsWake, HoldsDone, IsWorkerPc, AboutToSignal, IsDrain;
  }

  lemma QuietPublisher(s: State, t: nat, m: Move)
    requires |s.threads| > 0 && t < |s.threads| && Quiet(s, t, m)
    ensures var pc, pc' := s.threads[0].pc, Apply(s, t, m).threads[0].pc;
      pc' == pc || (IsDrain(pc) && IsDrain(pc'))
      || (IsDrain(pc) && pc'.PWait? && s.epoch > 0 && |s.jobs| == s.epoch && s.cur == s.jobs[s.epoch - 1].end)
  {
    hide Handover, IsActive, IsParked, HoldsWake, HoldsDone, IsWorkerPc, AboutToSignal, IsDrain;
  }

  lemma QuietKeepsHistory(s: State, t: nat, m: Move)
    requires Inv(s) && t < |s.threads| && Quiet(s, t, m)
    requires var s' := Apply(s, t, m); Shape(s') && Phases(s') && Fields(s')
    ensures History(Apply(s, t, m))
  {
    hide Fields, Census, Locks, Locals, Signalled, Quiet, SameRuns, Tiles, RunWith, Complete, Owned, IsWorkerPc,
         IsPublisherPc, CountedSum;
    if s.epoch > 0 {
      QuietSameRuns(s, t, m);
    }
    QuietPublisher(s, t, m);
    HistoryStays(s, Apply(s, t, m));
  }

  lemma QuietKeepsSignalled(s: State, t: nat, m: Move)
    requires Inv(s) && t < |s.threads| && Quiet(s, t, m)
    requires var s' := Apply(s, t, m); Shape(s') && Phases(s')
    ensures Signalled(Apply(s, t, m))
  {
    hide Fields, Census, Locks, Locals, History, Handover, IsActive, IsParked, HoldsWake, HoldsDone, IsWorkerPc,
         IsPublisherPc;
  }

  lemma QuietKeeps(s: State, t: nat, m: Move)
    requires Inv(s) && t < |s.threads| && Quiet(s, t, m) && Local(Apply(s, t, m), t)
    ensures Inv(Apply(s, t, m))
  {
    hide Census, Locks, Fields, History, Signalled, Handover, IsActive, IsParked, HoldsWake, HoldsDone;
    QuietKeepsFields(s, t, m);
    QuietKeepsCensus(s, t, m);
    QuietKeepsLocks(s, t, m);
    QuietKeepsHistory(s, t, m);
    QuietKeepsSignalled(s, t, m);
    var s' := Apply(s, t, m);
    forall u: nat | u < |s'.threads| ensures Local(s', u) {
      assert Local(s, u);
    }
  }

  /** A thread that does not move keeps its locals in order unless the publisher starts to store under it. */
  lemma OtherLocal(s: State, r: State, u: nat)
    requires u < |s.threads| == |r.threads| && Local(s, u) && r.threads[u] == s.threads[u]
    requires r.epoch == s.epoch && s.jobs <= r.jobs
    requires u > 0 && IsPassed(s.threads[u].pc) && Storing(r.threads[0].pc) ==> Storing(s.threads[0].pc)
    requires s.threads[u].pc.Asleep? && s.threads[0].pc.PCast? ==> r.threads[0].pc.PCast?
    ensures Local(r, u)
  {
    hide IsPassed, HasEpoch, DrainRank, DrainLocals, Storing, IsWaiting;
  }

  // ---------------------------------------------------------------- workers between jobs

  /** A worker's turn outside the job, by what it does to the head counts and the locks. */
  lemma WorkerQuiet(s: State, t: nat, m: Move)
    requires 1 <= t < |s.threads|
    requires var pc, pc' := s.threads[t].pc, m.th.pc;
      && IsWorkerPc(pc') && !IsBusy(pc) && !IsBusy(pc') && !AboutToSignal(pc) && !HoldsDone(pc) && !HoldsDone(pc')
      && m.active == s.active + One(IsActive(pc')) - One(IsActive(pc))
      && m.parked == s.parked + One(IsParked(pc')) - One(IsParked(pc))
      && Handover(s.wakeOwner, m.wakeOwner, t, HoldsWake(pc), HoldsWake(pc')) && m.doneOwner == s.doneOwner
    ensures Quiet(s, t, m)
  {
    hide IsActive, IsParked, HoldsWake, HoldsDone, IsWorkerPc;
  }

  lemma ParkPoint(pc: Pc)
    requires IsParking(pc) || pc.Enter?
    ensures IsWorkerPc(pc) && !IsBusy(pc) && !AboutToSignal(pc) && !HoldsDone(pc) && !IsActive(pc)
  {
  }

  lemma ParkQuiet(s: State, t: nat, c: Choice)
    requires Inv(s) && 1 <= t < |s.threads| && IsParking(s.threads[t].pc)
    ensures Quiet(s, t, ParkMove(s, t, c))
  {
    hide Shape, Phases, Fields, Census, Locals, History, Signalled, IsActive, HoldsDone, IsWorkerPc, Quiet,
         AboutToSignal, IsBusy;
    var m := ParkMove(s, t, c);
    ParkPoint(s.threads[t].pc);
    ParkPoint(m.th.pc);
    WorkerQuiet(s, t, m);
  }

  lemma ParkLocal(s: State, t: nat, c: Choice)
    requires Inv(s) && 1 <= t < |s.threads| && IsParking(s.threads[t].pc)
    ensures Local(Apply(s, t, ParkMove(s, t, c)), t)
  {
    hide Fields, Census, Locks, History, Signalled, DrainLocals;
    assert Local(s, t);
  }

  lemma EnterQuiet(s: State, t: nat)
    requires Inv(s) && 1 <= t < |s.threads| && !IsParking(s.threads[t].pc) && !IsDrain(s.threads[t].pc)
    ensures Quiet(s, t, EnterMove(s, t))
  {
    hide Phases, Fields, Census, Locals, History, Signalled;
  }

  lemma EnterLocal(s: State, t: nat)
    requires Inv(s) && 1 <= t < |s.threads| && !IsParking(s.threads[t].pc) && !IsDrain(s.threads[t].pc)
    ensures Local(Apply(s, t, EnterMove(s, t)), t)
  {
    hide Census, Locks, History, Signalled;
    assert Local(s, t);
  }

  // ---------------------------------------------------------------- draining

  lemma DrainerFacts(s: State, t: nat)
    requires Inv(s) && t < |s.threads| && IsDrain(s.threads[t].pc)
    ensures 0 < s.epoch == s.threads[t].e <= |s.jobs|
    ensures !Storing(s.threads[0].pc)
    ensures DrainLocals(s.threads[t], s.jobs[s.epoch - 1])
    ensures s.jobEpoch == s.curTag == s.epoch
  {
    hide Census, Locks, History, Signalled;
    assert Local(s, t);
  }

  /** To the head counts and the wake lock all draining points are alike. */
  lemma DrainPoint(pc: Pc)
    requires IsDrain(pc)
    ensures IsWorkerPc(pc) && IsActive(pc) && !IsParked(pc) && !HoldsWake(pc) && !pc.PWait?
    ensures IsLoading(pc) || pc.DCas? || IsBusy(pc) || IsSignalling(pc)
    ensures !IsSignalling(pc) ==> !HoldsDone(pc) && !AboutToSignal(pc)
  {
  }

  /** The job a draining thread looks at is the one it drains, so only a used up cursor ends the loading. */
  lemma LoadStops(s: State, t: nat)
    requires Inv(s) && t < |s.threads| && IsLoading(s.threads[t].pc)
    ensures 0 < s.epoch <= |s.jobs|
    ensures var th := s.threads[t];
      && th.e == s.jobEpoch && s.jobFn > 0
      && (th.pc.DSnap? ==> th.min > 0 && th.active > 0 && s.curTag == th.e)
      && (th.pc.DSnap? && s.cur >= th.end ==> s.cur == s.jobs[s.epoch - 1].end)
  {
    DrainerFacts(s, t);
    hide Census, Locks, Locals, History, Signalled, IsDrain, IsPublisherPc, IsWorkerPc, Phases;
  }

  /** Where a loading thread goes next; the publisher stops loading only at the end of the job. */
  lemma LoadTarget(s: State, t: nat)
    requires Inv(s) && t < |s.threads| && IsLoading(s.threads[t].pc)
    ensures var m := LoadMove(s, t);
      && m == Stay(s, t).(th := m.th)
      && (IsLoading(m.th.pc) || m.th.pc.DCas? || m.th.pc == Drained(t))
    ensures t == 0 && LoadMove(s, t).th.pc.PWait? ==> s.epoch > 0 && s.cur == s.jobs[s.epoch - 1].end
  {
    LoadStops(s, t);
    hide Inv, LoadMove, IsLoading, Drained;
    LoadGoesOn(s, t);
  }

  lemma LoadGoesOn(s: State, t: nat)
    requires t < |s.threads| && IsLoading(s.threads[t].pc)
    requires s.threads[t].e == s.jobEpoch && s.jobFn > 0
    ensures var pc, m := s.threads[t].pc, LoadMove(s, t);
      && m == Stay(s, t).(th := m.th)
      && (IsLoading(m.th.pc) || m.th.pc.DCas? || m.th.pc == Drained(t))
      && (m.th.pc.PWait? ==>
            pc.DSnap? && (s.curTag != s.threads[t].e || s.cur >= s.threads[t].end || s.threads[t].min == 0
                          || s.threads[t].active == 0))
  {
    hide NextCursor;
  }

  /** A draining thread that only loads stays quiet, whether it goes on or is done. */
  lemma LocalQuiet(s: State, t: nat, m: Move)
    requires t < |s.threads| && m == Stay(s, t).(th := m.th)
    requires IsDrain(s.threads[t].pc) && !IsBusy(s.threads[t].pc) && !IsSignalling(s.threads[t].pc)
    requires m.th.pc.DCas? || IsLoading(m.th.pc) || m.th.pc == Drained(t)
    requires t == 0 && m.th.pc.PWait? ==> s.epoch > 0 && |s.jobs| == s.epoch && s.cur == s.jobs[s.epoch - 1].end
    ensures Quiet(s, t, m)
  {
    hide IsParked, IsWorkerPc, IsActive, HoldsWake, HoldsDone, IsSignalling, AboutToSignal, IsDrain;
    var pc, pc' := s.threads[t].pc, m.th.pc;
    DrainPoint(pc);
    if m.th.pc == Drained(t) {
      DrainedPoint(t);
    } else {
      LoadingPoint(pc');
      DrainPoint(pc');
    }
  }

  lemma LoadingPoint(pc: Pc)
    requires IsLoading(pc) || pc.DCas?
    ensures IsDrain(pc) && !IsBusy(pc) && !IsSignalling(pc)
  {
  }

  lemma DrainedPoint(t: nat)
    ensures var pc := Drained(t);
      && !IsParked(pc) && !HoldsWake(pc) && !HoldsDone(pc) && !IsBusy(pc)
      && (t > 0 ==> IsWorkerPc(pc) && IsActive(pc))
  {
  }

  lemma LoadQuiet(s: State, t: nat)
    requires Inv(s) && t < |s.threads| && IsLoading(s.threads[t].pc)
    ensures Quiet(s, t, LoadMove(s, t))
  {
    DrainerFacts(s, t);
    LoadTarget(s, t);
    LoadingPoint(s.threads[t].pc);
    var m := LoadMove(s, t);
    assert t == 0 && m.th.pc.PWait? ==> s.epoch > 0 && |s.jobs| == s.epoch by {
      hide Fields, Census, Locks, Locals, History, Signalled, LoadMove, DrainLocals, IsLoading, IsDrain;
    }
    hide Inv, LoadMove, DrainLocals, IsDrain, IsLoading, IsSignalling, IsBusy, Quiet;
    LocalQuiet(s, t, m);
  }

  lemma LoadLocal(s: State, t: nat)
    requires Inv(s) && t < |s.threads| && IsLoading(s.threads[t].pc)
    ensures Local(Apply(s, t, LoadMove(s, t)), t)
  {
    hide Census, History, Signalled;
    DrainerFacts(s, t);
    assert Local(s, t);
  }

  /** A draining thread that at most takes or gives back the done lock. */
  lemma LockQuiet(s: State, t: nat, m: Move)
    requires t < |s.threads| && m == Stay(s, t).(th := m.th, doneOwner := m.doneOwner)
    requires var pc, pc' := s.threads[t].pc, m.th.pc;
      && IsDrain(pc) && IsDrain(pc') && !IsBusy(pc) && !IsBusy(pc')
      && Handover(s.doneOwner, m.doneOwner, t, HoldsDone(pc), HoldsDone(pc'))
      && (AboutToSignal(pc) ==> AboutToSignal(pc') || (!s.threads[0].pc.PDWait? && !s.threads[0].pc.PDAsleep?))
    ensures Quiet(s, t, m)
  {
    hide IsParked, IsWorkerPc, IsActive, HoldsWake, HoldsDone, AboutToSignal, IsDrain, IsBusy, IsSignalling, IsLoading;
    DrainPoint(s.threads[t].pc);
    DrainPoint(m.th.pc);
  }

  lemma SignalPoint(pc: Pc)
    requires IsSignalling(pc) || pc.DSnap?
    ensures IsDrain(pc) && !IsBusy(pc)
  {
  }

  /** Whoever stops being about to signal has seen that the publisher does not sleep. */
  lemma SignalTarget(s: State, t: nat)
    requires Inv(s) && t < |s.threads| && IsSignalling(s.threads[t].pc)
    requires s.threads[t].pc.DSignalCast? ==> !s.threads[0].pc.PDAsleep?
    ensures var th, m := s.threads[t], SignalMove(s, t);
      && m == Stay(s, t).(th := m.th, doneOwner := m.doneOwner)
      && (IsSignalling(m.th.pc) || m.th.pc.DSnap?)
      && Handover(s.doneOwner, m.doneOwner, t, HoldsDone(th.pc), HoldsDone(m.th.pc))
      && (AboutToSignal(th.pc) && !AboutToSignal(m.th.pc) ==>
            !s.threads[0].pc.PDWait? && !s.threads[0].pc.PDAsleep?)
  {
    hide Shape, Phases, Fields, Census, Locals, History, Signalled, HoldsWake, IsPublisherPc, IsWorkerPc;
    assert HoldsDone(s.threads[0].pc) <==> s.doneOwner == 0;
  }

  lemma SignalQuiet(s: State, t: nat)
    requires Inv(s) && t < |s.threads| && IsSignalling(s.threads[t].pc)
    requires s.threads[t].pc.DSignalCast? ==> !s.threads[0].pc.PDAsleep?
    ensures Quiet(s, t, SignalMove(s, t))
  {
    SignalTarget(s, t);
    hide Inv, SignalMove, IsSignalling, Handover, HoldsDone, AboutToSignal, IsDrain, IsBusy, Quiet;
    var m := SignalMove(s, t);
    SignalPoint(s.threads[t].pc);
    SignalPoint(m.th.pc);
    LockQuiet(s, t, m);
  }

  lemma SignalLocal(s: State, t: nat)
    requires Inv(s) && t < |s.threads| && IsSignalling(s.threads[t].pc)
    ensures Local(Apply(s, t, SignalMove(s, t)), t)
  {
    hide Census, History, Signalled;
    DrainerFacts(s, t);
    assert Local(s, t);
  }
}
