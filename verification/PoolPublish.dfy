/** The publisher's own turns keep the invariant. */
module PoolPublish {
  import opened PoolModel
  import opened PoolInvariant
  import opened PoolKeep

  lemma NobodyIn(ts: seq<Thread>, p: Pc -> bool, u: nat)
    requires |Members(ts, p)| == 0 && 1 <= u < |ts|
    ensures !p(ts[u].pc)
  {
    assert Members(ts, p) == {};
    assert u !in Members(ts, p);
  }

  lemma PublisherCensus(s: State, r: State)
    requires Shape(s) && Shape(r) && Census(s)
    requires |r.threads| == |s.threads| && forall u :: 1 <= u < |s.threads| ==> r.threads[u] == s.threads[u]
    requires r.active == s.active && r.parked == s.parked
    ensures Census(r)
  {
    hide IsActive, IsParked, Shape;
    assert Members(r.threads, IsActive) == Members(s.threads, IsActive);
    assert Members(r.threads, IsParked) == Members(s.threads, IsParked);
  }

  /** The locks stay in order when the publisher takes and gives them back as its program points say. */
  lemma PublisherLocks(s: State, r: State)
    requires Shape(s) && Shape(r) && Locks(s)
    requires |r.threads| == |s.threads| && forall u :: 1 <= u < |s.threads| ==> r.threads[u] == s.threads[u]
    requires var pc, pc' := s.threads[0].pc, r.threads[0].pc;
      && Handover(s.wakeOwner, r.wakeOwner, 0, HoldsWake(pc), HoldsWake(pc'))
      && Handover(s.doneOwner, r.doneOwner, 0, HoldsDone(pc), HoldsDone(pc')) && r.doneWaiting == Flagged(pc')
    ensures Locks(r)
  {
    hide IsPublisherPc, IsWorkerPc, HoldsWake, HoldsDone, Flagged;
    assert HoldsWake(s.threads[0].pc) <==> s.wakeOwner == 0;
    assert HoldsDone(s.threads[0].pc) <==> s.doneOwner == 0;
    forall u | 0 <= u < |r.threads|
      ensures HoldsWake(r.threads[u].pc) <==> r.wakeOwner == u
      ensures HoldsDone(r.threads[u].pc) <==> r.doneOwner == u
    {
      assert u > 0 ==> r.threads[u] == s.threads[u];
    }
  }

  lemma StartKeepsShape(s: State, c: Choice, r: State)
    requires Inv(s) && IsStarting(s.threads[0].pc) && r == StartStep(s, c)
    ensures Shape(r) && Phases(r) && Fields(r)
  {
    hide Census, Locks, Locals, History, Signalled, IsActive, IsParked, HoldsWake, HoldsDone, WakeAll;
  }

  lemma StartingPoint(pc: Pc)
    requires IsStarting(pc) || pc.PEnd?
    ensures !HoldsWake(pc) && !HoldsDone(pc) && !Flagged(pc)
  {
  }

  lemma StartMoves(s: State, c: Choice, r: State)
    requires |s.threads| > 0 && IsStarting(s.threads[0].pc) && r == StartStep(s, c)
    ensures IsStarting(r.threads[0].pc) || r.threads[0].pc.PEnd?
    ensures r.wakeOwner == s.wakeOwner && r.doneOwner == s.doneOwner && r.doneWaiting == s.doneWaiting
  {
    hide JobOf, Usable;
  }

  lemma StartKeepsLocks(s: State, c: Choice, r: State)
    requires Inv(s) && IsStarting(s.threads[0].pc) && r == StartStep(s, c)
    requires Shape(r)
    ensures Locks(r)
  {
    assert s.doneWaiting == Flagged(s.threads[0].pc);
    StartMoves(s, c, r);
    hide Phases, Fields, Census, Locals, Locks, History, Signalled, StartStep, HoldsWake, HoldsDone, Flagged,
         IsStarting, IsWorkerPc, IsPublisherPc;
    StartingPoint(s.threads[0].pc);
    StartingPoint(r.threads[0].pc);
    PublisherLocks(s, r);
  }

  lemma StartKeepsOwnLocal(s: State, c: Choice, r: State)
    requires Inv(s) && IsStarting(s.threads[0].pc) && r == StartStep(s, c)
    ensures r.epoch == s.epoch && Local(r, 0) && !s.threads[0].pc.PCast?
    ensures s.threads[0].pc.PRetire? || !Storing(r.threads[0].pc)
    ensures s.active != 0 ==> !Storing(r.threads[0].pc)
  {
    hide Phases, Fields, Census, Locks, History, Signalled, JobOf, Usable;
    assert Local(s, 0);
  }

  lemma StartKeepsLocals(s: State, c: Choice, r: State)
    requires Inv(s) && IsStarting(s.threads[0].pc) && r == StartStep(s, c)
    ensures Locals(r)
  {
    StartKeepsOwnLocal(s, c, r);
    hide Phases, Fields, Locks, History, Signalled, Local, StartStep, Storing, DrainRank, IsPassed;
    forall u: nat | u < |s.threads| ensures Local(r, u) {
      if u > 0 {
        if s.active == 0 {
          NobodyIn(s.threads, IsActive, u);
        }
        OtherLocal(s, r, u);
      }
    }
  }

  lemma StartSameRuns(s: State, c: Choice, r: State)
    requires Inv(s) && IsStarting(s.threads[0].pc) && r == StartStep(s, c) && s.epoch > 0
    ensures SameRuns(s, r)
  {
    hide Fields, JobOf, Usable, Census, Locks, Locals, History, Signalled, IsWorkerPc;
  }

  lemma IdleKeepsHistory(s: State, c: Choice, r: State)
    requires Inv(s) && s.threads[0].pc.Idle? && r == StartStep(s, c)
    requires Shape(r) && Phases(r) && Fields(r)
    ensures History(r)
  {
    hide Fields, JobOf, Usable, Census, Locks, Locals, Signalled, Tiles, RunWith, Complete, Owned, CountedSum,
         IsWorkerPc, SameRuns;
    if s.epoch > 0 {
      StartSameRuns(s, c, r);
      SameRunsOwned(s, r);
    }
  }

  lemma StartKeepsHistory(s: State, c: Choice, r: State)
    requires Inv(s) && IsStarting(s.threads[0].pc) && r == StartStep(s, c)
    requires Shape(r) && Phases(r) && Fields(r)
    ensures History(r) && Signalled(r)
  {
    hide Phases, Fields, JobOf, Usable, Census, Locks, Locals, History, SameRuns, IsWorkerPc, IsPublisherPc;
    if s.threads[0].pc.Idle? {
      IdleKeepsHistory(s, c, r);
    } else {
      if s.epoch > 0 {
        StartSameRuns(s, c, r);
      }
      HistoryStays(s, r);
    }
  }

  lemma StartKeeps(s: State, c: Choice)
    requires Inv(s) && IsStarting(s.threads[0].pc)
    ensures Inv(StartStep(s, c))
  {
    hide Census, Locks, Locals, History, Signalled, Fields, StartStep;
    var r := StartStep(s, c);
    hide Shape, Phases;
    StartKeepsShape(s, c, r);
    PublisherCensus(s, r);
    StartKeepsLocks(s, c, r);
    StartKeepsLocals(s, c, r);
    StartKeepsHistory(s, c, r);
  }

  lemma StoringPoint(pc: Pc)
    requires IsStoring(pc) || pc.PLock?
    ensures IsPublisherPc(pc) && Storing(pc) && Unpublished(pc) && !Published(pc)
    ensures !pc.PGate? && !pc.PCast?
  {
  }

  lemma StoringIsNoDrain(pc: Pc)
    requires IsStoring(pc) || pc.PLock?
    ensures !IsWaiting(pc) && DrainRank(pc) < 0
  {
  }

  lemma StoringHolds(pc: Pc)
    requires IsStoring(pc) || pc.PLock?
    ensures !HoldsWake(pc) && !HoldsDone(pc) && !Flagged(pc)
  {
  }

  /** What one store does to everything but the job's fields. */
  lemma StoreMoves(s: State, r: State)
    requires |s.threads| > 0 && IsStoring(s.threads[0].pc) && |s.jobs| > 0 && r == StoreStep(s)
    ensures IsStoring(r.threads[0].pc) || r.threads[0].pc.PLock?
    ensures r.threads[0] == s.threads[0].(pc := r.threads[0].pc)
    ensures r == s.(threads := r.threads, jobEnd := r.jobEnd, chunkSize := r.chunkSize, jobFn := r.jobFn,
                    jobCtx := r.jobCtx, executed := r.executed, curTag := r.curTag, cur := r.cur,
                    nWorkers := r.nWorkers, jobEpoch := r.jobEpoch)
  {
  }

  lemma StoreKeepsShape(s: State, r: State)
    requires Inv(s) && IsStoring(s.threads[0].pc) && |s.jobs| > 0 && r == StoreStep(s)
    ensures Shape(r) && Phases(r)
  {
    StoreMoves(s, r);
    hide Fields, Census, Locks, Locals, History, Signalled, StoreStep, IsPublisherPc, Unpublished, Published,
         IsWorkerPc, IsStoring;
    StoringPoint(s.threads[0].pc);
    StoringPoint(r.threads[0].pc);
  }

  lemma StoreKeepsFields(s: State, r: State)
    requires Inv(s) && IsStoring(s.threads[0].pc) && |s.jobs| > 0 && r == StoreStep(s)
    requires Shape(r) && Phases(r)
    ensures Fields(r)
  {
    hide Census, Locks, Locals, History, Signalled, IsActive, IsParked, HoldsWake, HoldsDone;
  }

  lemma StoreKeepsLocks(s: State, r: State)
    requires Inv(s) && IsStoring(s.threads[0].pc) && |s.jobs| > 0 && r == StoreStep(s)
    requires Shape(r)
    ensures Locks(r)
  {
    StoreMoves(s, r);
    hide Phases, Fields, Census, Locks, Locals, History, Signalled, StoreStep, IsPublisherPc, IsWorkerPc, IsStoring,
         HoldsWake, HoldsDone, Flagged, Storing;
    StoringHolds(s.threads[0].pc);
    StoringHolds(r.threads[0].pc);
    assert s.doneWaiting == Flagged(s.threads[0].pc);
    PublisherLocks(s, r);
  }

  lemma StoreKeepsLocals(s: State, r: State)
    requires Inv(s) && IsStoring(s.threads[0].pc) && |s.jobs| > 0 && r == StoreStep(s)
    ensures Locals(r)
  {
    StoreMoves(s, r);
    hide Shape, Phases, Fields, Census, Locks, History, Signalled, StoreStep, IsPublisherPc, IsWorkerPc, IsStoring,
         IsPassed, HasEpoch, DrainRank, DrainLocals, Storing, IsWaiting, Unpublished, Published;
    StoringPoint(s.threads[0].pc);
    StoringPoint(r.threads[0].pc);
    StoringIsNoDrain(r.threads[0].pc);
    forall u: nat | u < |s.threads| ensures Local(r, u) {
      assert Local(s, u);
      if u > 0 {
        OtherLocal(s, r, u);
      }
    }
  }

  lemma StoringKeepsHistory(s: State, r: State)
    requires Inv(s) && Shape(r) && Phases(r) && Fields(r)
    requires Storing(s.threads[0].pc) && Storing(r.threads[0].pc) && |r.threads| == |s.threads|
    requires forall u :: 1 <= u < |s.threads| ==> r.threads[u] == s.threads[u]
    requires r.runs == s.runs && r.jobs == s.jobs && r.epoch == s.epoch && r.returned == s.returned
    ensures History(r) && Signalled(r)
  {
    hide Fields, Census, Locks, Locals, Tiles, RunWith, Complete, Owned;
    if s.epoch > 0 {
      SameRunsOwned(s, r);
    }
  }

  lemma StoreKeepsHistory(s: State, r: State)
    requires Inv(s) && IsStoring(s.threads[0].pc) && |s.jobs| > 0 && r == StoreStep(s)
    requires Shape(r) && Phases(r) && Fields(r)
    ensures History(r) && Signalled(r)
  {
    hide Shape, Phases, Fields, Census, Locks, Locals, History, Signalled;
    StoringKeepsHistory(s, r);
  }

  lemma StoreKeeps(s: State)
    requires Inv(s) && IsStoring(s.threads[0].pc)
    ensures |s.jobs| > 0 && Inv(StoreStep(s))
  {
    hide Census, Locks, Locals, History, Signalled, Fields, StoreStep;
    var r := StoreStep(s);
    hide Shape, Phases;
    StoreKeepsShape(s, r);
    StoreKeepsFields(s, r);
    PublisherCensus(s, r);
    StoreKeepsLocks(s, r);
    StoreKeepsLocals(s, r);
    StoreKeepsHistory(s, r);
  }

  lemma AnnounceKeepsShape(s: State, r: State)
    requires Inv(s) && IsAnnouncing(s.threads[0].pc) && |s.jobs| > 0 && r == AnnounceStep(s)
    ensures Shape(r) && Phases(r) && Fields(r)
  {
    hide Census, Locks, Locals, History, Signalled, IsActive, IsParked, HoldsWake, HoldsDone;
  }

  lemma AnnounceKeepsLocks(s: State, r: State)
    requires Inv(s) && IsAnnouncing(s.threads[0].pc) && |s.jobs| > 0 && r == AnnounceStep(s)
    requires Shape(r)
    ensures Locks(r)
  {
    hide Phases, Fields, Census, Locals, History, Signalled;
  }

  /** When the epoch goes out nobody drains, and nobody is on the way to sleep. */
  lemma EpochLocal(s: State, r: State, u: nat)
    requires Shape(s) && Locks(s) && 1 <= u < |s.threads| && Local(s, u)
    requires s.threads[0].pc.PEpoch? && |s.jobs| > 0 && r == AnnounceStep(s) && r.epoch == s.epoch + 1
    ensures Local(r, u)
  {
    hide Shape, HasEpoch, DrainLocals, HoldsDone, Flagged, IsWaiting;
    assert HoldsWake(s.threads[0].pc) <==> s.wakeOwner == 0;
    assert HoldsWake(s.threads[u].pc) <==> s.wakeOwner == u;
  }

  lemma AnnounceKeepsOwnLocal(s: State, r: State)
    requires Inv(s) && IsAnnouncing(s.threads[0].pc) && |s.jobs| > 0 && r == AnnounceStep(s)
    ensures Local(r, 0)
    ensures s.threads[0].pc.PEpoch? ==> r.epoch == s.epoch + 1
    ensures !s.threads[0].pc.PEpoch? ==> r.epoch == s.epoch && (Storing(r.threads[0].pc) ==> Storing(s.threads[0].pc))
  {
    hide Fields, Census, Locks, History, Signalled, IsWorkerPc;
    assert Local(s, 0);
  }

  lemma AnnounceKeepsLocals(s: State, r: State)
    requires Inv(s) && IsAnnouncing(s.threads[0].pc) && |s.jobs| > 0 && r == AnnounceStep(s)
    ensures Locals(r)
  {
    AnnounceKeepsOwnLocal(s, r);
    hide Shape, Phases, Fields, Census, Locks, History, Signalled, AnnounceStep, Local, Storing, IsPassed;
    forall u: nat | u < |s.threads| ensures Local(r, u) {
      if u > 0 {
        if s.threads[0].pc.PEpoch? {
          EpochLocal(s, r, u);
        } else {
          OtherLocal(s, r, u);
        }
      }
    }
  }

  lemma NobodyBusy(s: State, u: nat)
    requires Inv(s) && Storing(s.threads[0].pc) && u < |s.threads|
    ensures !IsBusy(s.threads[u].pc)
  {
    hide Fields, Census, Locks, History, Signalled, DrainLocals;
    assert Local(s, u);
  }

  lemma NoRuns(ts: seq<Thread>, j: Job)
    requires forall u :: 0 <= u < |ts| ==> !IsBusy(ts[u].pc)
    ensures Tiles([], 0) && CountedSum([]) == 0 && RunWith([], j) && Owned(ts, [])
  {
  }

  lemma EpochKeepsHistory(s: State, r: State)
    requires Inv(s) && s.threads[0].pc.PEpoch? && |s.jobs| > 0 && r == AnnounceStep(s)
    requires Shape(r) && Phases(r) && Fields(r)
    ensures History(r) && Signalled(r)
  {
    hide Census, Locks, Locals, Complete, Tiles, CountedSum, RunWith, Owned, IsWorkerPc, IsPublisherPc;
    forall u: nat | u < |s.threads| ensures !IsBusy(s.threads[u].pc) {
      NobodyBusy(s, u);
    }
    assert r.runs[r.epoch - 1] == [];
    NoRuns(r.threads, r.jobs[r.epoch - 1]);
  }

  lemma LockSameRuns(s: State, r: State)
    requires Inv(s) && (s.threads[0].pc.PLock? || s.threads[0].pc.PUnlock?) && |s.jobs| > 0 && r == AnnounceStep(s)
    ensures r.epoch == s.epoch && (s.epoch > 0 ==> SameRuns(s, r))
  {
    hide Fields, Signalled, Census, Locks, Locals, History, IsWorkerPc, IsPublisherPc;
  }

  lemma AnnounceKeepsHistory(s: State, r: State)
    requires Inv(s) && IsAnnouncing(s.threads[0].pc) && |s.jobs| > 0 && r == AnnounceStep(s)
    requires Shape(r) && Phases(r) && Fields(r)
    ensures History(r) && Signalled(r)
  {
    hide Phases, Fields, Census, Locks, Locals, History, SameRuns, IsWorkerPc, IsPublisherPc;
    if s.threads[0].pc.PEpoch? {
      EpochKeepsHistory(s, r);
    } else {
      LockSameRuns(s, r);
      HistoryStays(s, r);
    }
  }

  lemma AnnounceKeeps(s: State)
    requires Inv(s) && IsAnnouncing(s.threads[0].pc)
    ensures |s.jobs| > 0 && Inv(AnnounceStep(s))
  {
    hide Census, Locks, Locals, History, Signalled, Fields, AnnounceStep;
    var r := AnnounceStep(s);
    hide Shape, Phases;
    AnnounceKeepsShape(s, r);
    PublisherCensus(s, r);
    AnnounceKeepsLocks(s, r);
    AnnounceKeepsLocals(s, r);
    AnnounceKeepsHistory(s, r);
  }

  lemma CastKeepsShape(s: State, r: State)
    requires Inv(s) && s.threads[0].pc.PCast? && |s.jobs| > 0 && r == CastStep(s)
    ensures Shape(r) && Phases(r) && Fields(r)
  {
    hide Census, Locks, Locals, History, Signalled, HoldsWake, HoldsDone;
  }

  lemma CastKeepsCensus(s: State, r: State)
    requires Inv(s) && s.threads[0].pc.PCast? && |s.jobs| > 0 && r == CastStep(s)
    requires Shape(r)
    ensures Census(r)
  {
    hide Phases, Fields, Locks, Locals, History, Signalled, HoldsWake, HoldsDone;
    assert Members(r.threads, IsActive) == Members(s.threads, IsActive);
    assert Members(r.threads, IsParked) == Members(s.threads, IsParked);
  }

  lemma CastKeepsLocks(s: State, r: State)
    requires Inv(s) && s.threads[0].pc.PCast? && |s.jobs| > 0 && r == CastStep(s)
    requires Shape(r)
    ensures Locks(r)
  {
    hide Phases, Fields, Census, Locals, History, Signalled, IsWorkerPc, IsPublisherPc;
    forall u: nat | 1 <= u < |s.threads|
      ensures HoldsWake(r.threads[u].pc) == HoldsWake(s.threads[u].pc)
      ensures HoldsDone(r.threads[u].pc) == HoldsDone(s.threads[u].pc)
    {
      hide CastStep;
      CastMoves(s, r, u);
    }
    hide HoldsWake, HoldsDone;
    CastPoint();
  }

  lemma CastPoint()
    ensures HoldsWake(PCast) && HoldsWake(PUnlock) && !HoldsDone(PCast) && !HoldsDone(PUnlock)
  {
  }

  lemma CastMoves(s: State, r: State, u: nat)
    requires 1 <= u < |s.threads| && r == CastStep(s)
    ensures r.threads[u] == s.threads[u] || (s.threads[u].pc.Asleep? && r.threads[u] == s.threads[u].(pc := Woken))
    ensures s.threads[u].pc.Asleep? && s.parked > 0 ==> r.threads[u].pc.Woken?
    ensures r.threads[0] == s.threads[0].(pc := PUnlock) && r.epoch == s.epoch
  {
  }

  lemma CastKeepsLocals(s: State, r: State)
    requires Inv(s) && s.threads[0].pc.PCast? && |s.jobs| > 0 && r == CastStep(s)
    ensures Locals(r)
  {
    hide Shape, Phases, Fields, Locks, History, Signalled, DrainLocals, IsParked;
    forall u: nat | u < |s.threads| ensures Local(r, u) {
      assert Local(s, u);
      if u > 0 {
        hide CastStep;
        CastMoves(s, r, u);
        if s.threads[u].pc.Asleep? {
          SleeperIsCounted(s, u);
        } else {
          OtherLocal(s, r, u);
        }
      }
    }
  }

  lemma SleeperIsCounted(s: State, u: nat)
    requires Shape(s) && Census(s) && 1 <= u < |s.threads| && s.threads[u].pc.Asleep?
    ensures s.parked > 0
  {
    if s.parked <= 0 {
      NobodyIn(s.threads, IsParked, u);
    }
  }

  lemma CastSameRuns(s: State, r: State)
    requires Inv(s) && s.threads[0].pc.PCast? && |s.jobs| > 0 && r == CastStep(s) && s.epoch > 0
    ensures SameRuns(s, r)
  {
    hide Fields, Signalled, Census, Locks, Locals, History, IsWorkerPc;
    forall u | 1 <= u < |s.threads| && (IsBusy(s.threads[u].pc) || IsBusy(r.threads[u].pc))
      ensures r.threads[u] == s.threads[u]
    {
      hide CastStep;
      CastMoves(s, r, u);
    }
  }

  lemma CastKeepsHistory(s: State, r: State)
    requires Inv(s) && s.threads[0].pc.PCast? && |s.jobs| > 0 && r == CastStep(s)
    requires Shape(r) && Phases(r) && Fields(r)
    ensures History(r) && Signalled(r)
  {
    hide Shape, Phases, Fields, Census, Locks, Locals, History, SameRuns;
    if s.epoch > 0 {
      CastSameRuns(s, r);
    }
    HistoryStays(s, r);
  }

  lemma CastKeeps(s: State)
    requires Inv(s) && s.threads[0].pc.PCast?
    ensures |s.jobs| > 0 && Inv(CastStep(s))
  {
    hide Census, Locks, Locals, History, Signalled, Fields, CastStep;
    var r := CastStep(s);
    hide Shape, Phases;
    CastKeepsShape(s, r);
    CastKeepsCensus(s, r);
    CastKeepsLocks(s, r);
    CastKeepsLocals(s, r);
    CastKeepsHistory(s, r);
  }

  lemma FinishKeepsShape(s: State, c: Choice, r: State)
    requires Inv(s) && IsWaiting(s.threads[0].pc) && |s.jobs| > 0 && r == FinishStep(s, c)
    ensures Shape(r)
  {
    FinishMoves(s, c, r);
    WaitingPoint(r.threads[0].pc);
    hide Phases, Fields, Census, Locks, Locals, History, Signalled, FinishStep, IsWorkerPc, IsPublisherPc, IsWaiting;
  }

  lemma FinishKeepsPhases(s: State, c: Choice, r: State)
    requires Inv(s) && IsWaiting(s.threads[0].pc) && |s.jobs| > 0 && r == FinishStep(s, c) && Shape(r)
    ensures Phases(r)
  {
    FinishMoves(s, c, r);
    WaitingPoint(s.threads[0].pc);
    WaitingPoint(r.threads[0].pc);
    hide Shape, Fields, Census, Locks, Locals, History, Signalled, FinishStep, Unpublished, IsWaiting, DrainRank;
  }

  lemma FinishKeepsFields(s: State, c: Choice, r: State)
    requires Inv(s) && IsWaiting(s.threads[0].pc) && |s.jobs| > 0 && r == FinishStep(s, c)
    requires Shape(r) && Phases(r)
    ensures Fields(r)
  {
    hide Census, Locks, Locals, History, Signalled, IsActive, IsParked, HoldsWake, HoldsDone;
  }

  lemma FinishKeepsLocks(s: State, c: Choice, r: State)
    requires Inv(s) && IsWaiting(s.threads[0].pc) && |s.jobs| > 0 && r == FinishStep(s, c)
    requires Shape(r)
    ensures Locks(r)
  {
    FinishMoves(s, c, r);
    WaitingPoint(s.threads[0].pc);
    WaitingPoint(r.threads[0].pc);
    assert s.doneWaiting == Flagged(s.threads[0].pc);
    hide Inv, Shape, Locks, FinishStep, HoldsWake;
    assert Shape(s) && Locks(s) by {
      hide Phases, Fields, Census, Locals, History, Signalled;
    }
    FinishHandover(s, c, r);
    PublisherLocks(s, r);
  }

  lemma FinishKeepsOwnLocal(s: State, c: Choice, r: State)
    requires Inv(s) && IsWaiting(s.threads[0].pc) && |s.jobs| > 0 && r == FinishStep(s, c)
    ensures Local(r, 0) && (r.threads[0].pc.Idle? || IsWaiting(r.threads[0].pc))
  {
    hide Phases, Fields, Census, Locks, History, Signalled, DrainLocals;
    assert Local(s, 0);
  }

  lemma FinishKeepsLocals(s: State, c: Choice, r: State)
    requires Inv(s) && IsWaiting(s.threads[0].pc) && |s.jobs| > 0 && r == FinishStep(s, c)
    ensures Locals(r)
  {
    FinishKeepsOwnLocal(s, c, r);
    WaitingPoint(s.threads[0].pc);
    WaitingPoint(r.threads[0].pc);
    hide Phases, Fields, Census, Locks, History, Signalled, FinishStep, Local, Storing, IsPassed, IsWaiting;
    forall u: nat | u < |s.threads| ensures Local(r, u) {
      if u > 0 {
        OtherLocal(s, r, u);
      }
    }
  }

  lemma WaitingPoint(pc: Pc)
    requires IsWaiting(pc) || pc.Idle?
    ensures !Storing(pc) && !pc.PCast? && !Unpublished(pc) && IsPublisherPc(pc) && !HoldsWake(pc)
    ensures DrainRank(pc) < 0 && (IsWaiting(pc) ==> !pc.Idle? && !pc.PGate?)
  {
  }

  /** What a turn of the waiting publisher does, locks aside. */
  lemma FinishMoves(s: State, c: Choice, r: State)
    requires |s.threads| > 0 && IsWaiting(s.threads[0].pc) && |s.jobs| > 0 && r == FinishStep(s, c)
    ensures IsWaiting(r.threads[0].pc) || (s.threads[0].pc.PReturn? && r.threads[0].pc.Idle?)
    ensures r.threads[0] == s.threads[0].(pc := r.threads[0].pc)
    ensures r == s.(threads := r.threads, doneWaiting := r.doneWaiting, doneOwner := r.doneOwner,
                    pubGate := if s.threads[0].pc.PReturn? then 0 else s.pubGate,
                    returned := if s.threads[0].pc.PReturn? then s.returned + 1 else s.returned)
  {
  }

  lemma FinishHandover(s: State, c: Choice, r: State)
    requires |s.threads| > 0 && IsWaiting(s.threads[0].pc) && |s.jobs| > 0 && r == FinishStep(s, c)
    requires s.doneWaiting == Flagged(s.threads[0].pc)
    ensures var pc, pc' := s.threads[0].pc, r.threads[0].pc;
      Handover(s.doneOwner, r.doneOwner, 0, HoldsDone(pc), HoldsDone(pc')) && r.doneWaiting == Flagged(pc')
  {
  }

  lemma ExecutedBound(s: State)
    requires Inv(s) && IsWaiting(s.threads[0].pc)
    ensures 0 < s.epoch == |s.jobs| && s.returned == s.epoch - 1
    ensures s.executed <= s.jobs[s.epoch - 1].end
    ensures s.executed == s.jobs[s.epoch - 1].end ==> Complete(s.runs[s.epoch - 1], s.jobs[s.epoch - 1])
  {
    hide Census, Locks, Locals, Signalled, Tiles, RunWith;
    CountedSumBound(s.runs[s.epoch - 1], s.cur);
  }

  lemma FinishSameRuns(s: State, c: Choice, r: State)
    requires Inv(s) && IsWaiting(s.threads[0].pc) && |s.jobs| > 0 && r == FinishStep(s, c)
    ensures 0 < s.epoch == r.epoch && SameRuns(s, r)
  {
    hide Fields, Signalled, Census, Locks, Locals, History, IsWorkerPc, FinishStep;
    FinishMoves(s, c, r);
  }

  /** The publisher goes on only with the count it has seen full. */
  lemma FinishSees(s: State, c: Choice, r: State)
    requires |s.threads| > 0 && IsWaiting(s.threads[0].pc) && |s.jobs| > 0 && r == FinishStep(s, c)
    ensures var pc, pc' := s.threads[0].pc, r.threads[0].pc;
      pc'.PDUnlock? || pc'.PUnflag? || pc'.PReturn? ==>
        pc.PDUnlock? || pc.PUnflag? || pc.PReturn? || s.executed >= s.jobs[|s.jobs| - 1].end
  {
  }

  lemma ReturnKeepsHistory(s: State, c: Choice, r: State)
    requires Inv(s) && s.threads[0].pc.PReturn? && |s.jobs| > 0 && r == FinishStep(s, c)
    requires Shape(r) && Phases(r) && Fields(r)
    ensures History(r)
  {
    hide Fields, Signalled, Census, Locks, Locals, Tiles, RunWith, Complete, Owned, CountedSum, IsWorkerPc, SameRuns;
    ExecutedBound(s);
    FinishSameRuns(s, c, r);
    SameRunsOwned(s, r);
  }

  lemma FinishKeepsHistory(s: State, c: Choice, r: State)
    requires Inv(s) && IsWaiting(s.threads[0].pc) && |s.jobs| > 0 && r == FinishStep(s, c)
    requires Shape(r) && Phases(r) && Fields(r)
    ensures History(r)
  {
    if s.threads[0].pc.PReturn? {
      hide Inv, Shape, Phases, Fields;
      ReturnKeepsHistory(s, c, r);
    } else {
      ExecutedBound(s);
      FinishSameRuns(s, c, r);
      FinishMoves(s, c, r);
      FinishSees(s, c, r);
      WaitingPoint(r.threads[0].pc);
      WaitingPoint(s.threads[0].pc);
      hide Shape, Phases, Fields, Signalled, Census, Locks, Locals, Complete, SameRuns, FinishStep, Unpublished,
           Storing;
      HistoryStays(s, r);
    }
  }

  lemma FinishKeepsSignalled(s: State, c: Choice, r: State)
    requires Inv(s) && IsWaiting(s.threads[0].pc) && |s.jobs| > 0 && r == FinishStep(s, c)
    requires Shape(r) && Phases(r)
    ensures Signalled(r)
  {
    hide Census, Locks, Locals, Fields, Complete, Owned, Tiles, RunWith, CountedSum;
    ExecutedBound(s);
  }

  lemma FinishKeeps(s: State, c: Choice)
    requires Inv(s) && IsWaiting(s.threads[0].pc)
    ensures |s.jobs| > 0 && Inv(FinishStep(s, c))
  {
    hide Census, Locks, Locals, History, Signalled, Fields, FinishStep;
    var r := FinishStep(s, c);
    hide Shape, Phases;
    FinishKeepsShape(s, c, r);
    FinishKeepsPhases(s, c, r);
    FinishKeepsFields(s, c, r);
    PublisherCensus(s, r);
    FinishKeepsLocks(s, c, r);
    FinishKeepsLocals(s, c, r);
    FinishKeepsHistory(s, c, r);
    FinishKeepsSignalled(s, c, r);
  }
}
