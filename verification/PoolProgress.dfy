/** From every reachable state the job in progress can still return, without spurious wake-ups. */
module PoolProgress {
  import opened PoolModel
  import opened PoolInvariant
  import opened PoolKeep
  import opened PoolRuns
  import opened PoolPublish
  import opened PoolSteps

  // ---------------------------------------------------------------- the measure

  /** How far the publisher is from returning, the draining and waiting stretch counting as one. */
  function Stage(pc: Pc): nat {
    match pc
    case Idle => 0
    case PReturn => 1 case PUnflag => 2 case PDUnlock => 3
    case PUnlock => 5 case PCast => 6 case PEpoch => 7 case PLock => 8 case PJobEpoch => 9 case PWorkers => 10
    case PCursor => 11 case PExecuted => 12 case PCtx => 13 case PFn => 14 case PChunk => 15 case PEnd => 16
    case PRetire => 17 case PGate => 18
    case _ => 4
  }

  /** Items not yet claimed plus items not yet counted. */
  function Open(s: State): nat {
    if s.cur + s.executed <= 2 * s.jobEnd then 2 * s.jobEnd - s.cur - s.executed else 0
  }

  /**
   How far a thread is from standing still, claims and counts aside. A worker that has not seen the newest epoch still
   has a whole round before it.
   */
  function Rank(th: Thread, cur: nat, epoch: nat): nat {
    var again := if th.last != epoch then 100 else 0;
    var next := if th.e != epoch then 100 else 0;
    match th.pc
    case Spin => 22 + again
    case ParkLock => 21 + again case ParkCount => 20 + again case Woken => 20 + again case ParkCheck => 19 + again
    case ParkWait => 18 + again case Asleep => 17 + again
    case Unpark => 63 + next case ParkUnlock => 62 + next case Enter => 61 + next
    case Gate => 60 + again case JobEpoch => 59 + again case Workers => 58 + again
    case DEpoch => 57 + again case DFn => 56 + again case DCtx => 55 + again case DEnd => 54 + again
    case DMin => 53 + again case DActive => 52 + again
    case DSnap => 30 + again case DCas => (if th.snap == cur then 29 else 51) + again
    case DRun => 28 + again case DAdd => 27 + again
    case DSignal => 50 + again case DSignalLock => 49 + again case DSignalCast => 48 + again
    case DSignalUnlock => 38 + again
    case Leave => 23 + again
    case PWait => 10 case PFlag => 9 case PDLock => 8 case PDWoken => 8 case PDCheck => 7 case PDWait => 6
    case PDAsleep => 5
    case _ => 0
  }

  function Ranks(ts: seq<Thread>, cur: nat, epoch: nat): nat {
    if ts == [] then 0 else Ranks(ts[..|ts| - 1], cur, epoch) + Rank(ts[|ts| - 1], cur, epoch)
  }

  lemma {:induction false} RanksMove(ts: seq<Thread>, cur: nat, epoch: nat, t: nat, th: Thread)
    requires t < |ts|
    ensures Ranks(ts[t := th], cur, epoch) == Ranks(ts, cur, epoch) - Rank(ts[t], cur, epoch) + Rank(th, cur, epoch)
  {
    hide Rank;
    var n := |ts| - 1;
    if t == n {
      assert ts[t := th][..n] == ts[..n];
    } else {
      assert ts[t := th][..n] == ts[..n][t := th];
      RanksMove(ts[..n], cur, epoch, t, th);
    }
  }

  /** Lexicographic descent of stage, open items and ranks. */
  predicate Descends(s: State, s': State)
    requires |s.threads| > 0 && |s'.threads| > 0
  {
    var a, a' := Stage(s.threads[0].pc), Stage(s'.threads[0].pc);
    || a' < a
    || (a' == a && Open(s') < Open(s))
    || (a' == a && Open(s') == Open(s) && Ranks(s'.threads, s'.cur, s'.epoch) < Ranks(s.threads, s.cur, s.epoch))
  }

  // ---------------------------------------------------------------- threads that can move

  /** A quiet move to a lower rank is a descent. */
  lemma QuietDescends(s: State, t: nat, m: Move)
    requires t < |s.threads|
    requires Rank(m.th, s.cur, s.epoch) < Rank(s.threads[t], s.cur, s.epoch)
    requires t == 0 ==> Stage(m.th.pc) == Stage(s.threads[0].pc)
    ensures Descends(s, Apply(s, t, m))
  {
    hide Rank, Stage;
    RanksMove(s.threads, s.cur, s.epoch, t, m.th);
  }

  predicate CanMove(s: State, t: nat)
    requires t < |s.threads|
  {
    var pc := s.threads[t].pc;
    || (t > 0 && (pc.ParkCount? || pc.ParkCheck? || pc.ParkWait? || pc.Unpark? || pc.ParkUnlock?))
    || (t > 0 && IsActive(pc) && (pc.DSignalLock? ==> s.doneOwner == FREE))
    || (t == 0 && IsDrain(pc) && (pc.DSignalLock? ==> s.doneOwner == FREE))
  }

  function WorkerMove(s: State, t: nat): Move
    requires t < |s.threads|
  {
    if IsParking(s.threads[t].pc) then ParkMove(s, t, Go) else EnterMove(s, t)
  }

  /** A worker waiting for, entering or leaving an epoch stays where it is or comes nearer to standing still. */
  lemma WorkerRank(s: State, t: nat)
    requires t < |s.threads|
    ensures var m := WorkerMove(s, t);
      m == Stay(s, t) || Rank(m.th, s.cur, s.epoch) < Rank(s.threads[t], s.cur, s.epoch)
  {
  }

  lemma StaySame(s: State, t: nat)
    requires t < |s.threads|
    ensures Apply(s, t, Stay(s, t)) == s
  {
    assert s.threads[t := s.threads[t]] == s.threads;
  }

  lemma WorkerTurn(s: State, t: nat)
    requires 1 <= t < |s.threads| && !IsDrain(s.threads[t].pc)
    ensures Act(s, t, Go) == s || Descends(s, Act(s, t, Go))
    ensures Act(s, t, Go) == Apply(s, t, WorkerMove(s, t))
  {
    WorkerRank(s, t);
    hide Descends, Rank, ParkMove, EnterMove;
    assert Act(s, t, Go) == Apply(s, t, WorkerMove(s, t));
    hide Apply, Stay;
    if WorkerMove(s, t) == Stay(s, t) {
      StaySame(s, t);
    } else {
      QuietDescends(s, t, WorkerMove(s, t));
    }
  }

  lemma WorkerDescends(s: State, t: nat)
    requires 1 <= t < |s.threads| && CanMove(s, t) && !IsDrain(s.threads[t].pc)
    ensures Descends(s, Act(s, t, Go))
  {
    WorkerTurn(s, t);
    hide Descends, Act;
    assert WorkerMove(s, t).th.pc != s.threads[t].pc;
  }

  lemma LoadDescends(s: State, t: nat)
    requires Inv(s) && t < |s.threads| && IsLoading(s.threads[t].pc)
    ensures Descends(s, DrainStep(s, t, Go))
  {
    hide Inv, Apply, Descends;
    QuietDescends(s, t, LoadMove(s, t));
  }

  lemma CursorBound(s: State)
    requires Inv(s) && !Storing(s.threads[0].pc)
    ensures s.executed <= s.cur <= s.jobEnd
  {
    hide Census, Locks, Locals, Signalled, Tiles, CountedSum;
    if s.epoch > 0 {
      CountedSumBound(s.runs[s.epoch - 1], s.cur);
    }
  }

  lemma RetryDescends(s: State, t: nat)
    requires t < |s.threads| && s.threads[t].pc.DCas? && LosesRace(s, s.threads[t], Go)
    requires s.curTag == s.threads[t].e && 0 < s.threads[t].e <= |s.runs|
    ensures Descends(s, Apply(s, t, RetryMove(s, t)))
  {
    hide Descends;
    QuietDescends(s, t, RetryMove(s, t));
  }

  lemma ClaimOpens(s: State, t: nat)
    requires t < |s.threads| && s.threads[t].pc.DCas? && 0 < s.threads[t].e <= |s.runs|
    requires s.cur < s.threads[t].next && s.executed <= s.cur <= s.jobEnd && s.threads[t].next <= s.jobEnd
    ensures Stage(Claim(s, t).threads[0].pc) == Stage(s.threads[0].pc) && Open(Claim(s, t)) < Open(s)
  {
    hide Ranks;
  }

  lemma ClaimDescends(s: State, t: nat)
    requires Inv(s) && t < |s.threads| && s.threads[t].pc.DCas?
    ensures Descends(s, DrainStep(s, t, Go))
  {
    DrainerFacts(s, t);
    CursorBound(s);
    JobIsOut(s);
    hide Inv, Descends, Apply, Claim, RetryMove, Stage, Open;
    if LosesRace(s, s.threads[t], Go) {
      RetryDescends(s, t);
    } else {
      ClaimOpens(s, t);
      DescendsByOpen(s, Claim(s, t));
    }
  }

  lemma JobIsOut(s: State)
    requires Inv(s) && s.epoch > 0 && !Storing(s.threads[0].pc)
    ensures s.epoch <= |s.jobs| == |s.runs| && s.jobEnd == s.jobs[s.epoch - 1].end
  {
    hide Census, Locks, Locals, History, Signalled;
  }

  lemma DescendsByOpen(s: State, s': State)
    requires |s.threads| > 0 && |s'.threads| > 0
    requires Stage(s'.threads[0].pc) == Stage(s.threads[0].pc) && Open(s') < Open(s)
    ensures Descends(s, s')
  {
  }

  lemma PerformDescends(s: State, t: nat)
    requires t < |s.threads| && s.threads[t].pc.DRun?
    ensures Descends(s, Perform(s, t))
  {
    RanksMove(s.threads, s.cur, s.epoch, t, s.threads[t].(pc := DAdd));
  }

  lemma AccountDescends(s: State, t: nat)
    requires Inv(s) && t < |s.threads| && s.threads[t].pc.DAdd?
    ensures s.threads[t].snap < s.threads[t].next && Descends(s, Account(s, t))
  {
    BusyFacts(s, t);
    DrainerFacts(s, t);
    CursorBound(s);
    hide Inv, Descends;
    DescendsByOpen(s, Account(s, t));
  }

  lemma RunDescends(s: State, t: nat)
    requires Inv(s) && t < |s.threads| && IsBusy(s.threads[t].pc)
    ensures Descends(s, DrainStep(s, t, Go))
  {
    hide Inv, Descends, Perform, Account;
    if s.threads[t].pc.DRun? {
      PerformDescends(s, t);
    } else {
      AccountDescends(s, t);
    }
  }

  /** The publisher woken by a broadcast has less to go again than the thread that made it has gone. */
  lemma BroadcastRanks(s: State, t: nat)
    requires t < |s.threads| && s.threads[t].pc.DSignalCast? && s.threads[0].pc.PDAsleep?
    ensures var w := WakePublisher(s);
      && w == To(s, 0, w.threads[0]) && Stage(w.threads[0].pc) == Stage(s.threads[0].pc)
      && Rank(w.threads[0], s.cur, s.epoch) == Rank(s.threads[0], s.cur, s.epoch) + 3
      && t != 0 && w.threads[t] == s.threads[t]
      && SignalMove(w, t) == Stay(w, t).(th := SignalMove(w, t).th)
      && Rank(SignalMove(w, t).th, s.cur, s.epoch) + 10 == Rank(s.threads[t], s.cur, s.epoch)
  {
    hide Ranks;
  }

  lemma BroadcastDescends(s: State, t: nat)
    requires t < |s.threads| && s.threads[t].pc.DSignalCast? && s.threads[0].pc.PDAsleep?
    ensures Descends(s, DrainStep(s, t, Go))
  {
    var w := WakePublisher(s);
    assert DrainStep(s, t, Go) == Apply(w, t, SignalMove(w, t));
    BroadcastRanks(s, t);
    hide Ranks, Rank, Stage, SignalMove, WakePublisher, DrainStep;
    RanksMove(s.threads, s.cur, s.epoch, 0, w.threads[0]);
    RanksMove(w.threads, s.cur, s.epoch, t, SignalMove(w, t).th);
  }

  lemma SignalDescends(s: State, t: nat)
    requires Inv(s) && t < |s.threads| && IsSignalling(s.threads[t].pc) && CanMove(s, t)
    ensures Descends(s, DrainStep(s, t, Go))
  {
    hide Inv, Ranks, Descends;
    if s.threads[t].pc.DSignalCast? && s.threads[0].pc.PDAsleep? {
      BroadcastDescends(s, t);
    } else {
      QuietDescends(s, t, SignalMove(s, t));
    }
  }

  lemma MoveDescends(s: State, t: nat)
    requires Inv(s) && t < |s.threads| && CanMove(s, t)
    ensures Descends(s, Act(s, t, Go))
  {
    hide Descends, DrainStep, Phases, Fields, Census, Locks, Locals, History, Signalled, Apply;
    var pc := s.threads[t].pc;
    if !IsDrain(pc) {
      WorkerDescends(s, t);
    } else if IsLoading(pc) {
      LoadDescends(s, t);
    } else if pc.DCas? {
      ClaimDescends(s, t);
    } else if IsBusy(pc) {
      RunDescends(s, t);
    } else {
      SignalDescends(s, t);
    }
  }

  // ---------------------------------------------------------------- somebody can always move

  lemma UncountedRun(rs: seq<Run>, upto: nat) returns (k: nat)
    requires Tiles(rs, upto) && CountedSum(rs) < upto
    ensures k < |rs| && !rs[k].phase.Counted?
  {
    k := 0;
    while k < |rs| && rs[k].phase.Counted?
      invariant 0 <= k <= |rs| && forall i :: 0 <= i < k ==> rs[i].phase.Counted?
    {
      k := k + 1;
    }
    if k == |rs| {
      AllCounted(rs, upto);
    }
  }

  lemma {:induction false} AllCounted(rs: seq<Run>, upto: nat)
    requires Tiles(rs, upto) && forall k :: 0 <= k < |rs| ==> rs[k].phase.Counted?
    ensures CountedSum(rs) == upto
  {
    if rs != [] {
      var front := rs[..|rs| - 1];
      if front != [] {
        assert rs[|rs| - 2].end == rs[|rs| - 1].begin;
      }
      AllCounted(front, rs[|rs| - 1].begin);
    }
  }

  /** While items are missing, a worker is on its way to counting some. */
  lemma BusyWorker(s: State) returns (t: nat)
    requires Inv(s) && IsWaiting(s.threads[0].pc) && s.executed < s.jobs[s.epoch - 1].end
    ensures 1 <= t < |s.threads| && IsBusy(s.threads[t].pc)
  {
    hide Census, Locks, Locals, Signalled, Tiles, CountedSum;
    var rs := s.runs[s.epoch - 1];
    var k := UncountedRun(rs, s.cur);
    t := rs[k].tid;
    assert IsBusy(s.threads[t].pc);
  }

  lemma ActiveWorker(s: State) returns (t: nat)
    requires Inv(s) && s.active != 0
    ensures 1 <= t < |s.threads| && IsActive(s.threads[t].pc)
  {
    hide Shape, Phases, Fields, Locks, Locals, History, Signalled, IsActive;
    assert Members(s.threads, IsActive) != {};
    t :| t in Members(s.threads, IsActive);
  }

  /** Whoever holds the done lock can go on. */
  lemma DoneOwnerHolds(s: State)
    requires Inv(s) && s.doneOwner != FREE
    ensures 0 <= s.doneOwner < |s.threads| && HoldsDone(s.threads[s.doneOwner].pc)
  {
    hide Shape, Phases, Fields, Census, Locals, History, Signalled, HoldsDone, HoldsWake, Flagged;
  }

  lemma HoldingPoint(s: State, t: nat)
    requires t < |s.threads| && HoldsDone(s.threads[t].pc)
    requires if t == 0 then IsPublisherPc(s.threads[t].pc) else IsWorkerPc(s.threads[t].pc)
    ensures IsDrain(s.threads[t].pc) ==> CanMove(s, t)
    ensures !IsDrain(s.threads[t].pc) ==>
      && t == 0
      && (s.threads[0].pc.PDCheck? || s.threads[0].pc.PDWait? || s.threads[0].pc.PDUnlock?)
  {
  }

  /** Whoever holds the done lock can go on. */
  lemma DoneOwnerDescends(s: State) returns (t: nat)
    requires Inv(s) && s.doneOwner != FREE
    ensures t < |s.threads| && Descends(s, Act(s, t, Go))
  {
    DoneOwnerHolds(s);
    t := s.doneOwner;
    hide Phases, Fields, Census, Locks, Locals, History, Signalled, Descends, Act, CanMove, HoldsDone, IsWorkerPc,
         IsPublisherPc;
    HoldingPoint(s, t);
    if IsDrain(s.threads[t].pc) {
      MoveDescends(s, t);
    } else {
      PublisherDescends(s);
    }
  }

  lemma DescendsByStage(s: State, s': State)
    requires |s.threads| > 0 && |s'.threads| > 0
    requires Stage(s'.threads[0].pc) < Stage(s.threads[0].pc)
    ensures Descends(s, s')
  {
  }

  lemma DescendsByRank(s: State, s': State)
    requires |s.threads| > 0 && |s'.threads| == |s.threads| && s'.threads == s.threads[0 := s'.threads[0]]
    requires Stage(s'.threads[0].pc) == Stage(s.threads[0].pc)
    requires s'.cur == s.cur && s'.executed == s.executed && s'.jobEnd == s.jobEnd && s'.epoch == s.epoch
    requires Rank(s'.threads[0], s.cur, s.epoch) < Rank(s.threads[0], s.cur, s.epoch)
    ensures Descends(s, s')
  {
    hide Stage, Rank;
    RanksMove(s.threads, s.cur, s.epoch, 0, s'.threads[0]);
  }

  lemma StoringDescends(s: State)
    requires |s.threads| > 0 && |s.jobs| > 0 && IsStoring(s.threads[0].pc)
    ensures Descends(s, StoreStep(s))
  {
    hide Descends;
    DescendsByStage(s, StoreStep(s));
  }

  lemma AnnouncingDescends(s: State)
    requires |s.threads| > 0 && |s.jobs| > 0 && IsAnnouncing(s.threads[0].pc)
    requires s.threads[0].pc.PLock? ==> s.wakeOwner == FREE
    ensures Descends(s, AnnounceStep(s))
  {
    hide Descends;
    DescendsByStage(s, AnnounceStep(s));
  }

  lemma StartingDescends(s: State)
    requires |s.threads| > 0 && (s.threads[0].pc.PGate? || (s.threads[0].pc.PRetire? && s.active == 0))
    ensures Descends(s, StartStep(s, Go))
  {
    hide Descends;
    DescendsByStage(s, StartStep(s, Go));
  }

  lemma CastingDescends(s: State)
    requires |s.threads| > 0 && s.threads[0].pc.PCast?
    ensures Descends(s, CastStep(s))
  {
    hide Descends, WakeAll;
    DescendsByStage(s, CastStep(s));
  }

  lemma PublishingDescends(s: State)
    requires |s.threads| > 0 && |s.jobs| > 0 && IsPublisherPc(s.threads[0].pc) && !IsWaiting(s.threads[0].pc)
    requires var pc := s.threads[0].pc; !pc.Idle? && !IsDrain(pc)
    requires var pc := s.threads[0].pc; (pc.PRetire? ==> s.active == 0) && (pc.PLock? ==> s.wakeOwner == FREE)
    ensures Descends(s, Act(s, 0, Go))
  {
    hide Descends, StartStep, StoreStep, AnnounceStep, CastStep, FinishStep;
    var pc := s.threads[0].pc;
    if IsStarting(pc) {
      StartingDescends(s);
    } else if IsStoring(pc) {
      StoringDescends(s);
    } else if IsAnnouncing(pc) {
      AnnouncingDescends(s);
    } else {
      CastingDescends(s);
    }
  }

  /** The publisher is about to fall asleep, or about to look at the count again. */
  predicate IsSettling(s: State)
    requires |s.threads| > 0 && |s.jobs| > 0
  {
    var pc := s.threads[0].pc;
    || pc.PFlag? || pc.PDWait? || ((pc.PDLock? || pc.PDWoken?) && s.doneOwner == FREE)
    || (pc.PDCheck? && s.executed < s.jobs[|s.jobs| - 1].end)
  }

  lemma SettlingMove(s: State)
    requires |s.threads| > 0 && |s.jobs| > 0 && IsSettling(s)
    ensures var r := FinishStep(s, Go);
      r == s.(threads := s.threads[0 := r.threads[0]], doneWaiting := r.doneWaiting, doneOwner := r.doneOwner)
  {
  }

  lemma SettlingRank(s: State)
    requires |s.threads| > 0 && |s.jobs| > 0 && IsSettling(s)
    ensures var r := FinishStep(s, Go);
      && Stage(r.threads[0].pc) == Stage(s.threads[0].pc)
      && Rank(r.threads[0], s.cur, s.epoch) < Rank(s.threads[0], s.cur, s.epoch)
  {
  }

  lemma SettlingDescends(s: State)
    requires |s.threads| > 0 && |s.jobs| > 0 && IsSettling(s)
    ensures Descends(s, FinishStep(s, Go))
  {
    SettlingMove(s);
    SettlingRank(s);
    hide Descends, Ranks, Open, FinishStep, Stage, Rank, IsSettling;
    DescendsByRank(s, FinishStep(s, Go));
  }

  lemma LeavingDescends(s: State)
    requires |s.threads| > 0 && |s.jobs| > 0
    requires var pc := s.threads[0].pc;
      || pc.PDUnlock? || pc.PUnflag? || pc.PReturn?
      || ((pc.PWait? || pc.PDCheck?) && s.executed >= s.jobs[|s.jobs| - 1].end)
    ensures Descends(s, FinishStep(s, Go))
  {
    hide Descends;
    DescendsByStage(s, FinishStep(s, Go));
  }

  lemma WaitingDescends(s: State)
    requires |s.threads| > 0 && |s.jobs| > 0 && IsWaiting(s.threads[0].pc)
    requires var pc := s.threads[0].pc;
      && (pc.PWait? ==> s.executed >= s.jobs[|s.jobs| - 1].end)
      && (pc.PDLock? || pc.PDWoken? ==> s.doneOwner == FREE) && !pc.PDAsleep?
    ensures Descends(s, FinishStep(s, Go))
  {
    hide Descends, FinishStep;
    var pc := s.threads[0].pc;
    if IsSettling(s) {
      SettlingDescends(s);
    } else {
      LeavingDescends(s);
    }
  }

  lemma PublisherDescends(s: State)
    requires Inv(s)
    requires var pc := s.threads[0].pc; !pc.Idle? && !IsDrain(pc)
    requires var pc := s.threads[0].pc;
      && (pc.PRetire? ==> s.active == 0) && (pc.PLock? ==> s.wakeOwner == FREE)
      && (pc.PWait? ==> s.executed >= s.jobs[s.epoch - 1].end)
      && (pc.PDLock? || pc.PDWoken? ==> s.doneOwner == FREE) && !pc.PDAsleep?
    ensures Descends(s, Act(s, 0, Go))
  {
    hide Fields, Census, Locks, Locals, History, Signalled, Descends, FinishStep;
    if IsWaiting(s.threads[0].pc) {
      WaitingDescends(s);
    } else {
      PublishingDescends(s);
    }
  }

  lemma SomebodyDescends(s: State) returns (t: nat)
    requires Inv(s) && !s.threads[0].pc.Idle?
    ensures t < |s.threads| && Descends(s, Act(s, t, Go))
  {
    hide Census, Locals, History, Descends, Act;
    var pc := s.threads[0].pc;
    t := 0;
    if s.doneOwner != FREE {
      t := DoneOwnerDescends(s);
    } else if IsDrain(pc) {
      MoveDescends(s, 0);
    } else if pc.PRetire? && s.active != 0 {
      t := ActiveWorker(s);
      MoveDescends(s, t);
    } else if pc.PLock? && s.wakeOwner != FREE {
      t := s.wakeOwner;
      assert HoldsWake(s.threads[t].pc);
      MoveDescends(s, t);
    } else if (pc.PWait? || pc.PDAsleep?) && s.executed < s.jobs[s.epoch - 1].end {
      t := BusyWorker(s);
      MoveDescends(s, t);
    } else if pc.PDAsleep? {
      ExecutedBound(s);
      t := s.finisher;
      MoveDescends(s, t);
    } else {
      PublisherDescends(s);
    }
  }

  // ---------------------------------------------------------------- the schedule

  lemma {:induction false} ExecuteCons(s: State, x: Turn, turns: seq<Turn>)
    ensures Execute(s, [x] + turns) == Execute(Act(s, x.t, x.c), turns)
    decreases |turns|
  {
    hide Act;
    var all := [x] + turns;
    if turns == [] {
      assert all[..0] == [];
    } else {
      assert all[..|all| - 1] == [x] + turns[..|turns| - 1];
      ExecuteCons(s, x, turns[..|turns| - 1]);
    }
  }

  predicate Plain(turns: seq<Turn>) {
    forall k :: 0 <= k < |turns| ==> turns[k].c.Go?
  }

  lemma SameJobs(s: State, t: nat)
    requires Inv(s)
    ensures Act(s, t, Go).jobs == s.jobs
  {
    hide Phases, Fields, Census, Locks, Locals, History, Signalled, Apply, DrainStep, StoreStep, AnnounceStep,
         CastStep, FinishStep;
  }

  /** Scheduling without spurious wake-ups or exchange failures, the call in progress returns. */
  lemma CanFinish(s: State) returns (turns: seq<Turn>)
    requires Inv(s)
    ensures Plain(turns)
    ensures var r := Execute(s, turns); Inv(r) && r.threads[0].pc.Idle? && r.jobs == s.jobs
    decreases Stage(s.threads[0].pc), Open(s), Ranks(s.threads, s.cur, s.epoch)
  {
    hide Phases, Fields, Census, Locks, Locals, History, Signalled, Act, Stage, Open, Ranks;
    turns := [];
    if !s.threads[0].pc.Idle? {
      var t := SomebodyDescends(s);
      ActKeeps(s, t, Go);
      SameJobs(s, t);
      var rest := CanFinish(Act(s, t, Go));
      turns := [Turn(t, Go)] + rest;
      ExecuteCons(s, Turn(t, Go), rest);
    }
  }
}
