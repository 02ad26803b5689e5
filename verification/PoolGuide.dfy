/** How a job is shared out: among which threads, and in chunks that shrink with what is left. */
module PoolGuide {
  import opened PoolModel
  import opened PoolInvariant
  import opened PoolKeep
  import opened PoolRuns
  import opened PoolSteps
  import opened PoolTheorems

  /** The items to take with `left` to go: one thread's part of a quarter of them, but no less than a chunk. */
  function Share(left: nat, j: Job): nat {
    var part := left / (4 * (j.nWorkers + 1));
    if part < j.chunk then j.chunk else part
  }

  /** The run was made by one of the job's threads, and is its share of what was left, or all of that. */
  predicate Guided(r: Run, j: Job) {
    && r.tid <= j.nWorkers && r.begin < r.end <= j.end
    && (|| r.end - r.begin == Share(j.end - r.begin, j)
        || (r.end == j.end && r.end - r.begin <= Share(j.end - r.begin, j)))
  }

  ghost predicate RunsGuided(s: State) {
    forall j: nat, k: nat :: j < |s.runs| && j < |s.jobs| && k < |s.runs[j]| ==> Guided(s.runs[j][k], s.jobs[j])
  }

  /** A thread about to exchange the cursor has worked out the next one. */
  predicate Planned(th: Thread) {
    th.pc.DCas? ==>
      && th.snap < th.end && th.min > 0 && th.active > 0 && th.next == NextCursor(th.snap, th.end, th.min, th.active)
  }

  /** Only threads the job has room for drain it. */
  predicate Invited(th: Thread, u: nat, nWorkers: nat) {
    IsDrain(th.pc) ==> u <= nWorkers
  }

  ghost predicate AllPlanned(s: State) {
    forall u: nat :: u < |s.threads| ==> Planned(s.threads[u]) && Invited(s.threads[u], u, s.nWorkers)
  }

  // ---------------------------------------------------------------- one thread

  lemma LoadPlans(s: State, t: nat)
    requires t < |s.threads| && IsLoading(s.threads[t].pc)
    ensures Planned(LoadMove(s, t).th)
  {
    hide NextCursor;
  }

  lemma SignalPlans(s: State, t: nat)
    requires t < |s.threads| && !s.threads[t].pc.DCas?
    ensures Planned(SignalMove(s, t).th)
  {
    hide NextCursor;
  }

  lemma WorkerPlans(s: State, t: nat, c: Choice)
    requires t < |s.threads| && !IsDrain(s.threads[t].pc)
    ensures var th := (if IsParking(s.threads[t].pc) then ParkMove(s, t, c) else EnterMove(s, t)).th;
      Planned(th) && Invited(th, t, s.nWorkers)
  {
    hide NextCursor;
  }

  /** Whatever a turn of `t` does to a thread, it leaves it planned, and invites nobody. */
  lemma DrainTurn(s: State, t: nat, c: Choice, u: nat)
    requires t < |s.threads| && u < |s.threads| && IsDrain(s.threads[t].pc)
    requires Planned(s.threads[u]) && Invited(s.threads[u], u, s.nWorkers)
    ensures var r := DrainStep(s, t, c);
      r.nWorkers == s.nWorkers && Planned(r.threads[u]) && Invited(r.threads[u], u, r.nWorkers)
  {
    hide NextCursor, LoadMove, SignalMove;
    if IsLoading(s.threads[t].pc) {
      LoadPlans(s, t);
    } else if !s.threads[t].pc.DCas? {
      SignalPlans(s, t);
      SignalPlans(WakePublisher(s), t);
    }
  }

  lemma StartPc(s: State, c: Choice)
    requires |s.threads| > 0 && !s.threads[0].pc.DCas?
    ensures !StartStep(s, c).threads[0].pc.DCas?
  {
    hide JobOf, Usable;
  }

  lemma StorePc(s: State)
    requires |s.threads| > 0 && |s.jobs| > 0 && !s.threads[0].pc.DCas?
    ensures !StoreStep(s).threads[0].pc.DCas?
  {
  }

  lemma AnnouncePc(s: State)
    requires |s.threads| > 0 && |s.jobs| > 0 && !s.threads[0].pc.DCas?
    ensures !AnnounceStep(s).threads[0].pc.DCas? && !CastStep(s).threads[0].pc.DCas?
  {
    hide WakeAll;
  }

  lemma FinishPc(s: State, c: Choice)
    requires |s.threads| > 0 && |s.jobs| > 0 && !s.threads[0].pc.DCas?
    ensures !FinishStep(s, c).threads[0].pc.DCas?
  {
  }

  /** The publisher's other turns do not lead to the exchange. */
  lemma PublisherPc(s: State, c: Choice)
    requires |s.threads| > 0 && !IsDrain(s.threads[0].pc)
    ensures !Act(s, 0, c).threads[0].pc.DCas?
  {
    StartPc(s, c);
    if |s.jobs| > 0 {
      StorePc(s);
      AnnouncePc(s);
      FinishPc(s, c);
    }
    hide StartStep, StoreStep, AnnounceStep, CastStep, FinishStep;
  }

  /** They move no worker, but for waking it. */
  lemma PublisherOthers(s: State, c: Choice, u: nat)
    requires 1 <= u < |s.threads| && !IsDrain(s.threads[0].pc)
    ensures var th, th' := s.threads[u], Act(s, 0, c).threads[u];
      th' == th || (th.pc.Asleep? && th' == th.(pc := Woken))
  {
    hide StartStep, StoreStep, AnnounceStep, FinishStep;
  }

  lemma PublisherTurn(s: State, c: Choice, u: nat)
    requires u < |s.threads| && !IsDrain(s.threads[0].pc)
    requires Planned(s.threads[u]) && (u > 0 ==> Invited(s.threads[u], u, Act(s, 0, c).nWorkers))
    ensures var r := Act(s, 0, c); Planned(r.threads[u]) && Invited(r.threads[u], u, r.nWorkers)
  {
    hide NextCursor, Act;
    if u == 0 {
      PublisherPc(s, c);
    } else {
      PublisherOthers(s, c, u);
    }
  }

  /** While the publisher stores, nobody drains. */
  lemma NobodyDrains(s: State, u: nat)
    requires Inv(s) && IsStoring(s.threads[0].pc) && 1 <= u < |s.threads|
    ensures !IsDrain(s.threads[u].pc)
  {
    hide Fields, Census, Locks, History, Signalled, DrainLocals;
    assert Local(s, u);
  }

  lemma WorkersStored(s: State, c: Choice)
    requires |s.threads| > 0 && !IsDrain(s.threads[0].pc) && !IsStoring(s.threads[0].pc)
    ensures Act(s, 0, c).nWorkers == s.nWorkers
  {
    hide JobOf, Usable;
  }

  lemma TurnKeepsPlans(s: State, t: nat, c: Choice)
    requires Inv(s) && AllPlanned(s)
    ensures AllPlanned(Act(s, t, c))
  {
    hide NextCursor, Planned, Invited, DrainStep, Phases, Fields, Census, Locks, Locals, History, Signalled;
    if t < |s.threads| {
      ActKeeps(s, t, c);
      forall u: nat | u < |s.threads|
        ensures Planned(Act(s, t, c).threads[u]) && Invited(Act(s, t, c).threads[u], u, Act(s, t, c).nWorkers)
      {
        if IsDrain(s.threads[t].pc) {
          DrainTurn(s, t, c, u);
        } else if t > 0 {
          WorkerPlans(s, t, c);
        } else {
          PublisherKeepsPlan(s, c, u);
        }
      }
    }
  }

  lemma PublisherKeepsPlan(s: State, c: Choice, u: nat)
    requires Inv(s) && !IsDrain(s.threads[0].pc) && u < |s.threads|
    requires Planned(s.threads[u]) && Invited(s.threads[u], u, s.nWorkers)
    ensures var r := Act(s, 0, c); Planned(r.threads[u]) && Invited(r.threads[u], u, r.nWorkers)
  {
    hide NextCursor, Planned, Phases, Fields, Census, Locks, Locals, History, Signalled, Act;
    if IsStoring(s.threads[0].pc) {
      if u > 0 {
        NobodyDrains(s, u);
      }
    } else {
      WorkersStored(s, c);
    }
    PublisherTurn(s, c, u);
  }

  // ---------------------------------------------------------------- the runs

  lemma ClaimGuided(s: State, t: nat)
    requires Inv(s) && AllPlanned(s) && CanClaim(s, t)
    ensures 0 < s.epoch <= |s.jobs| && s.threads[t].e == s.epoch
    ensures var th := s.threads[t];
      Guided(Run(th.snap, th.next, t, th.fn, th.ctx, Claimed), s.jobs[s.epoch - 1])
  {
    ClaimFacts(s, t);
    assert s.nWorkers == s.jobs[s.epoch - 1].nWorkers by {
      hide Census, Locks, Locals, History, Signalled;
    }
    hide Inv;
    assert Planned(s.threads[t]) && Invited(s.threads[t], t, s.nWorkers);
  }

  lemma ClaimKeepsGuided(s: State, t: nat)
    requires Inv(s) && AllPlanned(s) && RunsGuided(s) && CanClaim(s, t)
    ensures RunsGuided(Claim(s, t))
  {
    ClaimGuided(s, t);
    hide Inv, AllPlanned, Guided;
  }

  lemma PhaseKeepsGuided(runs: seq<seq<Run>>, th: Thread, phase: Phase, jobs: seq<Job>)
    requires forall j: nat, k: nat :: j < |runs| && j < |jobs| && k < |runs[j]| ==> Guided(runs[j][k], jobs[j])
    ensures var rs := SetPhase(runs, th, phase);
      forall j: nat, k: nat :: j < |rs| && j < |jobs| && k < |rs[j]| ==> Guided(rs[j][k], jobs[j])
  {
    hide Share;
  }

  lemma DrainKeepsGuided(s: State, t: nat, c: Choice)
    requires Inv(s) && AllPlanned(s) && RunsGuided(s) && t < |s.threads| && IsDrain(s.threads[t].pc)
    ensures RunsGuided(DrainStep(s, t, c))
  {
    var th := s.threads[t];
    if CanClaim(s, t) && !LosesRace(s, th, c) {
      ClaimKeepsGuided(s, t);
    }
    hide Inv, AllPlanned;
    assert DrainStep(s, t, c).jobs == s.jobs;
    if IsBusy(th.pc) {
      PhaseKeepsGuided(s.runs, th, if th.pc.DRun? then Ran else Counted, s.jobs);
      BusyRuns(s, t, c);
      hide DrainStep, Guided;
    } else {
      QuietDrainRuns(s, t, c);
      hide DrainStep, Guided;
    }
  }

  lemma BusyRuns(s: State, t: nat, c: Choice)
    requires t < |s.threads| && IsBusy(s.threads[t].pc)
    ensures var r := DrainStep(s, t, c);
      r.jobs == s.jobs
      && (r.runs == s.runs || r.runs == SetPhase(s.runs, s.threads[t], if s.threads[t].pc.DRun? then Ran else Counted))
  {
    hide SetPhase, SignalMove;
  }

  lemma QuietDrainRuns(s: State, t: nat, c: Choice)
    requires t < |s.threads| && IsDrain(s.threads[t].pc) && !IsBusy(s.threads[t].pc)
    ensures var r := DrainStep(s, t, c);
      r.jobs == s.jobs
      && (r.runs == s.runs || (CanClaim(s, t) && !LosesRace(s, s.threads[t], c) && r == Claim(s, t)))
  {
    hide LoadMove, SignalMove, Claim;
  }

  /** A turn outside the drain makes no run. */
  lemma OtherTurnRuns(s: State, t: nat, c: Choice)
    requires t < |s.threads| && !IsDrain(s.threads[t].pc)
    ensures var r := Act(s, t, c); s.jobs <= r.jobs && (r.runs == s.runs || r.runs == s.runs + [[]])
  {
    hide Apply, StoreStep, AnnounceStep, CastStep, FinishStep, JobOf, Usable;
  }

  lemma MoreRuns(s: State, r: State)
    requires RunsGuided(s) && s.jobs <= r.jobs && |s.runs| <= |s.jobs| && (r.runs == s.runs || r.runs == s.runs + [[]])
    ensures RunsGuided(r)
  {
    hide Guided;
  }

  lemma TurnKeepsGuided(s: State, t: nat, c: Choice)
    requires Inv(s) && AllPlanned(s) && RunsGuided(s)
    ensures RunsGuided(Act(s, t, c))
  {
    hide Phases, Fields, Census, Locks, Locals, History, Signalled, AllPlanned, RunsGuided, DrainStep;
    if t < |s.threads| {
      if IsDrain(s.threads[t].pc) {
        DrainKeepsGuided(s, t, c);
      } else {
        hide Act;
        OtherTurnRuns(s, t, c);
        MoreRuns(s, Act(s, t, c));
      }
    }
  }

  lemma InitGuided(n: nat)
    requires n > 0
    ensures AllPlanned(Init(n)) && RunsGuided(Init(n))
  {
  }

  lemma {:induction false} ScheduleGuided(n: nat, turns: seq<Turn>)
    requires n > 0
    ensures var s := Execute(Init(n), turns); AllPlanned(s) && RunsGuided(s)
    decreases |turns|
  {
    hide Act, Inv, AllPlanned, RunsGuided, Init;
    InitInv(n);
    InitGuided(n);
    if turns != [] {
      var front, last := turns[..|turns| - 1], turns[|turns| - 1];
      ScheduleGuided(n, front);
      ExecuteKeeps(Init(n), front);
      TurnKeepsPlans(Execute(Init(n), front), last.t, last.c);
      TurnKeepsGuided(Execute(Init(n), front), last.t, last.c);
    }
  }

  /** At all times each run is one of the job's threads' share of what was left when it was claimed. */
  lemma GuidedRuns(n: nat, s: State, j: nat, k: nat)
    requires Reachable(n, s) && j < |s.jobs| && j < |s.runs| && k < |s.runs[j]|
    ensures Guided(s.runs[j][k], s.jobs[j])
  {
    hide Guided, AllPlanned, Init;
    var turns :| s == Execute(Init(n), turns);
    ScheduleGuided(n, turns);
  }
}
