/** Every turn, and so every schedule, keeps the invariant. */
module PoolSteps {
  import opened PoolModel
  import opened PoolInvariant
  import opened PoolKeep
  import opened PoolRuns
  import opened PoolPublish

  lemma DrainKeeps(s: State, t: nat, c: Choice)
    requires Inv(s) && t < |s.threads| && IsDrain(s.threads[t].pc)
    ensures Inv(DrainStep(s, t, c))
  {
    hide Phases, Fields, Census, Locks, Locals, History, Signalled, Apply, Claim, Perform, Account, LoadMove,
         SignalMove, RetryMove, Quiet, Local;
    var pc := s.threads[t].pc;
    if IsLoading(pc) {
      LoadQuiet(s, t);
      LoadLocal(s, t);
      QuietKeeps(s, t, LoadMove(s, t));
    } else if pc.DCas? {
      if LosesRace(s, s.threads[t], c) {
        RetryKeeps(s, t);
      } else {
        ClaimKeeps(s, t);
      }
    } else if pc.DRun? {
      PerformKeeps(s, t);
    } else if pc.DAdd? {
      AccountKeeps(s, t);
    } else {
      SignalKeeps(s, t, c);
    }
  }

  /** A broadcast that finds the publisher asleep is a wake-up followed by one that finds nobody. */
  lemma SignalKeeps(s: State, t: nat, c: Choice)
    requires Inv(s) && t < |s.threads| && IsSignalling(s.threads[t].pc)
    ensures Inv(DrainStep(s, t, c))
  {
    var w := if s.threads[t].pc.DSignalCast? then WakePublisher(s) else s;
    SignalStep(s, t, c, w);
    hide Inv, DrainStep;
    assert Inv(w) by {
      if w != s {
        FinishKeeps(s, Alt);
      }
    }
    hide Apply, SignalMove, Quiet, Local;
    SignalQuiet(w, t);
    SignalLocal(w, t);
    QuietKeeps(w, t, SignalMove(w, t));
  }

  lemma SignalStep(s: State, t: nat, c: Choice, w: State)
    requires Inv(s) && t < |s.threads| && IsSignalling(s.threads[t].pc)
    requires w == if s.threads[t].pc.DSignalCast? then WakePublisher(s) else s
    ensures DrainStep(s, t, c) == Apply(w, t, SignalMove(w, t))
    ensures w != s ==> s.threads[0].pc.PDAsleep? && |s.jobs| > 0 && w == FinishStep(s, Alt)
    ensures |w.threads| == |s.threads| && w.threads[t].pc == s.threads[t].pc
    ensures w.threads[t].pc.DSignalCast? ==> !w.threads[0].pc.PDAsleep?
  {
    hide Fields, Census, Locks, Locals, History, Signalled, Apply, SignalMove, IsWorkerPc;
  }

  lemma WorkerKeeps(s: State, t: nat, c: Choice)
    requires Inv(s) && 1 <= t < |s.threads| && !IsDrain(s.threads[t].pc)
    ensures Inv(Act(s, t, c))
  {
    hide Shape, Phases, Fields, Census, Locks, Locals, History, Signalled, Apply, ParkMove, EnterMove, Quiet, Local;
    if IsParking(s.threads[t].pc) {
      ParkQuiet(s, t, c);
      ParkLocal(s, t, c);
      QuietKeeps(s, t, ParkMove(s, t, c));
    } else {
      EnterQuiet(s, t);
      EnterLocal(s, t);
      QuietKeeps(s, t, EnterMove(s, t));
    }
  }

  lemma PublisherKeeps(s: State, c: Choice)
    requires Inv(s) && !IsDrain(s.threads[0].pc)
    ensures Inv(Act(s, 0, c))
  {
    hide Phases, Fields, Census, Locks, Locals, History, Signalled, StartStep, StoreStep, AnnounceStep, CastStep,
         FinishStep;
    var pc := s.threads[0].pc;
    if IsStarting(pc) {
      StartKeeps(s, c);
    } else if IsStoring(pc) {
      StoreKeeps(s);
    } else if IsAnnouncing(pc) {
      AnnounceKeeps(s);
    } else if pc.PCast? {
      CastKeeps(s);
    } else {
      FinishKeeps(s, c);
    }
  }

  /** Every turn of every thread keeps the invariant. */
  lemma ActKeeps(s: State, t: nat, c: Choice)
    requires Inv(s)
    ensures Inv(Act(s, t, c)) && |Act(s, t, c).threads| == |s.threads|
  {
    hide Phases, Fields, Census, Locks, Locals, History, Signalled, Apply, DrainStep, StartStep, StoreStep,
         AnnounceStep, CastStep, FinishStep;
    if t < |s.threads| {
      if IsDrain(s.threads[t].pc) {
        DrainKeeps(s, t, c);
      } else if t > 0 {
        WorkerKeeps(s, t, c);
      } else {
        PublisherKeeps(s, c);
      }
    }
  }

  lemma {:induction false} ExecuteKeeps(s: State, turns: seq<Turn>)
    requires Inv(s)
    ensures Inv(Execute(s, turns)) && |Execute(s, turns).threads| == |s.threads|
    decreases |turns|
  {
    hide Inv, Act;
    if turns != [] {
      var last := turns[|turns| - 1];
      ExecuteKeeps(s, turns[..|turns| - 1]);
      ActKeeps(Execute(s, turns[..|turns| - 1]), last.t, last.c);
    }
  }
}
