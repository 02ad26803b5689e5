/**
 Every schedule that keeps giving turns to all threads lets every call return, unless conditions wake, or weak exchanges
 fail, for no reason over and over again. When threads give up spinning is left to the schedule.
 */
module PoolFairness {
  import opened PoolModel
  import opened PoolInvariant
  import opened PoolKeep
  import opened PoolRuns
  import opened PoolPublish
  import opened PoolSteps
  import opened PoolProgress
  import opened PoolTheorems

  // ---------------------------------------------------------------- one turn

  lemma SignalTurn(s: State, t: nat)
    requires t < |s.threads| && s.threads[t].pc.DSignalLock? && s.doneOwner != FREE
    ensures DrainStep(s, t, Go) == s
  {
    StaySame(s, t);
  }

  lemma PublisherTurn(s: State)
    requires Inv(s) && !IsDrain(s.threads[0].pc) && !s.threads[0].pc.Idle?
    ensures Act(s, 0, Go) == s || Descends(s, Act(s, 0, Go))
  {
    hide Census, Locks, Locals, History, Signalled, Fields, Descends, WakeAll;
    var pc := s.threads[0].pc;
    if (pc.PRetire? ==> s.active == 0) && (pc.PLock? ==> s.wakeOwner == FREE)
       && (pc.PWait? ==> s.executed >= s.jobs[s.epoch - 1].end)
       && (pc.PDLock? || pc.PDWoken? ==> s.doneOwner == FREE) && !pc.PDAsleep? {
      hide Act, StartStep, StoreStep, AnnounceStep, CastStep, FinishStep;
      PublisherDescends(s);
    }
  }

  /** While a call is in progress, a turn leaves everything as it is or lowers the measure, whoever takes it. */
  lemma TurnDescends(s: State, t: nat)
    requires Inv(s) && !s.threads[0].pc.Idle?
    ensures Act(s, t, Go) == s || Descends(s, Act(s, t, Go))
  {
    if t < |s.threads| {
      hide Phases, Fields, Census, Locks, Locals, History, Signalled, Descends, DrainStep, Apply;
      var pc := s.threads[t].pc;
      if !IsDrain(pc) {
        if t == 0 {
          PublisherTurn(s);
        } else {
          WorkerTurn(s, t);
        }
      } else if pc.DSignalLock? && s.doneOwner != FREE {
        SignalTurn(s, t);
      } else {
        MoveDescends(s, t);
      }
    }
  }

  /** A condition wakes a thread, or an exchange fails, without a reason. */
  predicate Spurious(s: State, t: nat, c: Choice) {
    c.Alt? && t < |s.threads| && var pc := s.threads[t].pc; pc.Asleep? || pc.PDAsleep? || pc.DCas?
  }

  predicate GivesUp(s: State, t: nat, c: Choice) {
    c.Alt? && t < |s.threads| && var pc := s.threads[t].pc; (t > 0 && pc.Spin?) || (t == 0 && pc.PWait?)
  }

  /** A turn without a spurious event, on which nobody gives up spinning, is the plain one. */
  lemma PlainTurn(s: State, t: nat, c: Choice)
    requires |s.threads| > 0 && !s.threads[0].pc.Idle? && !Spurious(s, t, c) && !GivesUp(s, t, c)
    ensures Act(s, t, c) == Act(s, t, Go)
  {
    hide Apply, Claim, Perform, Account, StoreStep, AnnounceStep, CastStep, LoadMove, SignalMove, EnterMove,
         WakePublisher;
  }

  lemma WorkerGivesUp(s: State, t: nat)
    requires 1 <= t < |s.threads| && s.threads[t].pc.Spin?
    ensures Descends(s, Act(s, t, Alt))
  {
    hide Apply, Descends;
    QuietDescends(s, t, ParkMove(s, t, Alt));
  }

  lemma PublisherGivesUp(s: State)
    requires |s.threads| > 0 && |s.jobs| > 0 && s.threads[0].pc.PWait?
    ensures Descends(s, Act(s, 0, Alt))
  {
    hide Descends, Ranks, Open;
    var r := FinishStep(s, Alt);
    if s.executed >= s.jobs[|s.jobs| - 1].end {
      DescendsByStage(s, r);
    } else {
      assert r.threads == s.threads[0 := r.threads[0]];
      DescendsByRank(s, r);
    }
  }

  lemma JobThere(s: State, t: nat, c: Choice)
    requires Inv(s) && GivesUp(s, t, c)
    ensures t == 0 ==> |s.jobs| > 0
  {
  }

  /** While a call is in progress, a turn without a spurious event changes nothing or lowers the measure. */
  lemma AnyTurnDescends(s: State, t: nat, c: Choice)
    requires Inv(s) && !s.threads[0].pc.Idle? && !Spurious(s, t, c)
    ensures Act(s, t, c) == s || Descends(s, Act(s, t, c))
  {
    hide Phases, Fields, Census, Locks, Locals, History, Signalled, Descends, Act;
    if !GivesUp(s, t, c) {
      PlainTurn(s, t, c);
      TurnDescends(s, t);
    } else {
      JobThere(s, t, c);
      GivingUpMoves(s, t);
    }
  }

  // ---------------------------------------------------------------- schedules

  /** The state after the first `n` turns. */
  function After(s: State, sched: nat -> Turn, n: nat): State {
    if n == 0 then s else Act(After(s, sched, n - 1), sched(n - 1).t, sched(n - 1).c)
  }

  /** Thread `t` has a turn at `k` or later. */
  ghost predicate HasTurn(sched: nat -> Turn, t: nat, k: nat) {
    exists m: nat :: m >= k && sched(m).t == t
  }

  /** Every one of the `n` threads gets a turn again and again. */
  ghost predicate Fair(sched: nat -> Turn, n: nat) {
    forall t: nat, k: nat :: t < n ==> HasTurn(sched, t, k)
  }

  /** From turn `k` on no condition wakes and no exchange fails without a reason. */
  ghost predicate PlainFrom(s: State, sched: nat -> Turn, k: nat) {
    forall m: nat :: m >= k ==> !Spurious(After(s, sched, m), sched(m).t, sched(m).c)
  }

  lemma {:induction false} AfterKeeps(s: State, sched: nat -> Turn, n: nat)
    requires Inv(s)
    ensures var r := After(s, sched, n); Inv(r) && |r.threads| == |s.threads| && |r.jobs| >= |s.jobs|
    decreases n
  {
    hide Inv, Act;
    if n > 0 {
      AfterKeeps(s, sched, n - 1);
      ActKeeps(After(s, sched, n - 1), sched(n - 1).t, sched(n - 1).c);
      MoreJobs(After(s, sched, n - 1), sched(n - 1).t, sched(n - 1).c);
    }
  }

  lemma MoreJobs(s: State, t: nat, c: Choice)
    requires Inv(s)
    ensures |Act(s, t, c).jobs| >= |s.jobs|
  {
    hide Phases, Fields, Census, Locks, Locals, History, Signalled, Apply, DrainStep, StartStep, StoreStep,
         AnnounceStep, CastStep, FinishStep;
  }

  /** The first turn from `n` on that changes the state, or turn `m`. */
  lemma FirstChange(s: State, sched: nat -> Turn, n: nat, m: nat) returns (k: nat)
    requires n <= m
    ensures n <= k <= m && After(s, sched, k) == After(s, sched, n)
    ensures k == m || After(s, sched, k + 1) != After(s, sched, n)
  {
    hide Act;
    k := n;
    while k < m && After(s, sched, k + 1) == After(s, sched, n)
      invariant n <= k <= m && After(s, sched, k) == After(s, sched, n)
    {
      k := k + 1;
    }
  }

  /** Some turn of `t` or of another thread takes the state `here` further down. */
  lemma TurnOf(here: State, x: Turn, t: nat)
    requires Inv(here) && |here.threads| > 0 && !here.threads[0].pc.Idle? && !Spurious(here, x.t, x.c)
    requires x.t == t || Act(here, x.t, x.c) != here
    requires t < |here.threads| && Descends(here, Act(here, t, Go))
    ensures |Act(here, x.t, x.c).threads| > 0 && Descends(here, Act(here, x.t, x.c))
  {
    hide Inv, Act, Descends;
    AnyTurnDescends(here, x.t, x.c);
    ActKeeps(here, x.t, x.c);
    if GivesUp(here, x.t, x.c) {
      JobThere(here, x.t, x.c);
      GivingUpMoves(here, x.t);
    } else {
      PlainTurn(here, x.t, x.c);
      Irreflexive(here);
    }
  }

  lemma Irreflexive(s: State)
    requires |s.threads| > 0
    ensures !Descends(s, s)
  {
  }

  lemma GivingUpMoves(s: State, t: nat)
    requires |s.threads| > 0 && GivesUp(s, t, Alt) && (t == 0 ==> |s.jobs| > 0)
    ensures Descends(s, Act(s, t, Alt))
  {
    hide Descends, Act;
    if t == 0 {
      PublisherGivesUp(s);
    } else {
      WorkerGivesUp(s, t);
    }
  }

  /** Some turn from `n` on lowers the measure, and none before it changes the state. */
  lemma NextDescent(s: State, sched: nat -> Turn, n: nat, here: State) returns (k: nat)
    requires Fair(sched, |here.threads|) && PlainFrom(s, sched, n) && here == After(s, sched, n)
    requires Inv(here) && |here.threads| > 0 && !here.threads[0].pc.Idle?
    ensures k >= n && After(s, sched, k) == here
    ensures |After(s, sched, k + 1).threads| > 0 && Descends(here, After(s, sched, k + 1))
  {
    hide Inv, Act, Descends, After;
    var t := SomebodyDescends(here);
    assert HasTurn(sched, t, n);
    var m: nat :| m >= n && sched(m).t == t;
    k := FirstChange(s, sched, n, m);
    AfterNext(s, sched, k);
    TurnOf(here, sched(k), t);
  }

  lemma AfterNext(s: State, sched: nat -> Turn, k: nat)
    ensures After(s, sched, k + 1) == Act(After(s, sched, k), sched(k).t, sched(k).c)
  {
    hide Act;
  }

  lemma IdleReturned(s: State)
    requires Inv(s) && s.threads[0].pc.Idle?
    ensures s.returned == |s.jobs|
  {
  }

  /** From turn `n` on, the call in progress returns. */
  lemma Settles(s: State, sched: nat -> Turn, n: nat, here: State) returns (m: nat)
    requires Inv(s) && Fair(sched, |s.threads|) && PlainFrom(s, sched, n)
    requires here == After(s, sched, n) && |here.threads| == |s.threads| > 0
    ensures m >= n && After(s, sched, m).returned == |After(s, sched, m).jobs|
    decreases Stage(here.threads[0].pc), Open(here), Ranks(here.threads, here.cur, here.epoch)
  {
    hide Inv, Act, Stage, Open, Ranks, After, Fair;
    AfterKeeps(s, sched, n);
    m := n;
    if here.threads[0].pc.Idle? {
      IdleReturned(here);
    } else {
      var k := NextDescent(s, sched, n, here);
      AfterKeeps(s, sched, k + 1);
      m := Settles(s, sched, k + 1, After(s, sched, k + 1));
    }
  }

  /** However turns are dealt out, as long as it is fair, every call taken on returns. */
  lemma FairSchedulesReturn(n: nat, s: State, sched: nat -> Turn, k: nat) returns (m: nat)
    requires Reachable(n, s) && Fair(sched, |s.threads|) && PlainFrom(s, sched, k)
    ensures m >= k && After(s, sched, m).returned >= |s.jobs|
  {
    hide Reachable, Inv, After, Fair;
    ReachableInv(n, s);
    AfterKeeps(s, sched, k);
    ThreadsThere(s);
    m := Settles(s, sched, k, After(s, sched, k));
    AfterKeeps(s, sched, m);
  }

  lemma ThreadsThere(s: State)
    requires Inv(s)
    ensures |s.threads| > 0
  {
  }
}
