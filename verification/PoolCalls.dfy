/** The calls of a schedule, and that their jobs, and nobody else's, are what the pool runs. */
module PoolCalls {
  import opened PoolModel
  import opened PoolInvariant
  import opened PoolSteps
  import opened PoolTheorems

  function AtLeastOne(k: int): (r: nat)
    ensures r >= 1
  {
    if k < 1 then 1 else k
  }

  /** A call with work for two threads: twice the items one thread should have, and a second thread. */
  predicate WorthSharing(n: nat, c: Choice) {
    c.Start? && c.fn > 0 && n >= 2 && c.nItems >= 2 * AtLeastOne(c.minItems)
  }

  /** The publisher takes up a call: it is idle, and the call is worth sharing. */
  predicate TakesUp(s: State, x: Turn) {
    x.t == 0 && |s.threads| > 0 && s.threads[0].pc.Idle? && WorthSharing(|s.threads|, x.c)
  }

  /** The calls taken up, in order. */
  function Calls(s: State, turns: seq<Turn>): (cs: seq<Choice>)
    ensures forall k :: 0 <= k < |cs| ==> cs[k].Start? && cs[k].nItems > 0
  {
    if turns == [] then []
    else
      var front, last := turns[..|turns| - 1], turns[|turns| - 1];
      Calls(s, front) + if TakesUp(Execute(s, front), last) then [last.c] else []
  }

  /**
   The job of a call among `n` threads: all its items, its function and context, no more threads than have enough
   items, and chunks of which each of these threads gets at least 32, unless a chunk is a single item.
   */
  predicate IsJobOf(j: Job, c: Choice, n: nat)
    requires c.Start?
  {
    var per, users := AtLeastOne(c.minItems), j.nWorkers + 1;
    && j.end == c.nItems && j.fn == c.fn && j.ctx == c.ctx
    && 2 <= users <= n && users * per <= c.nItems && (users == n || (users + 1) * per > c.nItems)
    && j.chunk >= 1 && (j.chunk == 1 || j.chunk * (32 * users) <= c.nItems) && (j.chunk + 1) * (32 * users) > c.nItems
  }

  lemma Quotient(a: nat, d: nat)
    requires d > 0
    ensures a / d * d <= a < (a / d + 1) * d
  {
  }

  lemma AtLeast(q: nat, k: nat, d: nat)
    requires q >= k
    ensures q * d >= k * d
  {
  }

  lemma UsableIs(n: nat, c: Choice)
    requires n > 0 && c.Start? && c.nItems > 0
    ensures Usable(n, c.nItems, c.minItems) > 1 <==> n >= 2 && c.nItems >= 2 * AtLeastOne(c.minItems)
    ensures var per, u := AtLeastOne(c.minItems), Usable(n, c.nItems, c.minItems);
      u > 1 ==> u <= n && u * per <= c.nItems && (u == n || (u + 1) * per > c.nItems)
  {
    var per := AtLeastOne(c.minItems);
    var q := c.nItems / per;
    Quotient(c.nItems, per);
    if q >= 2 {
      AtLeast(q, 2, per);
    } else {
      AtLeast(1, q, per);
    }
    if q > n {
      AtLeast(q, n, per);
    }
  }

  lemma JobFits(n: nat, c: Choice)
    requires n > 0 && WorthSharing(n, c)
    ensures Usable(n, c.nItems, c.minItems) > 1
    ensures IsJobOf(JobOf(Usable(n, c.nItems, c.minItems), c.nItems, c.fn, c.ctx), c, n)
  {
    UsableIs(n, c);
    hide Usable;
    var u := Usable(n, c.nItems, c.minItems);
    Quotient(c.nItems, u * MIN_CHUNKS_PER_THREAD);
  }

  /** A turn adds a job exactly when it takes up a call, and then that call's job. */
  lemma TurnJobs(s: State, x: Turn)
    requires |s.threads| > 0
    ensures var jobs := Act(s, x.t, x.c).jobs;
      if TakesUp(s, x) then
        |jobs| == |s.jobs| + 1 && jobs[..|s.jobs|] == s.jobs && IsJobOf(jobs[|s.jobs|], x.c, |s.threads|)
      else jobs == s.jobs
  {
    hide Apply, DrainStep, StoreStep, AnnounceStep, CastStep, FinishStep, JobOf, Usable, IsJobOf;
    if x.c.Start? && x.c.nItems > 0 {
      UsableIs(|s.threads|, x.c);
      if WorthSharing(|s.threads|, x.c) {
        JobFits(|s.threads|, x.c);
      }
    }
  }

  /** The jobs are those of the calls taken up, one for one and in order. */
  lemma {:induction false} JobsAreCalls(n: nat, turns: seq<Turn>)
    requires n > 0
    ensures var s, calls := Execute(Init(n), turns), Calls(Init(n), turns);
      |s.threads| == n && |s.jobs| == |calls| && forall j :: 0 <= j < |calls| ==> IsJobOf(s.jobs[j], calls[j], n)
    decreases |turns|
  {
    hide Act, IsJobOf, TakesUp, Inv;
    InitInv(n);
    ExecuteKeeps(Init(n), turns);
    if turns != [] {
      var front, last := turns[..|turns| - 1], turns[|turns| - 1];
      JobsAreCalls(n, front);
      TurnJobs(Execute(Init(n), front), last);
    }
  }

  /**
   However a pool of `n` threads was scheduled: of every call that has returned, each item was run exactly once, with
   the call's function and context, and nothing else was run for it.
   */
  lemma ExactlyOnce(n: nat, turns: seq<Turn>, j: nat)
    requires n > 0 && j < Execute(Init(n), turns).returned
    ensures var s, calls := Execute(Init(n), turns), Calls(Init(n), turns);
      && j < |calls| == |s.runs|
      && (forall i :: 0 <= i < calls[j].nItems ==> RanOnce(s.runs[j], calls[j].fn, calls[j].ctx, i))
      && (forall k :: 0 <= k < |s.runs[j]| ==> 0 <= s.runs[j][k].begin < s.runs[j][k].end <= calls[j].nItems)
  {
    var s, calls := Execute(Init(n), turns), Calls(Init(n), turns);
    JobsAreCalls(n, turns);
    assert Reachable(n, s);
    hide Execute, Reachable, Calls, RanOnce, IsJobOf;
    ReturnedWithin(n, s, j);
    EndsAt(s.jobs[j], calls[j], n);
    forall i | 0 <= i < calls[j].nItems ensures RanOnce(s.runs[j], calls[j].fn, calls[j].ctx, i) {
      JobRanOnce(n, s, j, i);
    }
  }

  lemma EndsAt(job: Job, c: Choice, n: nat)
    requires c.Start? && IsJobOf(job, c, n)
    ensures job.end == c.nItems && job.fn == c.fn && job.ctx == c.ctx
  {
  }

  lemma ReturnedWithin(n: nat, s: State, j: nat)
    requires Reachable(n, s) && j < s.returned
    ensures j < |s.jobs| == |s.runs|
    ensures forall k :: 0 <= k < |s.runs[j]| ==> s.runs[j][k].begin < s.runs[j][k].end <= s.jobs[j].end
  {
    ReachableInv(n, s);
    JobRanOnce(n, s, j, 0);
    hide Reachable, Phases, Fields, Census, Locks, Locals, Signalled;
    forall k | 0 <= k < |s.runs[j]| ensures s.runs[j][k].begin < s.runs[j][k].end <= s.jobs[j].end {
      if k < |s.runs[j]| - 1 {
        TilesOrdered(s.runs[j], s.jobs[j].end, k, |s.runs[j]| - 1);
      }
    }
  }
}
