/** What every reachable state of the pool satisfies, group by group. */
module PoolInvariant {
  import opened PoolModel

  // ---------------------------------------------------------------- program points

  function DrainRank(pc: Pc): int {
    match pc
    case DEpoch => 0 case DFn => 1 case DCtx => 2 case DEnd => 3 case DMin => 4 case DActive => 5
    case DSnap => 6 case DCas => 7 case DRun => 8 case DAdd => 9
    case DSignal => 10 case DSignalLock => 11 case DSignalCast => 12 case DSignalUnlock => 13
    case _ => -1
  }

  /** How many of the job's fields the publisher has stored; -1 outside the unpublished stretch. */
  function StoreRank(pc: Pc): int {
    match pc
    case PEnd => 0 case PChunk => 1 case PFn => 2 case PCtx => 3 case PExecuted => 4 case PCursor => 5
    case PWorkers => 6 case PJobEpoch => 7 case PLock => 8 case PEpoch => 9
    case _ => -1
  }

  predicate Storing(pc: Pc) {
    StoreRank(pc) >= 0
  }

  /** A job has been taken on but its epoch is not out yet. */
  predicate Unpublished(pc: Pc) {
    pc.PGate? || pc.PRetire? || Storing(pc)
  }

  predicate Published(pc: Pc) {
    !pc.Idle? && !Unpublished(pc)
  }

  predicate IsWaiting(pc: Pc) {
    pc.PWait? || pc.PFlag? || pc.PDLock? || pc.PDCheck? || pc.PDWait? || pc.PDAsleep? || pc.PDWoken?
    || pc.PDUnlock? || pc.PUnflag? || pc.PReturn?
  }

  predicate Flagged(pc: Pc) {
    pc.PDLock? || pc.PDCheck? || pc.PDWait? || pc.PDAsleep? || pc.PDWoken? || pc.PDUnlock? || pc.PUnflag?
  }

  predicate IsPublisherPc(pc: Pc) {
    pc.Idle? || pc.PGate? || pc.PRetire? || Storing(pc) || pc.PCast? || pc.PUnlock? || IsWaiting(pc)
    || DrainRank(pc) >= 0
  }

  predicate IsParked(pc: Pc) {
    pc.ParkCheck? || pc.ParkWait? || pc.Asleep? || pc.Woken? || pc.Unpark?
  }

  predicate IsPassed(pc: Pc) {
    pc.JobEpoch? || pc.Workers? || DrainRank(pc) >= 0
  }

  predicate IsActive(pc: Pc) {
    pc.Gate? || pc.Leave? || IsPassed(pc)
  }

  predicate HasEpoch(pc: Pc) {
    pc.Unpark? || pc.ParkUnlock? || pc.Enter? || IsActive(pc)
  }

  predicate IsWorkerPc(pc: Pc) {
    pc.Spin? || pc.ParkLock? || pc.ParkCount? || IsParked(pc) || HasEpoch(pc)
  }

  predicate HoldsWake(pc: Pc) {
    pc.ParkCount? || pc.ParkCheck? || pc.ParkWait? || pc.Unpark? || pc.ParkUnlock?
    || pc.PEpoch? || pc.PCast? || pc.PUnlock?
  }

  predicate HoldsDone(pc: Pc) {
    pc.DSignalCast? || pc.DSignalUnlock? || pc.PDCheck? || pc.PDWait? || pc.PDUnlock?
  }

  predicate AboutToSignal(pc: Pc) {
    pc.DSignal? || pc.DSignalLock? || pc.DSignalCast?
  }

  // ---------------------------------------------------------------- runs

  /** The runs cut `[0, upto)` into consecutive non-empty chunks. */
  ghost predicate Tiles(rs: seq<Run>, upto: nat) {
    && (rs == [] ==> upto == 0)
    && (rs != [] ==> rs[0].begin == 0 && rs[|rs| - 1].end == upto)
    && (forall k :: 0 <= k < |rs| ==> rs[k].begin < rs[k].end)
    && (forall k, l :: 0 <= k < |rs| && l == k + 1 && l < |rs| ==> rs[k].end == rs[l].begin)
  }

  function Size(r: Run): int {
    r.end - r.begin
  }

  function CountedSum(rs: seq<Run>): int {
    if rs == [] then 0
    else CountedSum(rs[..|rs| - 1]) + if rs[|rs| - 1].phase.Counted? then Size(rs[|rs| - 1]) else 0
  }

  ghost predicate RunWith(rs: seq<Run>, j: Job) {
    forall k :: 0 <= k < |rs| ==> rs[k].fn == j.fn && rs[k].ctx == j.ctx
  }

  /** Everything of the job was run, with its own function and context, and counted. */
  ghost predicate Complete(rs: seq<Run>, j: Job) {
    && Tiles(rs, j.end)
    && RunWith(rs, j)
    && forall k :: 0 <= k < |rs| ==> rs[k].phase.Counted?
  }

  lemma {:induction false} CountedSumBound(rs: seq<Run>, upto: nat)
    requires Tiles(rs, upto)
    ensures 0 <= CountedSum(rs) <= upto
    ensures CountedSum(rs) == upto ==> forall k :: 0 <= k < |rs| ==> rs[k].phase.Counted?
  {
    if rs != [] {
      var front := rs[..|rs| - 1];
      var last := rs[|rs| - 1];
      if front != [] {
        assert rs[|rs| - 2].end == last.begin;
      }
      CountedSumBound(front, last.begin);
    }
  }

  lemma CountedSumClaim(rs: seq<Run>, r: Run)
    requires !r.phase.Counted?
    ensures CountedSum(rs + [r]) == CountedSum(rs)
  {
    assert (rs + [r])[..|rs|] == rs;
  }

  lemma {:induction false} CountedSumPhase(rs: seq<Run>, k: nat, phase: Phase)
    requires k < |rs| && !rs[k].phase.Counted?
    ensures CountedSum(rs[k := rs[k].(phase := phase)])
         == CountedSum(rs) + if phase.Counted? then Size(rs[k]) else 0
  {
    var n := |rs| - 1;
    var changed := rs[k := rs[k].(phase := phase)];
    if k == n {
      assert changed[..n] == rs[..n];
    } else {
      assert changed[..n] == rs[..n][k := rs[k].(phase := phase)];
      CountedSumPhase(rs[..n], k, phase);
    }
  }

  // ---------------------------------------------------------------- census

  /** The workers whose program point is in the class `p`. */
  function Members(ts: seq<Thread>, p: Pc -> bool): (m: set<nat>) {
    set u: nat | 1 <= u < |ts| && p(ts[u].pc)
  }

  lemma WithoutMember(m: set<nat>, t: nat)
    ensures |m| == |m - {t}| + if t in m then 1 else 0
  {
    if t in m {
      assert m == m - {t} + {t};
    } else {
      assert m == m - {t};
    }
  }

  lemma IsMember(ts: seq<Thread>, p: Pc -> bool, u: nat)
    ensures u in Members(ts, p) <==> 1 <= u < |ts| && p(ts[u].pc)
  {
  }

  lemma OtherMembers(ts: seq<Thread>, p: Pc -> bool, t: nat, th: Thread)
    requires 1 <= t < |ts|
    ensures Members(ts[t := th], p) - {t} == Members(ts, p) - {t}
  {
    hide Members;
    forall u: nat ensures u in Members(ts[t := th], p) - {t} <==> u in Members(ts, p) - {t} {
      IsMember(ts, p, u);
      IsMember(ts[t := th], p, u);
    }
  }

  /** A worker's move changes a head count by at most itself. */
  lemma MembersMove(ts: seq<Thread>, p: Pc -> bool, t: nat, th: Thread)
    requires 1 <= t < |ts|
    ensures |Members(ts[t := th], p)|
         == |Members(ts, p)| + (if p(th.pc) then 1 else 0) - if p(ts[t].pc) then 1 else 0
  {
    hide Members;
    WithoutMember(Members(ts, p), t);
    WithoutMember(Members(ts[t := th], p), t);
    IsMember(ts, p, t);
    IsMember(ts[t := th], p, t);
    OtherMembers(ts, p, t, th);
  }

  // ---------------------------------------------------------------- the groups

  ghost predicate Shape(s: State) {
    && |s.threads| > 0
    && |s.runs| == |s.jobs|
    && IsPublisherPc(s.threads[0].pc)
    && (forall u :: 1 <= u < |s.threads| ==> IsWorkerPc(s.threads[u].pc))
    && (forall j :: 0 <= j < |s.jobs| ==> s.jobs[j].end > 0 && s.jobs[j].chunk > 0 && s.jobs[j].fn > 0)
  }

  /** Which job is out, which is being prepared, and what the gate shows. */
  ghost predicate Phases(s: State)
    requires Shape(s)
  {
    var pc := s.threads[0].pc;
    && |s.jobs| == s.epoch + (if Unpublished(pc) then 1 else 0)
    && s.returned == s.epoch - (if Published(pc) then 1 else 0)
    && s.pubGate == if pc.Idle? || pc.PGate? then 0 else |s.jobs|
  }

  /** The shared job fields are those of the published job, except while the publisher replaces them. */
  ghost predicate Fields(s: State)
    requires Shape(s) && Phases(s)
  {
    var r := StoreRank(s.threads[0].pc);
    if r >= 0 then
      var j := s.jobs[|s.jobs| - 1];
      && (r > 0 ==> s.jobEnd == j.end) && (r > 1 ==> s.chunkSize == j.chunk)
      && (r > 2 ==> s.jobFn == j.fn) && (r > 3 ==> s.jobCtx == j.ctx)
      && (r > 4 ==> s.executed == 0) && (r > 5 ==> s.curTag == |s.jobs| && s.cur == 0)
      && (r > 6 ==> s.nWorkers == j.nWorkers) && (r > 7 ==> s.jobEpoch == |s.jobs|)
    else if s.epoch > 0 then
      var j := s.jobs[s.epoch - 1];
      && s.jobEnd == j.end && s.chunkSize == j.chunk && s.jobFn == j.fn && s.jobCtx == j.ctx
      && s.nWorkers == j.nWorkers && s.jobEpoch == s.epoch && s.curTag == s.epoch && s.cur <= j.end
    else s.jobEnd == s.cur == s.executed == 0
  }

  ghost predicate Census(s: State)
    requires Shape(s)
  {
    && s.active == |Members(s.threads, IsActive)|
    && s.parked == |Members(s.threads, IsParked)|
  }

  ghost predicate Locks(s: State)
    requires Shape(s)
  {
    && FREE <= s.wakeOwner < |s.threads|
    && FREE <= s.doneOwner < |s.threads|
    && (forall u :: 0 <= u < |s.threads| ==> (HoldsWake(s.threads[u].pc) <==> s.wakeOwner == u))
    && (forall u :: 0 <= u < |s.threads| ==> (HoldsDone(s.threads[u].pc) <==> s.doneOwner == u))
    && s.doneWaiting == Flagged(s.threads[0].pc)
  }

  /** The locals of a thread that drains job `j`. */
  predicate DrainLocals(th: Thread, j: Job) {
    var r := DrainRank(th.pc);
    && (r > 1 ==> th.fn == j.fn) && (r > 2 ==> th.ctx == j.ctx) && (r > 3 ==> th.end == j.end)
    && (r > 4 ==> th.min == j.chunk) && (r > 5 ==> th.active == j.nWorkers + 1)
    && (7 <= r <= 9 ==> th.snap < th.next <= th.end)
  }

  ghost predicate Local(s: State, u: nat)
    requires u < |s.threads|
  {
    var th := s.threads[u];
    && th.last <= s.epoch
    && (u > 0 && HasEpoch(th.pc) ==> 0 < th.e <= s.epoch)
    && (u > 0 && IsPassed(th.pc) ==> th.e == s.epoch && !Storing(s.threads[0].pc))
    && (u == 0 && (DrainRank(th.pc) >= 0 || IsWaiting(th.pc)) ==> th.e == s.epoch)
    && (DrainRank(th.pc) >= 0 ==> 0 < s.epoch <= |s.jobs| && DrainLocals(th, s.jobs[s.epoch - 1]))
    && (th.pc.ParkWait? ==> th.last == s.epoch)
    && (th.pc.Asleep? ==> th.last == s.epoch || s.threads[0].pc.PCast?)
  }

  ghost predicate Locals(s: State) {
    forall u: nat :: u < |s.threads| ==> Local(s, u)
  }

  /** The run a thread is busy with is recorded under its slot, and the other way round. */
  ghost predicate Owned(ts: seq<Thread>, rs: seq<Run>) {
    && (forall u: nat :: u < |ts| && (ts[u].pc.DRun? || ts[u].pc.DAdd?) ==>
          && ts[u].slot < |rs|
          && rs[ts[u].slot] == RunOf(u, ts[u]))
    && (forall k: nat :: k < |rs| && !rs[k].phase.Counted? ==>
          && rs[k].tid < |ts| && ts[rs[k].tid].slot == k
          && ts[rs[k].tid].pc == if rs[k].phase.Claimed? then DRun else DAdd)
  }

  function RunOf(u: nat, th: Thread): Run {
    Run(th.snap, th.next, u, th.fn, th.ctx, if th.pc.DRun? then Claimed else Ran)
  }

  ghost predicate History(s: State)
    requires Shape(s) && Phases(s) && Fields(s)
  {
    var pc := s.threads[0].pc;
    && (forall j :: 0 <= j < s.returned ==> Complete(s.runs[j], s.jobs[j]))
    && (Unpublished(pc) ==> s.runs[|s.jobs| - 1] == [])
    && (s.epoch > 0 ==> Owned(s.threads, s.runs[s.epoch - 1]))
    && (s.epoch > 0 && !Storing(pc) ==>
          && Tiles(s.runs[s.epoch - 1], s.cur)
          && RunWith(s.runs[s.epoch - 1], s.jobs[s.epoch - 1])
          && s.executed == CountedSum(s.runs[s.epoch - 1]))
    && (IsWaiting(pc) ==> s.cur == s.jobs[s.epoch - 1].end)
    && (pc.PDUnlock? || pc.PUnflag? || pc.PReturn? ==> s.executed == s.jobs[s.epoch - 1].end)
  }

  /** The publisher never sleeps through the last count. */
  ghost predicate Signalled(s: State)
    requires Shape(s) && Phases(s)
  {
    var pc := s.threads[0].pc;
    (pc.PDWait? || pc.PDAsleep?) && s.executed == s.jobs[s.epoch - 1].end ==>
      s.finisher < |s.threads| && AboutToSignal(s.threads[s.finisher].pc)
  }

  ghost predicate Inv(s: State) {
    && Shape(s) && Phases(s) && Fields(s) && Census(s) && Locks(s) && Locals(s) && History(s) && Signalled(s)
  }

  lemma InitPoints()
    ensures !IsActive(Spin) && !IsParked(Spin) && IsWorkerPc(Spin) && IsPublisherPc(Idle)
    ensures !HoldsWake(Spin) && !HoldsDone(Spin) && !HoldsWake(Idle) && !HoldsDone(Idle) && !Flagged(Idle)
    ensures DrainRank(Spin) < 0 && DrainRank(Idle) < 0 && StoreRank(Idle) < 0 && !Published(Idle) && !Unpublished(Idle)
  {
  }

  lemma InitCensus(n: nat)
    requires n > 0 && Shape(Init(n))
    ensures Census(Init(n))
  {
    InitPoints();
    hide IsActive, IsParked, Shape;
    var s := Init(n);
    assert Members(s.threads, IsActive) == {};
    assert Members(s.threads, IsParked) == {};
  }

  lemma InitInv(n: nat)
    requires n > 0
    ensures Inv(Init(n))
  {
    InitPoints();
    hide IsActive, IsParked, IsWorkerPc, IsPublisherPc, HoldsWake, HoldsDone, Flagged, DrainRank, StoreRank, Published,
         Unpublished;
    InitCensus(n);
    assert Locals(Init(n));
  }
}
