/**
 The thread pool as a state machine: one publisher (thread 0) and any number of workers take turns
 performing one atomic access, lock operation or chunk run at a time, under sequential consistency.
 Epochs are unbounded here, and the packed `epoch << 32 | cursor` word is a pair.
 */
module PoolModel {

  /** What one `tpool_parallel_for` call publishes. */
  datatype Job = Job(end: nat, chunk: nat, fn: nat, ctx: nat, nWorkers: nat)

  datatype Phase = Claimed | Ran | Counted

  /** One chunk taken from the cursor: who took it, what it was run with, and how far it got. */
  datatype Run = Run(begin: nat, end: nat, tid: nat, fn: nat, ctx: nat, phase: Phase)

  datatype Pc =
    // worker: waiting for an epoch
    | Spin | ParkLock | ParkCount | ParkCheck | ParkWait | Asleep | Woken | Unpark | ParkUnlock
    // worker: around one epoch
    | Enter | Gate | JobEpoch | Workers | Leave
    // worker or publisher: draining the job
    | DEpoch | DFn | DCtx | DEnd | DMin | DActive | DSnap | DCas | DRun | DAdd
    | DSignal | DSignalLock | DSignalCast | DSignalUnlock
    // publisher
    | Idle | PGate | PRetire
    | PEnd | PChunk | PFn | PCtx | PExecuted | PCursor | PWorkers | PJobEpoch
    | PLock | PEpoch | PCast | PUnlock
    | PWait | PFlag | PDLock | PDCheck | PDWait | PDAsleep | PDWoken | PDUnlock | PUnflag | PReturn

  /** A thread's program point and locals; `slot` is the index of the run it is busy with. */
  datatype Thread = Thread(pc: Pc, last: nat, e: nat, fn: nat, ctx: nat, end: nat, min: nat, active: nat,
                           snap: nat, next: nat, slot: nat)

  datatype State = State(
    threads: seq<Thread>,
    epoch: nat, pubGate: nat, active: int, parked: int,
    jobEnd: nat, chunkSize: nat, jobFn: nat, jobCtx: nat, nWorkers: nat, jobEpoch: nat,
    curTag: nat, cur: nat, executed: nat,
    doneWaiting: bool, wakeOwner: int, doneOwner: int,
    // history: the jobs started, the runs made for each, the number of calls that returned, and the
    // thread whose count completed the current job
    jobs: seq<Job>, runs: seq<seq<Run>>, returned: nat, finisher: nat)

  datatype Choice = Go | Alt | Start(nItems: int, minItems: int, fn: nat, ctx: nat)

  const FREE := -1

  const MIN_CHUNKS_PER_THREAD := 32
  const GUIDED_DIVISOR := 4

  /** Threads worth using for `nItems` items, between 1 and `nThreads`. */
  function Usable(nThreads: nat, nItems: nat, minItems: int): (u: nat)
    requires nThreads > 0
    ensures 1 <= u <= nThreads
  {
    var per := if minItems < 1 then 1 else minItems;
    var u := nItems / per;
    if u < 1 then 1 else if u > nThreads then nThreads else u
  }

  function JobOf(usable: nat, nItems: nat, fn: nat, ctx: nat): Job
    requires usable > 0
  {
    var chunk := nItems / (usable * MIN_CHUNKS_PER_THREAD);
    Job(nItems, if chunk < 1 then 1 else chunk, fn, ctx, usable - 1)
  }

  /** The next cursor value a draining thread tries to install. */
  function NextCursor(cur: nat, end: nat, min: nat, active: nat): (next: nat)
    requires cur < end && min > 0 && active > 0
    ensures cur < next <= end
  {
    var guided := (end - cur) / (GUIDED_DIVISOR * active);
    var next := cur + if guided < min then min else guided;
    if next > end then end else next
  }

  function InitThread(pc: Pc): Thread {
    Thread(pc, 0, 0, 0, 0, 0, 0, 0, 0, 0, 0)
  }

  function InitThreads(nThreads: nat): (ts: seq<Thread>)
    requires nThreads > 0
    ensures |ts| == nThreads
    ensures forall u :: 0 <= u < nThreads ==> ts[u] == InitThread(if u == 0 then Idle else Spin)
  {
    seq(nThreads, t => InitThread(if t == 0 then Idle else Spin))
  }

  function Init(nThreads: nat): State
    requires nThreads > 0
  {
    State(InitThreads(nThreads),
          0, 0, 0, 0, 0, 1, 0, 0, 0, 0, 0, 0, 0, false, FREE, FREE, [], [], 0, 0)
  }

  // ---------------------------------------------------------------- steps

  function To(s: State, t: nat, th: Thread): (r: State)
    requires t < |s.threads|
    ensures |r.threads| == |s.threads|
  {
    s.(threads := s.threads[t := th])
  }

  function Jump(s: State, t: nat, pc: Pc): (r: State)
    requires t < |s.threads|
    ensures |r.threads| == |s.threads|
  {
    To(s, t, s.threads[t].(pc := pc))
  }

  /** All workers asleep on `wake_cv` are woken. */
  function WakeAll(ts: seq<Thread>): (us: seq<Thread>)
    ensures |us| == |ts|
    ensures forall u :: 0 <= u < |ts| ==> us[u] == if ts[u].pc == Asleep then ts[u].(pc := Woken) else ts[u]
  {
    seq(|ts|, u requires 0 <= u < |ts| => if ts[u].pc == Asleep then ts[u].(pc := Woken) else ts[u])
  }

  /** What a turn that touches neither the job nor its runs may write. */
  datatype Move = Move(th: Thread, active: int, parked: int, wakeOwner: int, doneOwner: int)

  function Apply(s: State, t: nat, m: Move): (r: State)
    requires t < |s.threads|
    ensures |r.threads| == |s.threads|
    ensures r.jobs == s.jobs && r.runs == s.runs && r.returned == s.returned
  {
    s.(threads := s.threads[t := m.th], active := m.active, parked := m.parked, wakeOwner := m.wakeOwner,
       doneOwner := m.doneOwner)
  }

  function Stay(s: State, t: nat): Move
    requires t < |s.threads|
  {
    Move(s.threads[t], s.active, s.parked, s.wakeOwner, s.doneOwner)
  }

  /** A worker waiting for an epoch. */
  function ParkMove(s: State, t: nat, c: Choice): Move
    requires t < |s.threads|
  {
    var th := s.threads[t];
    var m := Stay(s, t);
    match th.pc
    case Spin =>
      if s.epoch != th.last then m.(th := th.(pc := Enter, e := s.epoch))
      else if c.Alt? then m.(th := th.(pc := ParkLock))
      else m
    case ParkLock => if s.wakeOwner == FREE then m.(th := th.(pc := ParkCount), wakeOwner := t) else m
    case ParkCount => m.(th := th.(pc := ParkCheck), parked := s.parked + 1)
    case ParkCheck =>
      if s.epoch != th.last then m.(th := th.(pc := Unpark, e := s.epoch)) else m.(th := th.(pc := ParkWait))
    case ParkWait => m.(th := th.(pc := Asleep), wakeOwner := FREE)
    case Asleep => if c.Alt? then m.(th := th.(pc := Woken)) else m  // spurious wake-up
    case Woken => if s.wakeOwner == FREE then m.(th := th.(pc := ParkCheck), wakeOwner := t) else m
    case Unpark => m.(th := th.(pc := ParkUnlock), parked := s.parked - 1)
    case ParkUnlock => m.(th := th.(pc := Enter), wakeOwner := FREE)
    case _ => m
  }

  /** A worker entering or leaving an epoch. */
  function EnterMove(s: State, t: nat): Move
    requires t < |s.threads|
  {
    var th := s.threads[t];
    var m := Stay(s, t);
    match th.pc
    case Enter => m.(th := th.(pc := Gate, last := th.e), active := s.active + 1)
    case Gate => m.(th := th.(pc := if s.pubGate == th.e then JobEpoch else Leave))
    case JobEpoch => m.(th := th.(pc := if s.jobEpoch == th.e then Workers else Leave))
    case Workers => m.(th := th.(pc := if t <= s.nWorkers then DEpoch else Leave))
    case Leave => m.(th := th.(pc := Spin), active := s.active - 1)
    case _ => m
  }

  function Drained(t: nat): Pc {
    if t == 0 then PWait else Leave
  }

  /** `tpool_drain_work`: loading the job and the cursor. */
  function LoadMove(s: State, t: nat): Move
    requires t < |s.threads|
  {
    var th := s.threads[t];
    var m := Stay(s, t);
    match th.pc
    case DEpoch => m.(th := th.(pc := if s.jobEpoch != th.e then Drained(t) else DFn))
    case DFn => m.(th := th.(pc := if s.jobFn == 0 then Drained(t) else DCtx, fn := s.jobFn))
    case DCtx => m.(th := th.(pc := DEnd, ctx := s.jobCtx))
    case DEnd => m.(th := th.(pc := DMin, end := s.jobEnd))
    case DMin => m.(th := th.(pc := DActive, min := s.chunkSize))
    case DActive => m.(th := th.(pc := DSnap, active := s.nWorkers + 1))
    case DSnap =>
      if s.curTag != th.e || s.cur >= th.end || th.min == 0 || th.active == 0 then m.(th := th.(pc := Drained(t)))
      else m.(th := th.(pc := DCas, snap := s.cur, next := NextCursor(s.cur, th.end, th.min, th.active)))
    case _ => m
  }

  /** The compare-and-swap on the cursor fails: the race is lost, or the weak exchange fails for no reason. */
  predicate LosesRace(s: State, th: Thread, c: Choice) {
    s.curTag != th.e || s.cur != th.snap || c.Alt? || th.e == 0 || |s.runs| < th.e
  }

  function RetryMove(s: State, t: nat): Move
    requires t < |s.threads|
  {
    Stay(s, t).(th := s.threads[t].(pc := DSnap))
  }

  /** The compare-and-swap wins: `[snap, next)` belongs to thread `t`. */
  function Claim(s: State, t: nat): (r: State)
    requires t < |s.threads| && 0 < s.threads[t].e <= |s.runs|
    ensures |r.threads| == |s.threads|
    ensures r.jobs == s.jobs && r.returned == s.returned
    ensures |r.runs| == |s.runs| && forall j :: 0 <= j < |s.runs| && j + 1 != s.threads[t].e ==> r.runs[j] == s.runs[j]
  {
    var th := s.threads[t];
    var e := th.e - 1;
    s.(threads := s.threads[t := th.(pc := DRun, slot := |s.runs[e]|)],
       cur := th.next,
       runs := s.runs[e := s.runs[e] + [Run(th.snap, th.next, t, th.fn, th.ctx, Claimed)]])
  }

  function SetPhase(runs: seq<seq<Run>>, th: Thread, phase: Phase): seq<seq<Run>> {
    if 0 < th.e <= |runs| && th.slot < |runs[th.e - 1]| then
      runs[th.e - 1 := runs[th.e - 1][th.slot := runs[th.e - 1][th.slot].(phase := phase)]]
    else runs
  }

  /** The chunk function returns. */
  function Perform(s: State, t: nat): (r: State)
    requires t < |s.threads|
    ensures |r.threads| == |s.threads|
    ensures r.jobs == s.jobs && r.returned == s.returned
    ensures |r.runs| == |s.runs| && forall j :: 0 <= j < |s.runs| && j + 1 != s.threads[t].e ==> r.runs[j] == s.runs[j]
  {
    s.(threads := s.threads[t := s.threads[t].(pc := DAdd)], runs := SetPhase(s.runs, s.threads[t], Ran))
  }

  /** The chunk is added to the executed count. */
  function Account(s: State, t: nat): (r: State)
    requires t < |s.threads| && s.threads[t].snap <= s.threads[t].next
    ensures |r.threads| == |s.threads|
    ensures r.jobs == s.jobs && r.returned == s.returned
    ensures |r.runs| == |s.runs| && forall j :: 0 <= j < |s.runs| && j + 1 != s.threads[t].e ==> r.runs[j] == s.runs[j]
  {
    var th := s.threads[t];
    var done := s.executed + (th.next - th.snap);
    s.(threads := s.threads[t := th.(pc := if done == th.end then DSignal else DSnap)],
       executed := done,
       runs := SetPhase(s.runs, th, Counted),
       finisher := if done == th.end then t else s.finisher)
  }

  /** `tpool_signal_done`. */
  function SignalMove(s: State, t: nat): Move
    requires t < |s.threads|
  {
    var th := s.threads[t];
    var m := Stay(s, t);
    match th.pc
    case DSignal => m.(th := th.(pc := if s.doneWaiting then DSignalLock else DSnap))
    case DSignalLock => if s.doneOwner == FREE then m.(th := th.(pc := DSignalCast), doneOwner := t) else m
    case DSignalCast => m.(th := th.(pc := DSignalUnlock))
    case DSignalUnlock => m.(th := th.(pc := DSnap), doneOwner := FREE)
    case _ => m
  }

  /** A broadcast on `done_cv`; only the publisher ever sleeps there. */
  function WakePublisher(s: State): (r: State)
    ensures |r.threads| == |s.threads|
    ensures r.jobs == s.jobs && r.runs == s.runs && r.returned == s.returned
  {
    if |s.threads| > 0 && s.threads[0].pc.PDAsleep? then Jump(s, 0, PDWoken) else s
  }

  predicate IsLoading(pc: Pc) {
    pc.DEpoch? || pc.DFn? || pc.DCtx? || pc.DEnd? || pc.DMin? || pc.DActive? || pc.DSnap?
  }

  /** `tpool_drain_work`. */
  function DrainStep(s: State, t: nat, c: Choice): (r: State)
    requires t < |s.threads|
    ensures |r.threads| == |s.threads|
    ensures s.threads[t].pc.DCas? || s.threads[t].pc.DRun? || s.threads[t].pc.DAdd? || r.runs == s.runs
    ensures s.threads[t].pc.DCas? && LosesRace(s, s.threads[t], c) ==> r.runs == s.runs
    ensures r.jobs == s.jobs && r.returned == s.returned
    ensures |r.runs| == |s.runs| && forall j :: 0 <= j < |s.runs| && j + 1 != s.threads[t].e ==> r.runs[j] == s.runs[j]
  {
    var th := s.threads[t];
    if IsLoading(th.pc) then Apply(s, t, LoadMove(s, t))
    else if th.pc.DCas? then if LosesRace(s, th, c) then Apply(s, t, RetryMove(s, t)) else Claim(s, t)
    else if th.pc.DRun? then Perform(s, t)
    else if th.pc.DAdd? && th.snap <= th.next then Account(s, t)
    else if th.pc.DSignalCast? then var w := WakePublisher(s); Apply(w, t, SignalMove(w, t))
    else Apply(s, t, SignalMove(s, t))
  }

  /** `tpool_parallel_for` takes on a job, closes the gate and waits for the workers of the last one. */
  function StartStep(s: State, c: Choice): (r: State)
    requires |s.threads| > 0
    ensures |r.threads| == |s.threads|
    ensures r.returned == s.returned
    ensures s.jobs <= r.jobs && s.runs <= r.runs && |r.jobs| - |s.jobs| == |r.runs| - |s.runs|
    ensures forall u :: 1 <= u < |s.threads| ==> r.threads[u] == s.threads[u]
    ensures r.active == s.active && r.parked == s.parked
  {
    match s.threads[0].pc
    case Idle =>
      if c.Start? && c.nItems > 0 && c.fn > 0 && Usable(|s.threads|, c.nItems, c.minItems) > 1 then
        Jump(s, 0, PGate).(
          jobs := s.jobs + [JobOf(Usable(|s.threads|, c.nItems, c.minItems), c.nItems, c.fn, c.ctx)],
          runs := s.runs + [[]])
      else s  // nothing to do, or run by the caller itself
    case PGate => Jump(s, 0, PRetire).(pubGate := s.epoch + 1)
    case PRetire => if s.active == 0 then Jump(s, 0, PEnd) else s
    case _ => s
  }

  /** The job's fields are stored one by one. */
  function StoreStep(s: State): (r: State)
    requires |s.threads| > 0 && |s.jobs| > 0
    ensures |r.threads| == |s.threads|
    ensures forall u :: 1 <= u < |s.threads| ==> r.threads[u] == s.threads[u]
    ensures r.runs == s.runs && r.jobs == s.jobs && r.epoch == s.epoch && r.returned == s.returned
    ensures r.active == s.active && r.parked == s.parked
  {
    var e := |s.jobs|;
    var j := s.jobs[e - 1];
    match s.threads[0].pc
    case PEnd => Jump(s, 0, PChunk).(jobEnd := j.end)
    case PChunk => Jump(s, 0, PFn).(chunkSize := j.chunk)
    case PFn => Jump(s, 0, PCtx).(jobFn := j.fn)
    case PCtx => Jump(s, 0, PExecuted).(jobCtx := j.ctx)
    case PExecuted => Jump(s, 0, PCursor).(executed := 0)
    case PCursor => Jump(s, 0, PWorkers).(curTag := e, cur := 0)
    case PWorkers => Jump(s, 0, PJobEpoch).(nWorkers := j.nWorkers)
    case PJobEpoch => Jump(s, 0, PLock).(jobEpoch := e)
    case _ => s
  }

  /** The new epoch is announced under the wake lock. */
  function AnnounceStep(s: State): (r: State)
    requires |s.threads| > 0 && |s.jobs| > 0
    ensures |r.threads| == |s.threads|
    ensures r.jobs == s.jobs && r.runs == s.runs && r.returned == s.returned
    ensures forall u :: 1 <= u < |s.threads| ==> r.threads[u] == s.threads[u]
    ensures r.active == s.active && r.parked == s.parked
  {
    var th := s.threads[0];
    match th.pc
    case PLock => if s.wakeOwner == FREE then Jump(s, 0, PEpoch).(wakeOwner := 0) else s
    case PEpoch => Jump(s, 0, PCast).(epoch := |s.jobs|)
    case PUnlock => To(s, 0, th.(pc := DEpoch, e := |s.jobs|)).(wakeOwner := FREE)
    case _ => s
  }

  /** Parked workers are woken by a broadcast. */
  function CastStep(s: State): (r: State)
    requires |s.threads| > 0
    ensures |r.threads| == |s.threads|
    ensures r.jobs == s.jobs && r.runs == s.runs && r.returned == s.returned
  {
    var woken := if s.parked > 0 then WakeAll(s.threads) else s.threads;
    s.(threads := woken[0 := s.threads[0].(pc := PUnlock)])
  }

  /** `tpool_wait_done` and the return. */
  function FinishStep(s: State, c: Choice): (r: State)
    requires |s.threads| > 0 && |s.jobs| > 0
    ensures |r.threads| == |s.threads|
    ensures r.jobs == s.jobs && r.runs == s.runs && r.epoch == s.epoch
    ensures r.returned == s.returned + if s.threads[0].pc.PReturn? then 1 else 0
    ensures forall u :: 1 <= u < |s.threads| ==> r.threads[u] == s.threads[u]
    ensures r.active == s.active && r.parked == s.parked
  {
    var done := s.executed >= s.jobs[|s.jobs| - 1].end;
    match s.threads[0].pc
    case PWait => if done then Jump(s, 0, PReturn) else if c.Alt? then Jump(s, 0, PFlag) else s
    case PFlag => Jump(s, 0, PDLock).(doneWaiting := true)
    case PDLock => if s.doneOwner == FREE then Jump(s, 0, PDCheck).(doneOwner := 0) else s
    case PDCheck => Jump(s, 0, if done then PDUnlock else PDWait)
    case PDWait => Jump(s, 0, PDAsleep).(doneOwner := FREE)
    case PDAsleep => if c.Alt? then Jump(s, 0, PDWoken) else s  // spurious wake-up
    case PDWoken => if s.doneOwner == FREE then Jump(s, 0, PDCheck).(doneOwner := 0) else s
    case PDUnlock => Jump(s, 0, PUnflag).(doneOwner := FREE)
    case PUnflag => Jump(s, 0, PReturn).(doneWaiting := false)
    case PReturn => Jump(s, 0, Idle).(pubGate := 0, returned := s.returned + 1)
    case _ => s
  }

  predicate IsStarting(pc: Pc) {
    pc.Idle? || pc.PGate? || pc.PRetire?
  }

  predicate IsStoring(pc: Pc) {
    pc.PEnd? || pc.PChunk? || pc.PFn? || pc.PCtx? || pc.PExecuted? || pc.PCursor? || pc.PWorkers? || pc.PJobEpoch?
  }

  predicate IsAnnouncing(pc: Pc) {
    pc.PLock? || pc.PEpoch? || pc.PUnlock?
  }

  predicate IsDrain(pc: Pc) {
    pc.DEpoch? || pc.DFn? || pc.DCtx? || pc.DEnd? || pc.DMin? || pc.DActive? || pc.DSnap? || pc.DCas? || pc.DRun?
    || pc.DAdd? || pc.DSignal? || pc.DSignalLock? || pc.DSignalCast? || pc.DSignalUnlock?
  }

  predicate IsParking(pc: Pc) {
    pc.Spin? || pc.ParkLock? || pc.ParkCount? || pc.ParkCheck? || pc.ParkWait? || pc.Asleep? || pc.Woken?
    || pc.Unpark? || pc.ParkUnlock?
  }

  /** Thread `t` is scheduled; a thread that cannot move leaves the state as it is. */
  function Act(s: State, t: nat, c: Choice): State {
    if t >= |s.threads| then s
    else if IsDrain(s.threads[t].pc) then DrainStep(s, t, c)
    else if t > 0 then
      Apply(s, t, if IsParking(s.threads[t].pc) then ParkMove(s, t, c) else EnterMove(s, t))
    else if IsStarting(s.threads[0].pc) then StartStep(s, c)
    else if |s.jobs| == 0 then s
    else if IsStoring(s.threads[0].pc) then StoreStep(s)
    else if IsAnnouncing(s.threads[0].pc) then AnnounceStep(s)
    else if s.threads[0].pc.PCast? then CastStep(s)
    else FinishStep(s, c)
  }

  datatype Turn = Turn(t: nat, c: Choice)

  /** The state after a schedule of turns. */
  function Execute(s: State, turns: seq<Turn>): State {
    if turns == [] then s
    else
      var last := turns[|turns| - 1];
      Act(Execute(s, turns[..|turns| - 1]), last.t, last.c)
  }
}
