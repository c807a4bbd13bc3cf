/** The worker/coordinator protocol of src/qx_row_pool.h as a transition system:
    one lock, two condition variables, and a program counter for every thread.
    Sleeping releases the lock and joins a wait set in one step; a wake moves
    threads from the wait set to the queue for the lock; a thread may also wake
    for no reason. A callback is a loop over its rows, interleaved row by row
    with every other thread. */
module RowPool {
  import opened Words
  import opened RowPartition

  /** A submitted job: what its callback writes to each row of the output buffer
      (initially `init`) and what it returns for a range. */
  datatype Job = Job(rows: nat, init: seq<int>, row: nat -> int, result: (nat, nat) -> int)

  datatype WorkerPc =
    | Unborn                          // thread not created yet
    | Queued                          // waiting for the lock, then line 78
    | Testing                         // holds the lock, line 78
    | Parked                          // in the wait set of `ready`
    | Working(begin: nat, at: nat, end: nat)  // no lock, line 88; `at` is the next row
    | Returned(code: int)             // waiting for the lock, line 89
    | Reporting(code: int)            // holds the lock, lines 90-92
    | Exited

  /** `job` is the worker's private copy of fn and context, `seen` its local. */
  datatype Worker = Worker(pc: WorkerPc, seen: nat, job: Option<Job>)

  datatype CoordPc =
    | Creating                        // line 137
    | Idle(ok: bool)                  // between calls; what run returned last
    | Submitting(job: Job)            // waiting for the lock, line 160
    | Opening(job: Job)               // holds the lock, lines 161-168
    | Checking                        // holds the lock, line 169
    | Draining                        // in the wait set of `drained`
    | Requeued                        // woken, waiting for the lock
    | Stopping                        // waiting for the lock, line 103
    | Halting                         // holds the lock, lines 104-106
    | Joining(next: nat)              // line 108
    | Destroyed

  datatype Holder = Nobody | Coordinator | Thread(i: nat)

  /** `out` and `calls` are the output buffer and how often each row was computed
      since the job was opened. */
  datatype Pool = Pool(workers: seq<Worker>, coord: CoordPc, lock: Holder, created: nat,
                       generation: nat, jobs: nat, remaining: nat, rows: nat, stopping: bool, failed: bool,
                       fn: Option<Job>, out: seq<int>, calls: seq<nat>)

  datatype Action =
    | Create | CreateFails | Submit(job: Job) | Reject | Destroy            // coordinator, outside the lock
    | Lock | Open | Check | Halt | Join                                     // coordinator
    | WorkerLock(i: nat) | Test(i: nat) | Row(i: nat) | Return(i: nat) | Report(i: nat)
    | SpuriousWorker(i: nat) | SpuriousCoordinator

  function Fresh(workers: nat): Pool
    requires 2 <= workers <= 64
  {
    Pool(seq(workers, _ => Worker(Unborn, 0, None)), Creating, Nobody, 0, 0, 0, 0, 0, false, false, None, [], [])
  }

  function Begin(p: Pool, i: nat): nat
    requires i <= |p.workers| && |p.workers| > 0
  {
    Bound(p.rows, i, |p.workers|)
  }

  predicate ValidJob(job: Job) { 0 < job.rows < U32_LIMIT && |job.init| == job.rows }

  /** WakeAllConditionVariable(&ready). */
  function WakeAll(ws: seq<Worker>): (r: seq<Worker>)
    ensures |r| == |ws|
    ensures forall i :: 0 <= i < |ws| ==> r[i] == if ws[i].pc == Parked then ws[i].(pc := Queued) else ws[i]
  {
    seq(|ws|, i requires 0 <= i < |ws| => if ws[i].pc == Parked then ws[i].(pc := Queued) else ws[i])
  }

  predicate Enabled(p: Pool, a: Action) {
    match a
    case Create => p.coord == Creating && p.created <= |p.workers|
    case CreateFails => p.coord == Creating && p.created < |p.workers|
    case Submit(job) => p.coord.Idle? && ValidJob(job)
    case Reject => p.coord.Idle?
    case Destroy => p.coord.Idle?
    case Lock => (p.coord.Submitting? || p.coord == Requeued || p.coord == Stopping) && p.lock == Nobody
    case Open => p.coord.Opening?
    case Check => p.coord == Checking
    case Halt => p.coord == Halting
    case Join => p.coord.Joining? && p.coord.next <= p.created <= |p.workers| &&
                 (p.coord.next < p.created ==> p.workers[p.coord.next].pc == Exited)
    case WorkerLock(i) =>
      i < |p.workers| && (p.workers[i].pc == Queued || p.workers[i].pc.Returned?) && p.lock == Nobody
    case Test(i) => i < |p.workers| && p.workers[i].pc == Testing
    case Row(i) => i < |p.workers| && p.workers[i].pc.Working? && p.workers[i].job.Some? &&
                   p.workers[i].pc.at < p.workers[i].pc.end <= |p.out| == |p.calls|
    case Return(i) => i < |p.workers| && p.workers[i].pc.Working? && p.workers[i].job.Some? &&
                      p.workers[i].pc.at == p.workers[i].pc.end
    case Report(i) => i < |p.workers| && p.workers[i].pc.Reporting? && p.remaining > 0
    case SpuriousWorker(i) => i < |p.workers| && p.workers[i].pc == Parked
    case SpuriousCoordinator => p.coord == Draining
  }

  function SetWorker(p: Pool, i: nat, w: Worker): Pool
    requires i < |p.workers|
  {
    p.(workers := p.workers[i := w])
  }

  /** What the callback returns for a range; an empty range is not called. */
  function RangeCode(job: Job, begin: nat, end: nat): int {
    if begin == end then 0 else job.result(begin, end)
  }

  function Step(p: Pool, a: Action): Pool
    requires Enabled(p, a) && |p.workers| > 0
  {
    match a
    case Create =>
      if p.created == |p.workers| then p.(coord := Idle(true))
      else SetWorker(p, p.created, p.workers[p.created].(pc := Queued)).(created := p.created + 1)
    case CreateFails => p.(coord := Stopping)
    case Submit(job) => p.(coord := Submitting(job))
    case Reject => p.(coord := Idle(false))
    case Destroy => p.(coord := Stopping)
    case Lock =>
      p.(lock := Coordinator,
         coord := match p.coord case Submitting(job) => Opening(job) case Requeued => Checking case _ => Halting)
    case Open =>
      var job := p.coord.job;
      p.(rows := job.rows, fn := Some(job), remaining := |p.workers|, failed := false,
         generation := p.generation + 1, jobs := p.jobs + 1, workers := WakeAll(p.workers), coord := Checking,
         out := job.init, calls := seq(job.rows, _ => 0))
    case Check =>
      if p.remaining != 0 then p.(coord := Draining, lock := Nobody)
      else p.(coord := Idle(!p.failed), fn := None, lock := Nobody)
    case Halt => p.(stopping := true, workers := WakeAll(p.workers), coord := Joining(0), lock := Nobody)
    case Join => p.(coord := if p.coord.next < p.created then Joining(p.coord.next + 1) else Destroyed)
    case WorkerLock(i) =>
      var w := p.workers[i];
      SetWorker(p, i, w.(pc := if w.pc == Queued then Testing else Reporting(w.pc.code))).(lock := Thread(i))
    case Test(i) =>
      var w := p.workers[i];
      (if p.stopping then SetWorker(p, i, w.(pc := Exited))
       else if p.generation == w.seen then SetWorker(p, i, w.(pc := Parked))
       else SetWorker(p, i, Worker(Working(Begin(p, i), Begin(p, i), Begin(p, i + 1)), p.generation,
                                     p.fn))).(lock := Nobody)
    case Row(i) =>
      var w := p.workers[i]; var r := w.pc.at;
      SetWorker(p, i, w.(pc := Working(w.pc.begin, r + 1, w.pc.end)))
        .(out := p.out[r := w.job.value.row(r)], calls := p.calls[r := p.calls[r] + 1])
    case Return(i) =>
      var w := p.workers[i];
      SetWorker(p, i, w.(pc := Returned(RangeCode(w.job.value, w.pc.begin, w.pc.end))))
    case Report(i) =>
      var w := p.workers[i];
      var q := SetWorker(p, i, w.(pc := Testing)).(remaining := p.remaining - 1, failed := p.failed || w.pc.code != 0);
      if q.remaining == 0 && q.coord == Draining then q.(coord := Requeued) else q
    case SpuriousWorker(i) => SetWorker(p, i, p.workers[i].(pc := Queued))
    case SpuriousCoordinator => p.(coord := Requeued)
  }

  // ----- the invariant -----

  /** A job is open: accepted and not yet cleared. */
  predicate Busy(p: Pool) { p.coord == Checking || p.coord == Draining || p.coord == Requeued }

  predicate InCallback(w: Worker) { w.pc.Working? || w.pc.Returned? || w.pc.Reporting? }

  /** Not started on this generation, or still running it. */
  predicate Pending(w: Worker, generation: nat) { w.seen != generation || InCallback(w) }

  function Count(ws: seq<Worker>, generation: nat): nat {
    if ws == [] then 0 else (if Pending(ws[0], generation) then 1 else 0) + Count(ws[1..], generation)
  }

  ghost predicate LockHeld(p: Pool) {
    (forall i :: 0 <= i < |p.workers| ==>
       ((p.workers[i].pc == Testing || p.workers[i].pc.Reporting?) <==> p.lock == Thread(i))) &&
    ((p.coord.Opening? || p.coord == Checking || p.coord == Halting) <==> p.lock == Coordinator) &&
    (p.lock.Thread? ==> p.lock.i < |p.workers|)
  }

  /** What is true of one worker. */
  ghost predicate WorkerOk(p: Pool, i: nat)
    requires i < |p.workers|
  {
    var w := p.workers[i];
    w.seen <= p.generation &&
    (w.pc == Unborn <==> i >= p.created) && (w.pc == Unborn ==> p.generation == 0) &&
    (w.pc == Parked ==> w.seen == p.generation && !p.stopping) &&
    (w.pc == Exited ==> p.stopping) &&
    (!Busy(p) ==> !Pending(w, p.generation)) &&
    (InCallback(w) ==> Busy(p) && w.seen == p.generation && w.job == p.fn) &&
    (Busy(p) && w.pc.Working? ==> w.pc.begin == Begin(p, i) <= w.pc.at <= w.pc.end == Begin(p, i + 1)) &&
    (Busy(p) && p.fn.Some? && w.pc.Returned? ==> w.pc.code == RangeCode(p.fn.value, Begin(p, i), Begin(p, i + 1))) &&
    (Busy(p) && p.fn.Some? && w.pc.Reporting? ==> w.pc.code == RangeCode(p.fn.value, Begin(p, i), Begin(p, i + 1)))
  }

  ghost predicate CoordOk(p: Pool) {
    (p.coord == Draining ==> p.remaining > 0) &&
    ((p.coord.Submitting? ==> ValidJob(p.coord.job)) && (p.coord.Opening? ==> ValidJob(p.coord.job))) &&
    (Busy(p) <==> p.fn.Some?) && (Busy(p) ==> ValidJob(p.fn.value) && p.rows == p.fn.value.rows) &&
    (p.stopping <==> (p.coord.Joining? || p.coord == Destroyed)) &&
    p.created <= |p.workers| &&
    (p.coord == Creating || p.stopping || p.coord == Stopping || p.coord == Halting || p.created == |p.workers|) &&
    (p.coord == Creating ==> p.generation == 0) &&
    (p.coord.Joining? ==>
       p.coord.next <= p.created && forall j :: 0 <= j < p.coord.next ==> p.workers[j].pc == Exited) &&
    (p.coord == Destroyed ==> forall j :: 0 <= j < p.created ==> p.workers[j].pc == Exited)
  }

  /** The rows of its range that worker i has computed are those below this. */
  function Reached(p: Pool, i: nat): nat
    requires i < |p.workers|
  {
    var w := p.workers[i];
    if w.pc.Working? then w.pc.at else if w.seen != p.generation then Begin(p, i) else Begin(p, i + 1)
  }

  /** The buffer holds the job's value in every computed row and the old value elsewhere. */
  ghost predicate RowsOk(p: Pool, job: Job) {
    |p.out| == |p.calls| == p.rows == |job.init| && |p.workers| > 0 &&
    forall i, r {:trigger Owns(p.rows, i, |p.workers|, r)} ::
      0 <= i < |p.workers| && 0 <= r < p.rows && Owns(p.rows, i, |p.workers|, r) ==>
      p.calls[r] == (if r < Reached(p, i) then 1 else 0) &&
      p.out[r] == if r < Reached(p, i) then job.row(r) else job.init[r]
  }

  /** Worker i is done with the open job and its callback failed. */
  ghost predicate FailedAt(p: Pool, job: Job, i: nat)
    requires i < |p.workers|
  {
    !Pending(p.workers[i], p.generation) && RangeCode(job, Begin(p, i), Begin(p, i + 1)) != 0
  }

  ghost predicate FailedOk(p: Pool, job: Job) {
    p.failed <==> exists i :: 0 <= i < |p.workers| && FailedAt(p, job, i)
  }

  /** Locks, program counters and counts. */
  ghost predicate Shape(p: Pool) {
    2 <= |p.workers| <= 64 && LockHeld(p) && (forall i :: 0 <= i < |p.workers| ==> WorkerOk(p, i)) && CoordOk(p) &&
    p.remaining == Count(p.workers, p.generation) && p.jobs == p.generation
  }

  /** Buffer and failure flag of the open job. */
  ghost predicate Data(p: Pool) {
    p.fn.Some? ==> RowsOk(p, p.fn.value) && FailedOk(p, p.fn.value)
  }

  ghost predicate Inv(p: Pool) { Shape(p) && Data(p) }
}
