/** No lost wakeup, and run and destroy return: in every reachable state with a
    call open some thread can move, and every move but a spurious wake brings the
    call closer to its end. */
module RowPoolProgress {
  import opened Words
  import opened RowPartition
  import opened RowPool
  import opened RowPoolSafety

  /** Steps the caller decides on. */
  predicate Caller(a: Action) { a.Submit? || a.Reject? || a.Destroy? }

  predicate Spurious(a: Action) { a.SpuriousWorker? || a.SpuriousCoordinator? }

  /** Steps the pool takes by itself. */
  predicate Internal(a: Action) { !Caller(a) && !Spurious(a) }

  predicate CallOpen(p: Pool) { !p.coord.Idle? && p.coord != Destroyed }

  // ----- somebody can always move -----

  lemma {:induction false} PendingWorker(ws: seq<Worker>, generation: nat) returns (i: nat)
    requires Count(ws, generation) > 0
    ensures i < |ws| && Pending(ws[i], generation)
  {
    if Pending(ws[0], generation) { i := 0; } else {
      i := PendingWorker(ws[1..], generation);
      i := i + 1;
    }
  }

  /** The move of a worker that is neither parked nor gone, when the lock is free. */
  lemma WorkerCanMove(p: Pool, i: nat) returns (a: Action)
    requires Inv(p) && i < |p.workers| && p.lock == Nobody && p.workers[i].pc !in {Unborn, Parked, Exited}
    ensures Internal(a) && Enabled(p, a)
  {
    assert WorkerOk(p, i);
    var w := p.workers[i];
    match w.pc
    case Queued => a := WorkerLock(i);
    case Returned(_) => a := WorkerLock(i);
    case Working(_, at, end) =>
      Ends(p.rows, |p.workers|);
      BoundMonotone(p.rows, i + 1, |p.workers|, |p.workers|);
      a := if at < end then Row(i) else Return(i);
  }

  lemma HolderCanMove(p: Pool) returns (a: Action)
    requires Inv(p) && p.lock != Nobody
    ensures Internal(a) && Enabled(p, a)
  {
    if p.lock == Coordinator {
      a := if p.coord.Opening? then Open else if p.coord == Checking then Check else Halt;
    } else {
      var i := p.lock.i;
      assert WorkerOk(p, i);
      if p.workers[i].pc == Testing { a := Test(i); } else {
        CountPositive(p.workers, p.generation, i);
        a := Report(i);
      }
    }
  }

  /** No lost wakeup. A thread parked on `ready` has nothing to run and nothing to
      stop for; a coordinator parked on `drained` is waited for by a worker that is
      not parked. So while a call is open, some step that is not a spurious wake is enabled. */
  lemma SomebodyMoves(p: Pool) returns (a: Action)
    requires Inv(p) && CallOpen(p)
    ensures Internal(a) && Enabled(p, a)
    ensures forall i :: 0 <= i < |p.workers| && p.workers[i].pc == Parked ==>
      p.workers[i].seen == p.generation && !p.stopping
  {
    forall i | 0 <= i < |p.workers| && p.workers[i].pc == Parked
      ensures p.workers[i].seen == p.generation && !p.stopping
    {
      assert WorkerOk(p, i);
    }
    if p.lock != Nobody {
      a := HolderCanMove(p);
    } else {
      match p.coord
      case Creating => a := Create;
      case Submitting(_) => a := Lock;
      case Requeued => a := Lock;
      case Stopping => a := Lock;
      case Draining =>
        var i := PendingWorker(p.workers, p.generation);
        assert WorkerOk(p, i);
        a := WorkerCanMove(p, i);
      case Joining(next) =>
        if next < p.created && p.workers[next].pc != Exited {
          assert WorkerOk(p, next);
          a := WorkerCanMove(p, next);
        } else {
          a := Join;
        }
    }
  }

  // ----- and every move is progress -----

  /** How far worker i is from having nothing left to do. */
  function Rank(w: Worker, i: nat, generation: nat, rows: nat, workers: nat): nat
    requires workers > 0
  {
    NextBound(rows, i, workers);
    match w.pc
    case Unborn => 0
    case Exited => 0
    case Parked => 0
    case Testing => if w.seen == generation then 1 else 8 + Size(rows, i, workers)
    case Queued => if w.seen == generation then 2 else 9 + Size(rows, i, workers)
    case Working(_, at, end) => 7 + (if at < end then end - at else 0)
    case Returned(_) => 6
    case Reporting(_) => 5
  }

  function Ranks(ws: seq<Worker>, n: nat, generation: nat, rows: nat, workers: nat): nat
    requires workers > 0 && n <= |ws|
  {
    if n == 0 then 0
    else Ranks(ws, n - 1, generation, rows, workers) + Rank(ws[n - 1], n - 1, generation, rows, workers)
  }

  function CoordRank(p: Pool): nat {
    var n := |p.workers|;
    match p.coord
    case Idle(_) => 0
    case Destroyed => 0
    case Joining(next) => if next <= p.created then p.created - next + 1 else 0
    case Halting => 2 * n + p.created + 2
    case Stopping => 2 * n + p.created + 3
    case Creating => if p.created <= n then 4 * (n - p.created) + 3 * n + 5 else 0
    case Draining => 1
    case Checking => 2
    case Requeued => 3
    case Opening(job) => 9 * n + job.rows + 3
    case Submitting(job) => 9 * n + job.rows + 4
  }

  /** The distance to the end of the open call. */
  function Measure(p: Pool): nat
    requires |p.workers| > 0
  {
    CoordRank(p) + Ranks(p.workers, |p.workers|, p.generation, p.rows, |p.workers|)
  }

  lemma {:induction false} RanksUpdate(ws: seq<Worker>, n: nat, i: nat, w: Worker, generation: nat, rows: nat,
                                       workers: nat)
    requires workers > 0 && n <= |ws| && i < |ws|
    ensures Ranks(ws[i := w], n, generation, rows, workers) ==
      Ranks(ws, n, generation, rows, workers) +
      (if i < n then Rank(w, i, generation, rows, workers) - Rank(ws[i], i, generation, rows, workers) else 0)
  {
    if n > 0 { RanksUpdate(ws, n - 1, i, w, generation, rows, workers); }
  }

  /** Waking the idle costs at most two per worker. */
  lemma {:induction false} RanksOfWoken(ws: seq<Worker>, n: nat, generation: nat, rows: nat, workers: nat)
    requires workers > 0 && n <= |ws| && forall i :: 0 <= i < n ==> ws[i].pc == Parked ==> ws[i].seen == generation
    ensures Ranks(WakeAll(ws), n, generation, rows, workers) <= Ranks(ws, n, generation, rows, workers) + 2 * n
  {
    if n > 0 { RanksOfWoken(ws, n - 1, generation, rows, workers); }
  }

  /** Opening a job costs nine per worker and one per row. */
  lemma {:induction false} RanksOfOpened(ws: seq<Worker>, n: nat, generation: nat, rows: nat, workers: nat)
    requires workers > 0 && n <= |ws|
    requires forall i :: 0 <= i < n ==> !InCallback(ws[i])
    ensures Ranks(WakeAll(ws), n, generation, rows, workers) <= 9 * n + Bound(rows, n, workers)
  {
    if n > 0 {
      RanksOfOpened(ws, n - 1, generation, rows, workers);
      NextBound(rows, n - 1, workers);
    }
  }

  lemma WorkerProgress(p: Pool, a: Action, i: nat)
    requires Inv(p) && Enabled(p, a) && MovesWorker(a, i) && a != SpuriousWorker(i)
    ensures Measure(Step(p, a)) < Measure(p)
  {
    var q := Step(p, a);
    var workers := |p.workers|;
    assert WorkerOk(p, i);
    WorkerStepApart(p, a, i);
    RankDrops(p, a, i);
    RanksUpdate(p.workers, workers, i, q.workers[i], p.generation, p.rows, workers);
  }

  lemma ReportDrops(p: Pool, i: nat)
    requires 2 <= |p.workers| && Enabled(p, Report(i)) && WorkerOk(p, i) && CoordOk(p)
    ensures var q := Step(p, Report(i));
            Rank(q.workers[i], i, p.generation, p.rows, |p.workers|) + CoordRank(q) <
            Rank(p.workers[i], i, p.generation, p.rows, |p.workers|) + CoordRank(p)
  {
  }

  lemma TestDrops(p: Pool, i: nat)
    requires 2 <= |p.workers| && Enabled(p, Test(i)) && WorkerOk(p, i)
    ensures var q := Step(p, Test(i));
            Rank(q.workers[i], i, p.generation, p.rows, |p.workers|) <
            Rank(p.workers[i], i, p.generation, p.rows, |p.workers|)
            && q.coord == p.coord
  {
    NextBound(p.rows, i, |p.workers|);
  }

  lemma ElseDrops(p: Pool, a: Action, i: nat)
    requires 2 <= |p.workers| && i < |p.workers| && Enabled(p, a) && WorkerOk(p, i)
    requires a == WorkerLock(i) || a == Row(i) || a == Return(i)
    ensures var q := Step(p, a);
            Rank(q.workers[i], i, p.generation, p.rows, |p.workers|) <
            Rank(p.workers[i], i, p.generation, p.rows, |p.workers|)
            && q.coord == p.coord
  {
  }

  lemma RankDrops(p: Pool, a: Action, i: nat)
    requires 2 <= |p.workers| && Enabled(p, a) && MovesWorker(a, i) && a != SpuriousWorker(i) && WorkerOk(p, i)
    requires CoordOk(p)
    ensures var q := Step(p, a);
            Rank(q.workers[i], i, p.generation, p.rows, |p.workers|) + CoordRank(q) <
            Rank(p.workers[i], i, p.generation, p.rows, |p.workers|) + CoordRank(p)
  {
    WorkerStepApart(p, a, i);
    if a == Report(i) { ReportDrops(p, i); } else if a == Test(i) { TestDrops(p, i); } else { ElseDrops(p, a, i); }
  }

  lemma CoordinatorProgress(p: Pool, a: Action)
    requires Inv(p) && Enabled(p, a) && (a == Create || a == CreateFails || a == Lock || a == Check || a == Join)
    ensures Measure(Step(p, a)) < Measure(p)
  {
    if a == Create && p.created < |p.workers| {
      var q := Step(p, a);
      assert WorkerOk(p, p.created);
      RanksUpdate(p.workers, |p.workers|, p.created, q.workers[p.created], p.generation, p.rows, |p.workers|);
    }
  }

  lemma NobodyCalls(p: Pool)
    requires Inv(p) && Enabled(p, Open)
    ensures forall i :: 0 <= i < |p.workers| ==> !InCallback(p.workers[i])
  {
    forall i | 0 <= i < |p.workers| ensures !InCallback(p.workers[i]) { assert WorkerOk(p, i); }
  }

  lemma OpenProgress(p: Pool)
    requires Inv(p) && Enabled(p, Open)
    ensures Measure(Step(p, Open)) < Measure(p)
  {
    NobodyCalls(p);
    hide Inv, InCallback, Rank;
    var n := |p.workers|;
    RanksOfOpened(p.workers, n, p.generation + 1, p.coord.job.rows, n);
    Ends(p.coord.job.rows, n);
  }

  lemma HaltProgress(p: Pool)
    requires Inv(p) && Enabled(p, Halt)
    ensures Measure(Step(p, Halt)) < Measure(p)
  {
    var n := |p.workers|;
    forall i | 0 <= i < n ensures p.workers[i].pc == Parked ==> p.workers[i].seen == p.generation {
      assert WorkerOk(p, i);
    }
    RanksOfWoken(p.workers, n, p.generation, p.rows, n);
  }

  /** Termination: every step that is neither the caller's nor a spurious wake
      brings the open call strictly closer to its end. */
  lemma EveryMoveIsProgress(p: Pool, a: Action)
    requires Inv(p) && Enabled(p, a) && Internal(a)
    ensures Measure(Step(p, a)) < Measure(p)
  {
    match a
    case Open => OpenProgress(p);
    case Halt => HaltProgress(p);
    case WorkerLock(i) => WorkerProgress(p, a, i);
    case Test(i) => WorkerProgress(p, a, i);
    case Row(i) => WorkerProgress(p, a, i);
    case Return(i) => WorkerProgress(p, a, i);
    case Report(i) => WorkerProgress(p, a, i);
    case _ => CoordinatorProgress(p, a);
  }

  /** A spurious wake sets the call back by at most two steps. */
  lemma SpuriousCost(p: Pool, a: Action)
    requires Inv(p) && Enabled(p, a) && Spurious(a)
    ensures Measure(Step(p, a)) <= Measure(p) + 2
  {
    if a.SpuriousWorker? {
      assert WorkerOk(p, a.i);
      var q := Step(p, a);
      RanksUpdate(p.workers, |p.workers|, a.i, q.workers[a.i], p.generation, p.rows, |p.workers|);
    }
  }

  // ----- whole runs -----

  ghost predicate Legal(p: Pool, run: seq<Action>)
    requires Inv(p)
    decreases |run|
  {
    run == [] || (Enabled(p, run[0]) && (StepKeeps(p, run[0]); Legal(Step(p, run[0]), run[1..])))
  }

  ghost function After(p: Pool, run: seq<Action>): (q: Pool)
    requires Inv(p) && Legal(p, run)
    ensures Inv(q)
    decreases |run|
  {
    if run == [] then p else
      StepKeeps(p, run[0]);
      After(Step(p, run[0]), run[1..])
  }

  function Spurs(run: seq<Action>): nat {
    if run == [] then 0 else (if Spurious(run[0]) then 1 else 0) + Spurs(run[1..])
  }

  /** Any schedule of any length: the steps taken since a call was made, spurious
      wakes apart, are bounded by the measure at the call plus two per spurious wake.
      With SomebodyMoves, run and destroy return whenever callbacks do. */
  lemma {:induction false} RunsAreBounded(p: Pool, run: seq<Action>)
    requires Inv(p) && Legal(p, run) && forall a <- run :: !Caller(a)
    ensures |run| + Measure(After(p, run)) <= Measure(p) + 3 * Spurs(run)
    decreases |run|
  {
    if run != [] {
      StepKeeps(p, run[0]);
      assert run[0] in run;
      if Spurious(run[0]) { SpuriousCost(p, run[0]); } else { EveryMoveIsProgress(p, run[0]); }
      RunsAreBounded(Step(p, run[0]), run[1..]);
    }
  }

  // ----- one call of run, start to finish -----

  /** The call of run for `job` has not returned yet. */
  ghost predicate Serving(p: Pool, job: Job) {
    p.coord == Submitting(job) || p.coord == Opening(job) || (Busy(p) && p.fn == Some(job))
  }

  /** The call has returned, and what it left. */
  ghost predicate Served(p: Pool, job: Job) {
    |p.workers| > 0 && ValidJob(job) && p.out == SerialLoop(job, job.rows) && |p.calls| == job.rows &&
    (forall r :: 0 <= r < job.rows ==> p.calls[r] == 1) &&
    p.coord == Idle(forall i :: 0 <= i < |p.workers| ==>
      RangeCode(job, Bound(job.rows, i, |p.workers|), Bound(job.rows, i + 1, |p.workers|)) == 0)
  }

  lemma ServingStep(p: Pool, job: Job, a: Action)
    requires Inv(p) && Enabled(p, a) && !Caller(a) && Serving(p, job)
    ensures Serving(Step(p, a), job) || Served(Step(p, a), job)
  {
    if a == Check && p.remaining == 0 { RunReturnsTheSerialResult(p); }
  }

  lemma ServedStep(p: Pool, job: Job, a: Action)
    requires Inv(p) && Enabled(p, a) && !Caller(a) && Served(p, job)
    ensures Served(Step(p, a), job)
  {
    forall i | 0 <= i < |p.workers| ensures !InCallback(p.workers[i]) { assert WorkerOk(p, i); }
  }

  /** Serial equivalence: under every interleaving and any spurious wakes, from the
      moment run is called until the caller acts again, the pool is either still
      serving the job or has left exactly the serial loop's output, each row
      computed once, and success exactly when every callback returned zero. */
  lemma {:induction false} RunIsSerial(p: Pool, job: Job, run: seq<Action>)
    requires Inv(p) && Legal(p, run) && (forall a <- run :: !Caller(a)) && (Serving(p, job) || Served(p, job))
    ensures Serving(After(p, run), job) || Served(After(p, run), job)
    decreases |run|
  {
    if run != [] {
      StepKeeps(p, run[0]);
      assert run[0] in run;
      if Serving(p, job) { ServingStep(p, job, run[0]); } else { ServedStep(p, job, run[0]); }
      RunIsSerial(Step(p, run[0]), job, run[1..]);
    }
  }

  /** The pool has nothing left to do of its own accord. */
  ghost predicate Settled(p: Pool) {
    forall a :: Internal(a) ==> !Enabled(p, a)
  }

  /** Safety and progress together: whatever the interleaving, a run from the call
      of run that has settled has served the job. By RunsAreBounded every run that
      keeps taking steps settles, unless it wakes for no reason for ever. */
  lemma SettledIsServed(p: Pool, job: Job, run: seq<Action>)
    requires Inv(p) && Legal(p, run) && (forall a <- run :: !Caller(a)) && Serving(p, job)
    requires Settled(After(p, run))
    ensures Served(After(p, run), job)
  {
    hide Inv, Legal, After, Served, Enabled;
    RunIsSerial(p, job, run);
    if Serving(After(p, run), job) {
      var a := SomebodyMoves(After(p, run));
    }
  }

  lemma RunFirst(p: Pool, a: Action, rest: seq<Action>)
    requires Inv(p) && Enabled(p, a)
    ensures Inv(Step(p, a))
    ensures Legal(Step(p, a), rest) ==> Legal(p, [a] + rest) && After(p, [a] + rest) == After(Step(p, a), rest)
  {
    hide Inv, Enabled, Step;
    StepKeeps(p, a);
    assert ([a] + rest)[1..] == rest;
  }

  /** From every reachable state in which a job is being served, the threads have a
      schedule of their own that serves it. */
  lemma {:induction false} CanFinish(p: Pool, job: Job) returns (run: seq<Action>)
    requires Inv(p) && Serving(p, job)
    ensures Legal(p, run) && (forall a <- run :: Internal(a)) && Served(After(p, run), job)
    decreases Measure(p)
  {
    hide Served, Enabled, Step, Measure;
    var a := SomebodyMoves(p);
    ServingStep(p, job, a);
    EveryMoveIsProgress(p, a);
    RunFirst(p, a, []);
    if Served(Step(p, a), job) {
      run := [a];
      assert [a] + [] == [a];
    } else {
      var rest := CanFinish(Step(p, a), job);
      RunFirst(p, a, rest);
      run := [a] + rest;
    }
  }
}
