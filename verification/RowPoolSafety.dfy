/** Every step of the pool keeps its invariant; what that means for callers. */
module RowPoolSafety {
  import opened RowPartition
  import opened RowPool

  // ----- counting pending workers -----

  lemma {:induction false} CountUpdate(ws: seq<Worker>, generation: nat, i: nat, w: Worker)
    requires i < |ws|
    ensures Count(ws[i := w], generation) ==
      Count(ws, generation) - (if Pending(ws[i], generation) then 1 else 0) + (if Pending(w, generation) then 1 else 0)
    decreases i
  {
    if i == 0 {
      assert ws[0 := w][1..] == ws[1..];
    } else {
      assert ws[i := w][1..] == ws[1..][i - 1 := w];
      CountUpdate(ws[1..], generation, i - 1, w);
    }
  }

  lemma {:induction false} CountPositive(ws: seq<Worker>, generation: nat, i: nat)
    requires i < |ws| && Pending(ws[i], generation)
    ensures Count(ws, generation) > 0
    decreases i
  {
    if i > 0 { CountPositive(ws[1..], generation, i - 1); }
  }

  lemma {:induction false} CountZero(ws: seq<Worker>, generation: nat)
    requires Count(ws, generation) == 0
    ensures forall i :: 0 <= i < |ws| ==> !Pending(ws[i], generation)
  {
    forall i | 0 <= i < |ws| ensures !Pending(ws[i], generation) {
      if Pending(ws[i], generation) { CountPositive(ws, generation, i); }
    }
  }

  lemma {:induction false} CountAll(ws: seq<Worker>, generation: nat)
    requires forall i :: 0 <= i < |ws| ==> Pending(ws[i], generation)
    ensures Count(ws, generation) == |ws|
  {
    if ws != [] {
      assert forall i :: 0 <= i < |ws[1..]| ==> ws[1..][i] == ws[i + 1];
      CountAll(ws[1..], generation);
    }
  }

  lemma {:induction false} CountNone(ws: seq<Worker>, generation: nat)
    requires forall i :: 0 <= i < |ws| ==> !Pending(ws[i], generation)
    ensures Count(ws, generation) == 0
  {
    if ws != [] {
      assert forall i :: 0 <= i < |ws[1..]| ==> ws[1..][i] == ws[i + 1];
      CountNone(ws[1..], generation);
    }
  }

  /** Waking and locking do not change who is pending. */
  lemma {:induction false} CountSame(ws: seq<Worker>, vs: seq<Worker>, generation: nat)
    requires |ws| == |vs| && forall i :: 0 <= i < |ws| ==> (Pending(ws[i], generation) <==> Pending(vs[i], generation))
    ensures Count(ws, generation) == Count(vs, generation)
  {
    if ws != [] {
      assert forall i :: 0 <= i < |ws[1..]| ==> ws[1..][i] == ws[i + 1] && vs[1..][i] == vs[i + 1];
      CountSame(ws[1..], vs[1..], generation);
    }
  }

  // ----- the steps -----

  lemma FreshIsSafe(workers: nat)
    requires 2 <= workers <= 64
    ensures Inv(Fresh(workers))
  {
    CountNone(Fresh(workers).workers, 0);
  }

  /** Steps of the coordinator that touch no worker. */
  predicate Quiet(a: Action) {
    a.CreateFails? || a.Submit? || a.Reject? || a.Destroy? || a.Lock? || a.Check? || a.Join? || a.SpuriousCoordinator?
  }

  lemma LockCoordinator(p: Pool)
    requires 2 <= |p.workers| && LockHeld(p) && CoordOk(p) && Enabled(p, Lock)
    ensures LockHeld(Step(p, Lock)) && CoordOk(Step(p, Lock))
  {
  }

  lemma CheckCoordinator(p: Pool)
    requires 2 <= |p.workers| && LockHeld(p) && CoordOk(p) && Enabled(p, Check)
    ensures LockHeld(Step(p, Check)) && CoordOk(Step(p, Check))
  {
  }

  lemma JoinCoordinator(p: Pool)
    requires 2 <= |p.workers| && LockHeld(p) && CoordOk(p) && Enabled(p, Join)
    ensures LockHeld(Step(p, Join)) && CoordOk(Step(p, Join))
  {
  }

  lemma CallerCoordinator(p: Pool, a: Action)
    requires 2 <= |p.workers| && LockHeld(p) && CoordOk(p) && Enabled(p, a)
    requires a.CreateFails? || a.Submit? || a.Reject? || a.Destroy? || a.SpuriousCoordinator?
    ensures LockHeld(Step(p, a)) && CoordOk(Step(p, a))
  {
  }

  lemma QuietCoordinator(p: Pool, a: Action)
    requires 2 <= |p.workers| && LockHeld(p) && CoordOk(p) && Enabled(p, a) && Quiet(a)
    ensures LockHeld(Step(p, a)) && CoordOk(Step(p, a))
  {
    match a
    case Lock => LockCoordinator(p);
    case Check => CheckCoordinator(p);
    case Join => JoinCoordinator(p);
    case _ => CallerCoordinator(p, a);
  }

  lemma QuietShape(p: Pool, a: Action)
    requires Shape(p) && Enabled(p, a) && Quiet(a)
    ensures Shape(Step(p, a))
  {
    var q := Step(p, a);
    QuietCoordinator(p, a);
    if a.Check? && p.remaining == 0 { CountZero(p.workers, p.generation); }
    forall i | 0 <= i < |q.workers| ensures WorkerOk(q, i) { assert WorkerOk(p, i); }
  }

  lemma CreateShape(p: Pool)
    requires Shape(p) && Enabled(p, Create)
    ensures Shape(Step(p, Create))
  {
    var q := Step(p, Create);
    if p.created < |p.workers| {
      assert WorkerOk(p, p.created);
      CountUpdate(p.workers, p.generation, p.created, q.workers[p.created]);
    }
    forall i | 0 <= i < |q.workers| ensures WorkerOk(q, i) { assert WorkerOk(p, i); }
  }

  lemma OpenShape(p: Pool)
    requires Shape(p) && Enabled(p, Open)
    ensures Shape(Step(p, Open))
    ensures var q := Step(p, Open);
            forall i :: 0 <= i < |q.workers| ==>
              Pending(q.workers[i], q.generation) && !InCallback(q.workers[i]) && q.workers[i].seen != q.generation
  {
    var q := Step(p, Open);
    forall i | 0 <= i < |q.workers|
      ensures WorkerOk(q, i) && Pending(q.workers[i], q.generation)
      ensures !InCallback(q.workers[i]) && q.workers[i].seen != q.generation
    {
      assert WorkerOk(p, i);
    }
    CountAll(q.workers, q.generation);
  }

  lemma HaltShape(p: Pool)
    requires Shape(p) && Enabled(p, Halt)
    ensures Shape(Step(p, Halt))
  {
    var q := Step(p, Halt);
    forall i | 0 <= i < |q.workers| ensures WorkerOk(q, i) { assert WorkerOk(p, i); }
    CountSame(p.workers, q.workers, p.generation);
  }

  predicate MovesWorker(a: Action, i: nat) {
    a == WorkerLock(i) || a == SpuriousWorker(i) || a == Test(i) || a == Row(i) || a == Return(i) || a == Report(i)
  }

  lemma TestItself(p: Pool, i: nat)
    requires 2 <= |p.workers| && i < |p.workers| && WorkerOk(p, i) && CoordOk(p) && Enabled(p, Test(i))
    ensures var q := Step(p, Test(i));
            WorkerOk(q, i) && (Pending(q.workers[i], p.generation) <==> Pending(p.workers[i], p.generation))
  {
    NextBound(p.rows, i, |p.workers|);
  }

  lemma ReportItself(p: Pool, i: nat)
    requires 2 <= |p.workers| && i < |p.workers| && WorkerOk(p, i) && CoordOk(p) && Enabled(p, Report(i))
    ensures var q := Step(p, Report(i));
            WorkerOk(q, i) && Pending(p.workers[i], p.generation) && !Pending(q.workers[i], p.generation)
  {
  }

  lemma ElseItself(p: Pool, a: Action, i: nat)
    requires 2 <= |p.workers| && i < |p.workers| && WorkerOk(p, i) && CoordOk(p) && Enabled(p, a)
    requires a == WorkerLock(i) || a == SpuriousWorker(i) || a == Row(i) || a == Return(i)
    ensures var q := Step(p, a);
            WorkerOk(q, i) && (Pending(q.workers[i], p.generation) <==> Pending(p.workers[i], p.generation))
  {
  }

  lemma WorkerItself(p: Pool, a: Action, i: nat)
    requires 2 <= |p.workers| && i < |p.workers| && WorkerOk(p, i) && CoordOk(p) && Enabled(p, a) && MovesWorker(a, i)
    ensures WorkerOk(Step(p, a), i)
    ensures Pending(Step(p, a).workers[i], p.generation) <==> Pending(p.workers[i], p.generation) && a != Report(i)
  {
    if a == Test(i) { TestItself(p, i); } else if a == Report(i) { ReportItself(p, i); } else { ElseItself(p, a, i); }
  }

  /** What a worker's step leaves alone. */
  ghost predicate Apart(p: Pool, q: Pool, i: nat) {
    |q.workers| == |p.workers| && i < |p.workers| && q.workers == p.workers[i := q.workers[i]] &&
    q.generation == p.generation && q.created == p.created && q.stopping == p.stopping && q.jobs == p.jobs &&
    q.rows == p.rows && q.fn == p.fn && (q.coord == p.coord || (p.coord == Draining && q.coord == Requeued))
  }

  lemma WorkerStepApart(p: Pool, a: Action, i: nat)
    requires 2 <= |p.workers| && Enabled(p, a) && MovesWorker(a, i)
    ensures Apart(p, Step(p, a), i)
  {
  }

  lemma OtherWorkers(p: Pool, q: Pool, i: nat, j: nat)
    requires Apart(p, q, i) && j < |p.workers| && j != i && WorkerOk(p, j)
    ensures WorkerOk(q, j)
  {
  }

  lemma LockMoves(p: Pool, a: Action, i: nat)
    requires 2 <= |p.workers| && LockHeld(p) && Enabled(p, a) && MovesWorker(a, i)
    ensures LockHeld(Step(p, a))
  {
  }

  lemma CoordinatorUnmoved(p: Pool, a: Action, i: nat)
    requires 2 <= |p.workers| && CoordOk(p) && Enabled(p, a) && MovesWorker(a, i) && WorkerOk(p, i)
    ensures CoordOk(Step(p, a))
  {
    hide Begin, RangeCode, Pending, ValidJob;
  }

  lemma WorkerShape(p: Pool, a: Action, i: nat)
    requires Shape(p) && Enabled(p, a) && MovesWorker(a, i)
    ensures Shape(Step(p, a))
  {
    var q := Step(p, a);
    WorkerStepApart(p, a, i);
    WorkerItself(p, a, i);
    CountUpdate(p.workers, p.generation, i, q.workers[i]);
    LockMoves(p, a, i);
    CoordinatorUnmoved(p, a, i);
    forall j | 0 <= j < |q.workers| ensures WorkerOk(q, j) {
      if j != i { OtherWorkers(p, q, i, j); }
    }
    CountMoves(p, a, i);
  }

  lemma CountMoves(p: Pool, a: Action, i: nat)
    requires 2 <= |p.workers| && Enabled(p, a) && MovesWorker(a, i)
    ensures Step(p, a).remaining == p.remaining - (if a == Report(i) then 1 else 0)
  {
  }

  /** Steps after which every worker has reached and finished as much as before. */
  lemma DataSame(p: Pool, q: Pool)
    requires Data(p) && p.fn == q.fn && p.rows == q.rows && p.generation == q.generation && p.failed == q.failed
    requires p.out == q.out && p.calls == q.calls && |p.workers| == |q.workers| > 0
    requires forall j :: 0 <= j < |p.workers| ==>
      Reached(p, j) == Reached(q, j) && (Pending(p.workers[j], p.generation) <==> Pending(q.workers[j], q.generation))
    ensures Data(q)
  {
    if p.fn.Some? {
      var job := p.fn.value;
      assert forall j :: 0 <= j < |p.workers| ==> (FailedAt(p, job, j) <==> FailedAt(q, job, j));
    }
  }

  lemma OpenData(p: Pool)
    requires Inv(p) && Enabled(p, Open)
    ensures Data(Step(p, Open))
  {
    OpenShape(p);
    var q := Step(p, Open);
    assert forall j :: 0 <= j < |q.workers| ==> Reached(q, j) == Begin(q, j) && !FailedAt(q, q.fn.value, j);
  }

  lemma RowData(p: Pool, i: nat)
    requires Inv(p) && Enabled(p, Row(i))
    ensures Data(Step(p, Row(i)))
  {
    var q := Step(p, Row(i));
    assert WorkerOk(p, i);
    var job := p.fn.value;
    var at := p.workers[i].pc.at;
    assert Owns(p.rows, i, |p.workers|, at);
    forall j, r | 0 <= j < |q.workers| && 0 <= r < q.rows && Owns(q.rows, j, |q.workers|, r)
      ensures q.calls[r] == (if r < Reached(q, j) then 1 else 0)
      ensures q.out[r] == if r < Reached(q, j) then job.row(r) else job.init[r]
    {
      if r == at { OneOwner(p.rows, |p.workers|, i, j, r); }
    }
    assert forall j :: 0 <= j < |p.workers| ==> (FailedAt(p, job, j) <==> FailedAt(q, job, j));
  }

  lemma ReportData(p: Pool, i: nat)
    requires Inv(p) && Enabled(p, Report(i))
    ensures Data(Step(p, Report(i)))
  {
    var q := Step(p, Report(i));
    assert WorkerOk(p, i);
    var job := p.fn.value;
    assert forall j :: 0 <= j < |p.workers| ==> Reached(p, j) == Reached(q, j);
    assert FailedAt(q, job, i) <==> p.workers[i].pc.code != 0;
    forall j | 0 <= j < |p.workers| && j != i ensures FailedAt(p, job, j) <==> FailedAt(q, job, j) {}
    assert !FailedAt(p, job, i);
    if p.failed {
      var j :| 0 <= j < |p.workers| && FailedAt(p, job, j);
      assert FailedAt(q, job, j);
    }
  }

  /** Every step of every thread keeps the invariant. */
  lemma StepKeeps(p: Pool, a: Action)
    requires Inv(p) && Enabled(p, a)
    ensures Inv(Step(p, a))
  {
    match a {
      case Create => CreateShape(p); CreateData(p);
      case Open => OpenShape(p); OpenData(p);
      case Halt => HaltShape(p); HaltData(p);
      case WorkerLock(i) => WorkerShape(p, a, i); MovingData(p, a, i);
      case SpuriousWorker(i) => WorkerShape(p, a, i); MovingData(p, a, i);
      case Return(i) => WorkerShape(p, a, i); MovingData(p, a, i);
      case Test(i) => WorkerShape(p, a, i); MovingData(p, a, i);
      case Row(i) => WorkerShape(p, a, i); RowData(p, i);
      case Report(i) => WorkerShape(p, a, i); ReportData(p, i);
      case _ => QuietShape(p, a); QuietData(p, a);
    }
  }

  lemma CreateData(p: Pool)
    requires Inv(p) && Enabled(p, Create)
    ensures Data(Step(p, Create))
  {
  }

  lemma HaltData(p: Pool)
    requires Inv(p) && Enabled(p, Halt)
    ensures Data(Step(p, Halt))
  {
  }

  lemma QuietData(p: Pool, a: Action)
    requires Inv(p) && Enabled(p, a) && Quiet(a)
    ensures Data(Step(p, a))
  {
    var q := Step(p, a);
    if q.fn.Some? { DataSame(p, q); }
  }

  lemma MovingData(p: Pool, a: Action, i: nat)
    requires Inv(p) && Enabled(p, a) && MovesWorker(a, i) && a != Row(i) && a != Report(i)
    ensures Data(Step(p, a))
  {
    var q := Step(p, a);
    WorkerStepApart(p, a, i);
    WorkerItself(p, a, i);
    ReachedSame(p, a, i);
    DataSame(p, q);
  }

  lemma ReachedSame(p: Pool, a: Action, i: nat)
    requires 2 <= |p.workers| && Enabled(p, a) && MovesWorker(a, i) && a != Row(i) && a != Report(i) && WorkerOk(p, i)
    ensures var q := Step(p, a);
            Reached(q, i) == Reached(p, i) && q.failed == p.failed && q.out == p.out && q.calls == p.calls
  {
  }

  // ----- what a caller of run sees -----

  /** The serial loop the pool replaces: one row after the other. */
  function SerialLoop(job: Job, n: nat): (out: seq<int>)
    requires n <= |job.init|
    ensures |out| == |job.init|
  {
    if n == 0 then job.init else SerialLoop(job, n - 1)[n - 1 := job.row(n - 1)]
  }

  lemma {:induction false} SerialLoopAt(job: Job, n: nat, r: nat)
    requires n <= |job.init| && r < |job.init|
    ensures SerialLoop(job, n)[r] == if r < n then job.row(r) else job.init[r]
  {
    if n > 0 { SerialLoopAt(job, n - 1, r); }
  }

  /** When run is about to return, whatever the interleaving was: no worker holds
      fn or context any more, every row has been computed exactly once, the output
      is the serial loop's, and run reports success exactly when no callback of a
      nonempty range returned nonzero. */
  lemma RunReturnsTheSerialResult(p: Pool)
    requires Inv(p) && p.coord == Checking && p.remaining == 0
    ensures var job := p.fn.value; var workers := |p.workers|;
            (forall i :: 0 <= i < workers ==> !InCallback(p.workers[i]) && p.workers[i].seen == p.generation) &&
            p.out == SerialLoop(job, job.rows) && (forall r :: 0 <= r < job.rows ==> p.calls[r] == 1) &&
            Step(p, Check).coord == Idle(forall i :: 0 <= i < workers ==>
              RangeCode(job, Bound(job.rows, i, workers), Bound(job.rows, i + 1, workers)) == 0)
  {
    var job := p.fn.value;
    var workers := |p.workers|;
    CountZero(p.workers, p.generation);
    Ends(p.rows, workers);
    forall r | 0 <= r < job.rows ensures p.calls[r] == 1 && p.out[r] == SerialLoop(job, job.rows)[r] {
      var i := OwnerBelow(p.rows, workers, workers, r);
      assert Reached(p, i) == Begin(p, i + 1);
      SerialLoopAt(job, job.rows, r);
    }
    assert forall i :: 0 <= i < workers ==>
      (FailedAt(p, job, i) <==> RangeCode(job, Bound(job.rows, i, workers), Bound(job.rows, i + 1, workers)) != 0);
  }

  /** Once destroyed, every thread that was created has left the pool and nobody holds the lock. */
  lemma DestroyedIsQuiet(p: Pool)
    requires Inv(p) && p.coord == Destroyed
    ensures p.lock == Nobody
    ensures forall i :: 0 <= i < |p.workers| ==> p.workers[i].pc == if i < p.created then Exited else Unborn
  {
    forall i | 0 <= i < |p.workers| ensures p.workers[i].pc == (if i < p.created then Exited else Unborn) {
      assert WorkerOk(p, i);
    }
  }
}
