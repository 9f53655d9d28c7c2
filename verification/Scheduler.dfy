/**
 * The job scheduler (scheduler/scheduler.go) as a protocol between one scheduling loop, several runners
 * and those who schedule, abort and stop. A step is one critical section of a job, one channel operation
 * or one turn of a loop. Whether a job is due is a choice: there is no clock.
 */
module Scheduler {

  type ID = nat

  const NUM_RUNNERS := 4
  const RUN_QUEUE_LEN := 8

  datatype JobState = JobScheduled | JobStarted | JobFinished | JobAborted

  /** `runs` and `callbacks` count how often the job was run and its done callback issued. */
  datatype Job = Job(state: JobState, cancelled: bool, runs: nat, callbacks: nat)

  const NEW_JOB := Job(JobScheduled, false, 0, 0)

  predicate Over(j: Job) { j.state.JobFinished? || j.state.JobAborted? }

  /** What the scheduling loop is doing: `Ticking` goes through the waiting jobs, `Aborting` through all jobs. */
  datatype Loop =
    | Polling
    | Sending(id: ID)
    | Ticking(rest: seq<ID>, still: seq<ID>)
    | Aborting(ids: set<ID>)
    | Exited

  datatype Runner = Ready | Picked(id: ID) | Running(id: ID) | Joined

  /** `jobs` are all jobs ever accepted; `table` are those the scheduling loop still knows by number. */
  datatype System = System(jobs: map<ID, Job>, table: set<ID>, wait: seq<ID>, runC: seq<ID>, loop: Loop, open: bool,
                           runners: seq<Runner>)

  const START := System(map[], {}, [], [], Polling, true, [Ready, Ready, Ready, Ready])

  // ---------------------------------------------------------------- one job, under its lock

  /** Aborting stops a job that has not started, and asks one that has to stop. */
  function Aborted(j: Job): Job
  {
    match j.state
    case JobScheduled => j.(state := JobAborted, callbacks := j.callbacks + 1)
    case JobStarted => j.(cancelled := true)
    case _ => j
  }

  function Started(j: Job): Job
  {
    if j.state.JobScheduled? then j.(state := JobStarted, runs := j.runs + 1) else j
  }

  function Finished(j: Job): Job
  {
    j.(state := if j.cancelled then JobAborted else JobFinished, callbacks := j.callbacks + 1)
  }

  /** The job object; each method is one critical section. */
  class JobCell {
    var state: JobState
    var cancelled: bool
    ghost var runs: nat
    ghost var callbacks: nat

    ghost function Value(): Job
      reads this
    {
      Job(state, cancelled, runs, callbacks)
    }

    constructor ()
      ensures Value() == NEW_JOB
    {
      state, cancelled, runs, callbacks := JobScheduled, false, 0, 0;
    }

    method Abort()
      modifies this
      ensures Value() == Aborted(old(Value()))
    {
      match state {
        case JobScheduled =>
          state := JobAborted;
          callbacks := callbacks + 1;
        case JobStarted =>
          cancelled := true;
        case _ =>
      }
    }

    /** What a runner does before it runs the job, if it may. */
    method TryStart() returns (run: bool)
      modifies this
      ensures Value() == Started(old(Value())) && run == old(state).JobScheduled?
    {
      if state == JobAborted {
        return false;
      }
      if state != JobScheduled {
        return false;
      }
      state := JobStarted;
      runs := runs + 1;
      run := true;
    }

    /** What a runner does after it has run the job. */
    method SetDone()
      modifies this
      ensures Value() == Finished(old(Value()))
    {
      if cancelled {
        state := JobAborted;
      } else {
        state := JobFinished;
      }
      callbacks := callbacks + 1;
    }
  }

  // ---------------------------------------------------------------- the scheduling loop

  ghost predicate Accept(s: System, s': System, id: ID, due: bool)
  {
    && s.loop.Polling? && s.open && id !in s.jobs
    && s' == s.(jobs := s.jobs[id := NEW_JOB], table := s.table + {id},
                loop := if due then Sending(id) else Polling, wait := if due then s.wait else s.wait + [id])
  }

  /** The queue to the runners is bounded; a send waits for room. */
  ghost predicate Send(s: System, s': System)
  {
    s.loop.Sending? && |s.runC| < RUN_QUEUE_LEN && s' == s.(runC := s.runC + [s.loop.id], loop := Polling)
  }

  ghost predicate Tick(s: System, s': System)
  {
    s.loop.Polling? && s' == s.(loop := Ticking(s.wait, []), wait := [])
  }

  /** A waiting job that is no longer scheduled is dropped, one that is due is sent, others keep waiting. */
  ghost predicate TickNext(s: System, s': System, due: bool)
  {
    && s.loop.Ticking? && s.loop.rest != [] && s.loop.rest[0] in s.jobs
    && var id, rest := s.loop.rest[0], s.loop.rest[1..];
       if !s.jobs[id].state.JobScheduled? then s' == s.(loop := s.loop.(rest := rest))
       else if due then |s.runC| < RUN_QUEUE_LEN && s' == s.(loop := s.loop.(rest := rest), runC := s.runC + [id])
       else s' == s.(loop := Ticking(rest, s.loop.still + [id]))
  }

  ghost predicate TickEnd(s: System, s': System)
  {
    s.loop.Ticking? && s.loop.rest == [] && s' == s.(wait := s.loop.still, loop := Polling)
  }

  /** A job aborted by number; one that is not known is left alone. */
  ghost predicate AbortOne(s: System, s': System, id: ID)
  {
    && s.loop.Polling?
    && s' == if id in s.table && id in s.jobs then s.(jobs := s.jobs[id := Aborted(s.jobs[id])]) else s
  }

  ghost predicate AbortAll(s: System, s': System)
  {
    s.loop.Polling? && s' == s.(loop := Aborting(s.table))
  }

  ghost predicate AbortNext(s: System, s': System, id: ID)
  {
    && s.loop.Aborting? && id in s.loop.ids && id in s.jobs
    && s' == s.(loop := Aborting(s.loop.ids - {id}), jobs := s.jobs[id := Aborted(s.jobs[id])])
  }

  ghost predicate AbortEnd(s: System, s': System)
  {
    s.loop.Aborting? && s.loop.ids == {} && s' == s.(loop := Polling)
  }

  /** Jobs that are over may be forgotten. */
  ghost predicate Collect(s: System, s': System, ids: set<ID>)
  {
    && s.loop.Polling? && (forall id :: id in ids ==> id in s.jobs && Over(s.jobs[id]))
    && s' == s.(table := s.table - ids)
  }

  /** Stopping takes no more jobs, */
  ghost predicate Close(s: System, s': System) { s' == s.(open := false) }

  /** and ends the loop once no job is waiting. */
  ghost predicate Exit(s: System, s': System)
  {
    s.loop.Polling? && !s.open && s.wait == [] && s' == s.(loop := Exited)
  }

  // ---------------------------------------------------------------- the runners

  ghost predicate Pick(s: System, s': System, r: nat)
  {
    && r < |s.runners| && s.runners[r].Ready? && s.runC != []
    && s' == s.(runners := s.runners[r := Picked(s.runC[0])], runC := s.runC[1..])
  }

  /** A job that is no longer scheduled is skipped. */
  ghost predicate Start(s: System, s': System, r: nat)
  {
    && r < |s.runners| && s.runners[r].Picked? && s.runners[r].id in s.jobs
    && var id := s.runners[r].id;
       s' == s.(jobs := s.jobs[id := Started(s.jobs[id])],
                runners := s.runners[r := if s.jobs[id].state.JobScheduled? then Running(id) else Ready])
  }

  ghost predicate Finish(s: System, s': System, r: nat)
  {
    && r < |s.runners| && s.runners[r].Running? && s.runners[r].id in s.jobs
    && s' == s.(jobs := s.jobs[s.runners[r].id := Finished(s.jobs[s.runners[r].id])], runners := s.runners[r := Ready])
  }

  /** A runner ends when the queue is closed and empty. */
  ghost predicate Join(s: System, s': System, r: nat)
  {
    && r < |s.runners| && s.runners[r].Ready? && s.runC == [] && s.loop.Exited?
    && s' == s.(runners := s.runners[r := Joined])
  }

  ghost predicate LoopStep(s: System, s': System)
  {
    || (exists id, due :: Accept(s, s', id, due)) || Send(s, s')
    || Tick(s, s') || (exists due :: TickNext(s, s', due)) || TickEnd(s, s')
    || (exists id :: AbortOne(s, s', id)) || AbortAll(s, s') || (exists id :: AbortNext(s, s', id)) || AbortEnd(s, s')
    || (exists ids :: Collect(s, s', ids)) || Close(s, s') || Exit(s, s')
  }

  ghost predicate RunnerStep(s: System, s': System, r: nat)
  {
    Pick(s, s', r) || Start(s, s', r) || Finish(s, s', r) || Join(s, s', r)
  }

  ghost predicate Step(s: System, s': System)
  {
    LoopStep(s, s') || (exists r: nat :: RunnerStep(s, s', r))
  }

  // ---------------------------------------------------------------- what every step keeps

  /** A job has run, and its callback has been issued, as often as its state says: never twice. */
  ghost predicate Counted(j: Job)
  {
    && (j.state.JobScheduled? ==> j.runs == 0 && !j.cancelled)
    && (j.state.JobStarted? || j.state.JobFinished? ==> j.runs == 1)
    && j.runs <= 1
    && j.callbacks == (if Over(j) then 1 else 0)
  }

  ghost predicate AllCounted(s: System)
  {
    forall id {:trigger s.jobs[id]} :: id in s.jobs ==> Counted(s.jobs[id])
  }

  /** A job that is scheduled is on its way to a runner. */
  ghost predicate OnTheWay(s: System, id: ID)
  {
    || id in s.wait || id in s.runC
    || (s.loop.Sending? && s.loop.id == id)
    || (s.loop.Ticking? && (id in s.loop.rest || id in s.loop.still))
    || (exists r: nat :: r < |s.runners| && s.runners[r] == Picked(id))
  }

  ghost predicate Held(s: System, id: ID)
  {
    exists r: nat :: r < |s.runners| && s.runners[r] == Running(id)
  }

  /** A job that is not over is on its way or being run. */
  ghost predicate Placed(s: System, id: ID)
    requires id in s.jobs
  {
    && (s.jobs[id].state.JobScheduled? ==> OnTheWay(s, id))
    && (s.jobs[id].state.JobStarted? ==> Held(s, id))
  }

  ghost predicate AllPlaced(s: System)
  {
    forall id {:trigger Placed(s, id)} :: id in s.jobs ==> Placed(s, id)
  }

  /** A runner runs a job that has started, and no other runner does. */
  ghost predicate RunnersOk(s: System)
  {
    && (forall r: nat {:trigger s.runners[r]} :: r < |s.runners| && s.runners[r].Running? ==>
          s.runners[r].id in s.jobs && s.jobs[s.runners[r].id].state.JobStarted?)
    && (forall q: nat, r: nat {:trigger s.runners[q], s.runners[r]} ::
          q < r < |s.runners| && s.runners[q].Running? ==> s.runners[q] != s.runners[r])
  }

  ghost predicate LoopOk(s: System)
  {
    && |s.runners| == NUM_RUNNERS
    && (s.loop.Ticking? || s.loop.Exited? ==> s.wait == [])
    && (forall r: nat {:trigger s.runners[r]} ::
          r < |s.runners| && s.runners[r].Joined? ==> s.loop.Exited? && s.runC == [])
  }

  ghost predicate Inv(s: System)
  {
    AllCounted(s) && AllPlaced(s) && RunnersOk(s) && LoopOk(s)
  }

  lemma StartInv()
    ensures Inv(START)
  {
  }

  /** Steps that move jobs about without touching them. */
  lemma MovedInv(s: System, s': System)
    requires Inv(s) && s'.jobs == s.jobs && s'.runners == s.runners && LoopOk(s')
    requires forall id {:trigger OnTheWay(s, id)} {:trigger OnTheWay(s', id)} ::
               id in s.jobs && s.jobs[id].state.JobScheduled? && OnTheWay(s, id) ==> OnTheWay(s', id)
    ensures Inv(s')
  {
    forall id | id in s'.jobs ensures Placed(s', id) {
      assert Placed(s, id);
    }
  }

  lemma AcceptInv(s: System, s': System, id: ID, due: bool)
    requires Inv(s) && Accept(s, s', id, due)
    ensures Inv(s')
  {
    forall i | i in s'.jobs ensures Placed(s', i) {
      if i != id {
        assert Placed(s, i);
        if Held(s, i) { assert Held(s', i); }
      }
    }
  }

  lemma SendInv(s: System, s': System)
    requires Inv(s) && (Send(s, s') || Tick(s, s') || TickEnd(s, s'))
    ensures Inv(s')
  {
    MovedInv(s, s');
  }

  lemma TickNextInv(s: System, s': System, due: bool)
    requires Inv(s) && TickNext(s, s', due)
    ensures Inv(s')
  {
    var rest := s.loop.rest;
    assert rest == [rest[0]] + rest[1..];
    forall id | id in s.jobs && s.jobs[id].state.JobScheduled? && OnTheWay(s, id) ensures OnTheWay(s', id) {
      if id in rest { assert id == rest[0] || id in rest[1..]; }
    }
    MovedInv(s, s');
  }

  lemma OtherLoopInv(s: System, s': System, ids: set<ID>)
    requires Inv(s) && (AbortAll(s, s') || AbortEnd(s, s') || Collect(s, s', ids) || Close(s, s') || Exit(s, s'))
    ensures Inv(s')
  {
    MovedInv(s, s');
  }

  /** Aborting a job wherever it is. */
  lemma AbortInv(s: System, s': System, id: ID)
    requires Inv(s) && id in s.jobs && s'.jobs == s.jobs[id := Aborted(s.jobs[id])]
    requires || s' == s.(jobs := s'.jobs)
             || (s.loop.Aborting? && s'.loop.Aborting? && s' == s.(jobs := s'.jobs, loop := s'.loop))
    ensures Inv(s')
  {
    forall i | i in s'.jobs ensures Placed(s', i) {
      assert Placed(s, i);
      if Held(s, i) { assert Held(s', i); }
      if OnTheWay(s, i) { assert OnTheWay(s', i); }
    }
  }

  lemma PickInv(s: System, s': System, r: nat)
    requires Inv(s) && Pick(s, s', r)
    ensures Inv(s')
  {
    assert s.runC == [s.runC[0]] + s.runC[1..];
    forall id | id in s'.jobs ensures Placed(s', id) {
      assert Placed(s, id);
      if Held(s, id) { HeldKept(s, s', r, id); }
      if OnTheWay(s, id) { PickKept(s, s', r, id); }
    }
  }

  lemma HeldKept(s: System, s': System, r: nat, id: ID)
    requires Held(s, id) && r < |s.runners| && !s.runners[r].Running?
    requires |s'.runners| == |s.runners| && forall q: nat :: q < |s.runners| && q != r ==> s'.runners[q] == s.runners[q]
    ensures Held(s', id)
  {
    var q: nat :| q < |s.runners| && s.runners[q] == Running(id);
    assert s'.runners[q] == Running(id);
  }

  lemma PickKept(s: System, s': System, r: nat, id: ID)
    requires Pick(s, s', r) && OnTheWay(s, id)
    ensures OnTheWay(s', id)
  {
    assert s.runC == [s.runC[0]] + s.runC[1..];
    if q: nat :| q < |s.runners| && s.runners[q] == Picked(id) {
      assert s'.runners[q] == Picked(id);
    } else if id in s.runC && id !in s.runC[1..] {
      assert s'.runners[r] == Picked(id);
    }
  }

  lemma StartPlaced(s: System, s': System, r: nat, id: ID)
    requires Inv(s) && Start(s, s', r) && id in s'.jobs
    ensures Placed(s', id)
  {
    assert Placed(s, id);
    if id == s.runners[r].id {
      if s.jobs[id].state.JobScheduled? { assert s'.runners[r] == Running(id); }
      if s.jobs[id].state.JobStarted? { HeldKept(s, s', r, id); }
    } else {
      if Held(s, id) { HeldKept(s, s', r, id); }
      if q: nat :| q < |s.runners| && s.runners[q] == Picked(id) { assert s'.runners[q] == Picked(id); }
    }
  }

  lemma StartInvariant(s: System, s': System, r: nat)
    requires Inv(s) && Start(s, s', r)
    ensures Inv(s')
  {
    forall id | id in s'.jobs ensures Placed(s', id) {
      StartPlaced(s, s', r, id);
    }
    assert forall q: nat :: q < |s.runners| && q != r ==> s'.runners[q] == s.runners[q];
  }

  lemma FinishInv(s: System, s': System, r: nat)
    requires Inv(s) && Finish(s, s', r)
    ensures Inv(s')
  {
    var done := s.runners[r].id;
    assert forall q: nat :: q < |s.runners| && q != r ==> s'.runners[q] == s.runners[q];
    forall id | id in s'.jobs ensures Placed(s', id) {
      assert Placed(s, id);
      if id != done {
        if q: nat :| q < |s.runners| && s.runners[q] == Running(id) { assert s'.runners[q] == Running(id); }
        if q: nat :| q < |s.runners| && s.runners[q] == Picked(id) { assert s'.runners[q] == Picked(id); }
      }
    }
    forall q: nat | q < |s'.runners| && s'.runners[q].Running? ensures s'.runners[q].id != done {
      assert s.runners[q] == s'.runners[q];
    }
  }

  lemma JoinInv(s: System, s': System, r: nat)
    requires Inv(s) && Join(s, s', r)
    ensures Inv(s')
  {
    assert forall q: nat :: q < |s.runners| && q != r ==> s'.runners[q] == s.runners[q];
    forall id | id in s'.jobs ensures Placed(s', id) {
      assert Placed(s, id);
      if Held(s, id) { HeldKept(s, s', r, id); }
      if q: nat :| q < |s.runners| && s.runners[q] == Picked(id) { assert s'.runners[q] == Picked(id); }
    }
  }

  lemma LoopStepInv(s: System, s': System)
    requires Inv(s) && LoopStep(s, s')
    ensures Inv(s')
  {
    if id, due :| Accept(s, s', id, due) { AcceptInv(s, s', id, due); }
    if Send(s, s') || Tick(s, s') || TickEnd(s, s') { SendInv(s, s'); }
    if due :| TickNext(s, s', due) { TickNextInv(s, s', due); }
    if id :| AbortOne(s, s', id) {
      if id in s.table && id in s.jobs { AbortInv(s, s', id); }
    }
    if id :| AbortNext(s, s', id) { AbortInv(s, s', id); }
    if AbortAll(s, s') || AbortEnd(s, s') || Close(s, s') || Exit(s, s') { OtherLoopInv(s, s', {}); }
    if ids :| Collect(s, s', ids) { OtherLoopInv(s, s', ids); }
  }

  /** Every step keeps the invariant. */
  lemma StepInv(s: System, s': System)
    requires Inv(s) && Step(s, s')
    ensures Inv(s')
  {
    if LoopStep(s, s') {
      LoopStepInv(s, s');
    } else {
      var r: nat :| RunnerStep(s, s', r);
      if Pick(s, s', r) { PickInv(s, s', r); }
      if Start(s, s', r) { StartInvariant(s, s', r); }
      if Finish(s, s', r) { FinishInv(s, s', r); }
      if Join(s, s', r) { JoinInv(s, s', r); }
    }
  }

  // ---------------------------------------------------------------- runs

  ghost predicate StepAt(ss: seq<System>, i: int)
    requires 0 <= i < |ss| - 1
  {
    Step(ss[i], ss[i + 1])
  }

  ghost predicate Run(ss: seq<System>)
  {
    ss != [] && ss[0] == START && forall i {:trigger StepAt(ss, i)} :: 0 <= i < |ss| - 1 ==> StepAt(ss, i)
  }

  lemma {:induction false} RunInv(ss: seq<System>, n: nat)
    requires Run(ss) && n < |ss|
    ensures Inv(ss[n])
  {
    if n == 0 {
      StartInv();
    } else {
      RunInv(ss, n - 1);
      assert StepAt(ss, n - 1);
      StepInv(ss[n - 1], ss[n]);
    }
  }

  /** At every moment of every run, a job has run at most once and its callback was issued exactly if it is over. */
  lemma RunsOnce(ss: seq<System>, n: nat, id: ID)
    requires Run(ss) && n < |ss| && id in ss[n].jobs
    ensures ss[n].jobs[id].runs <= 1
    ensures ss[n].jobs[id].callbacks == if Over(ss[n].jobs[id]) then 1 else 0
    ensures ss[n].jobs[id].state.JobFinished? ==> ss[n].jobs[id].runs == 1
  {
    RunInv(ss, n);
  }

  /** A job that is over stays as it is. */
  lemma OverStep(s: System, s': System, id: ID)
    requires Inv(s) && Step(s, s') && id in s.jobs && Over(s.jobs[id])
    ensures id in s'.jobs && s'.jobs[id] == s.jobs[id]
  {
  }

  lemma {:induction false} OverForGood(ss: seq<System>, m: nat, n: nat, id: ID)
    requires Run(ss) && m <= n < |ss| && id in ss[m].jobs && Over(ss[m].jobs[id])
    ensures id in ss[n].jobs && ss[n].jobs[id] == ss[m].jobs[id]
    decreases n
  {
    if m < n {
      OverForGood(ss, m, n - 1, id);
      RunInv(ss, n - 1);
      assert StepAt(ss, n - 1);
      OverStep(ss[n - 1], ss[n], id);
    }
  }

  /** A step that aborts job `id`, by its number or as one of all. */
  ghost predicate Aborts(s: System, s': System, id: ID)
  {
    id in s.jobs && ((id in s.table && AbortOne(s, s', id)) || AbortNext(s, s', id))
  }

  /** A job aborted before it was started is never run. */
  lemma AbortedNeverRuns(ss: seq<System>, m: nat, n: nat, id: ID)
    requires Run(ss) && m < n < |ss| && Aborts(ss[m], ss[m + 1], id) && ss[m].jobs[id].state.JobScheduled?
    ensures id in ss[n].jobs && ss[n].jobs[id].state.JobAborted?
    ensures ss[n].jobs[id].runs == 0 && ss[n].jobs[id].callbacks == 1
  {
    RunInv(ss, m);
    OverForGood(ss, m + 1, n, id);
  }

  ghost predicate AbortsAt(ss: seq<System>, k: int, id: ID)
    requires 0 <= k < |ss| - 1
  {
    Aborts(ss[k], ss[k + 1], id)
  }

  lemma AbortsLeftStep(s: System, s': System, id: ID)
    requires Step(s, s') && s.loop.Aborting? && s'.loop.Aborting? && id in s.loop.ids
    ensures id in s'.loop.ids || Aborts(s, s', id)
  {
  }

  /** While all are being aborted, each of those known is still to be, or has been. */
  lemma {:induction false} AbortsLeft(ss: seq<System>, m: nat, n: nat, id: ID)
    requires Run(ss) && m < n < |ss| && AbortAll(ss[m], ss[m + 1]) && id in ss[m].table
    requires forall k {:trigger ss[k]} :: m < k <= n ==> ss[k].loop.Aborting?
    ensures id in ss[n].loop.ids || exists k {:trigger AbortsAt(ss, k, id)} :: m < k < n && AbortsAt(ss, k, id)
    decreases n
  {
    if n > m + 1 {
      AbortsLeft(ss, m, n - 1, id);
      if id in ss[n - 1].loop.ids {
        assert StepAt(ss, n - 1);
        AbortsLeftStep(ss[n - 1], ss[n], id);
        assert id in ss[n].loop.ids || AbortsAt(ss, n - 1, id);
      }
    }
  }

  /** In every run, an abort of all that has ended has aborted every job that was not over when it began. */
  lemma AllAborted(ss: seq<System>, m: nat, n: nat, id: ID)
    requires Run(ss) && m < n < |ss| - 1 && AbortAll(ss[m], ss[m + 1]) && AbortEnd(ss[n], ss[n + 1])
    requires forall k {:trigger ss[k]} :: m < k <= n ==> ss[k].loop.Aborting?
    requires id in ss[m].jobs && !Over(ss[m].jobs[id])
    ensures exists k {:trigger AbortsAt(ss, k, id)} :: m < k < n && AbortsAt(ss, k, id)
  {
    KnownUntilOver(ss, m, id);
    AbortsLeft(ss, m, n, id);
  }

  // ---------------------------------------------------------------- how a job that ran ends

  /** A runner takes job `id` from scheduled to running. */
  ghost predicate Starts(s: System, s': System, id: ID)
  {
    && id in s.jobs && s.jobs[id].state.JobScheduled?
    && exists r: nat :: Start(s, s', r) && s.runners[r] == Picked(id)
  }

  /** At step `k` a runner is running job `id`, and the step aborts it. */
  ghost predicate AbortedAt(ss: seq<System>, k: int, id: ID)
    requires 0 <= k < |ss| - 1
  {
    Held(ss[k], id) && Aborts(ss[k], ss[k + 1], id)
  }

  /** It is aborted while it runs, after step `m` and before moment `n`. */
  ghost predicate AbortedIn(ss: seq<System>, m: nat, n: nat, id: ID)
    requires n < |ss|
  {
    exists k {:trigger AbortedAt(ss, k, id)} :: m < k < n && AbortedAt(ss, k, id)
  }

  lemma AbortedMore(ss: seq<System>, m: nat, n: nat, id: ID)
    requires m < n < |ss| - 1
    ensures AbortedIn(ss, m, n + 1, id) <==> AbortedIn(ss, m, n, id) || AbortedAt(ss, n, id)
  {
    if AbortedIn(ss, m, n + 1, id) {
      var k :| m < k < n + 1 && AbortedAt(ss, k, id);
      assert k < n || k == n;
    }
  }

  lemma RunningLoop(s: System, s': System, id: ID)
    requires LoopStep(s, s') && id in s.jobs && s.jobs[id].state.JobStarted?
    ensures id in s'.jobs && s'.jobs[id].state.JobStarted?
    ensures s'.jobs[id].cancelled == (s.jobs[id].cancelled || Aborts(s, s', id))
  {
  }

  lemma RunningRunner(s: System, s': System, r: nat, id: ID)
    requires Inv(s) && RunnerStep(s, s', r) && id in s.jobs && s.jobs[id].state.JobStarted?
    ensures id in s'.jobs && (s'.jobs[id].state.JobStarted? || Over(s'.jobs[id]))
    ensures s'.jobs[id].state.JobStarted? ==> s'.jobs[id].cancelled == s.jobs[id].cancelled
    ensures Over(s'.jobs[id]) ==> (s'.jobs[id].state.JobAborted? <==> s.jobs[id].cancelled)
    ensures !Aborts(s, s', id)
  {
  }

  /** What one step can make of a job that is running. */
  lemma RunningStep(s: System, s': System, id: ID)
    requires Inv(s) && Step(s, s') && id in s.jobs && s.jobs[id].state.JobStarted?
    ensures id in s'.jobs && (s'.jobs[id].state.JobStarted? || Over(s'.jobs[id])) && Held(s, id)
    ensures Aborts(s, s', id) ==> s'.jobs[id].state.JobStarted? && s'.jobs[id].cancelled
    ensures !Aborts(s, s', id) && s'.jobs[id].state.JobStarted? ==> s'.jobs[id].cancelled == s.jobs[id].cancelled
    ensures Over(s'.jobs[id]) ==> (s'.jobs[id].state.JobAborted? <==> s.jobs[id].cancelled)
  {
    assert Placed(s, id);
    if LoopStep(s, s') {
      RunningLoop(s, s', id);
    } else {
      var r: nat :| RunnerStep(s, s', r);
      RunningRunner(s, s', r, id);
    }
  }

  ghost predicate EndsAs(ss: seq<System>, m: nat, n: nat, id: ID)
    requires m < n < |ss|
  {
    && id in ss[n].jobs && !ss[n].jobs[id].state.JobScheduled?
    && (ss[n].jobs[id].state.JobStarted? ==> (ss[n].jobs[id].cancelled <==> AbortedIn(ss, m, n, id)))
    && (Over(ss[n].jobs[id]) ==> (ss[n].jobs[id].state.JobAborted? <==> AbortedIn(ss, m, n, id)))
  }

  lemma {:induction false} EndsAsRun(ss: seq<System>, m: nat, n: nat, id: ID)
    requires Run(ss) && m < n < |ss| && Starts(ss[m], ss[m + 1], id)
    ensures EndsAs(ss, m, n, id)
    decreases n
  {
    if n == m + 1 {
      RunInv(ss, m);
    } else {
      EndsAsRun(ss, m, n - 1, id);
      RunInv(ss, n - 1);
      assert StepAt(ss, n - 1);
      AbortedMore(ss, m, n - 1, id);
      if Over(ss[n - 1].jobs[id]) {
        OverStep(ss[n - 1], ss[n], id);
        OverNotHeld(ss[n - 1], id);
      } else {
        RunningStep(ss[n - 1], ss[n], id);
      }
    }
  }

  lemma OverNotHeld(s: System, id: ID)
    requires Inv(s) && id in s.jobs && Over(s.jobs[id])
    ensures !Held(s, id)
  {
  }

  /**
   * In every run, a job that was started and is over ended as aborted if and only if a step aborted it, by
   * its number or as one of all, while it was running; otherwise it has finished.
   */
  lemma EndedAborted(ss: seq<System>, m: nat, n: nat, id: ID)
    requires Run(ss) && m < n < |ss| && Starts(ss[m], ss[m + 1], id) && id in ss[n].jobs && Over(ss[n].jobs[id])
    ensures ss[n].jobs[id].state.JobAborted? <==> AbortedIn(ss, m, n, id)
    ensures ss[n].jobs[id].state.JobFinished? <==> !AbortedIn(ss, m, n, id)
  {
    EndsAsRun(ss, m, n, id);
  }

  /** When the scheduling loop and all runners have ended, every job ever accepted is finished or aborted. */
  lemma StoppedAllOver(ss: seq<System>, n: nat, id: ID)
    requires Run(ss) && n < |ss| && id in ss[n].jobs && ss[n].loop.Exited?
    requires forall r: nat :: r < |ss[n].runners| ==> ss[n].runners[r].Joined?
    ensures Over(ss[n].jobs[id]) && ss[n].jobs[id].callbacks == 1
  {
    RunInv(ss, n);
    assert ss[n].runners[0].Joined?;
    assert Placed(ss[n], id);
  }

  /** No job is lost from the table before it is over: it can be aborted by number until then. */
  lemma KnownUntilOver(ss: seq<System>, n: nat, id: ID)
    requires Run(ss) && n < |ss| && id in ss[n].jobs && !Over(ss[n].jobs[id])
    ensures id in ss[n].table
    decreases n
  {
    if n > 0 {
      RunInv(ss, n - 1);
      assert StepAt(ss, n - 1);
      if id in ss[n - 1].jobs {
        if Over(ss[n - 1].jobs[id]) { OverStep(ss[n - 1], ss[n], id); }
        KnownUntilOver(ss, n - 1, id);
        KnownStep(ss[n - 1], ss[n], id);
      } else {
        KnownStep(ss[n - 1], ss[n], id);
      }
    }
  }

  lemma KnownStep(s: System, s': System, id: ID)
    requires Step(s, s') && id in s'.jobs && !Over(s'.jobs[id]) && (id in s.jobs ==> id in s.table)
    ensures id in s'.table
  {
  }
}
