/** SQLiteQueue: callers, cancellers, the database thread and the reincarnator, over all interleavings. */
module Queues {
  import opened Common
  import opened Jobs

  type JobId = nat

  /** The fields protected by myLock. */
  datatype Shared = Shared(jobs: seq<JobId>, current: Option<JobId>, thread: Option<Thread>,
                           stopRequested: bool, stopRequired: bool)

  const NEW_QUEUE: Shared := Shared([], None, None, false, false)

  /** What the database thread does after it has looked at the queue. */
  datatype Selection = Exit | Run(job: JobId) | Wait

  // ---- the synchronized blocks ----

  function StartBlock(q: Shared, thread: Thread): (Shared, bool) {
    if q.thread.Some? || q.stopRequested then (q, false) else (q.(thread := Some(thread)), true)
  }

  function StopBlock(q: Shared, gracefully: bool): (Shared, Option<JobId>) {
    var q' := q.(stopRequired := q.stopRequired || !gracefully, stopRequested := true);
    (q', if !q.stopRequested && q'.stopRequired then q.current else None)
  }

  function ExecuteBlock(q: Shared, job: JobId): (Shared, bool) {
    if q.stopRequested then (q, true) else (q.(jobs := q.jobs + [job]), false)
  }

  function SelectBlock(q: Shared): (Shared, Selection) {
    if q.stopRequested && (q.stopRequired || q.jobs == []) then (q.(current := None), Exit)
    else if q.jobs == [] then (q.(current := None), Wait)
    else (q.(jobs := q.jobs[1..], current := Some(q.jobs[0])), Run(q.jobs[0]))
  }

  function StoppedBlock(q: Shared, reincarnationPossible: bool): (Shared, bool, seq<JobId>) {
    if !q.stopRequested && reincarnationPossible then (q.(thread := None), true, [])
    else (q.(thread := None, stopRequested := true, jobs := []), false, q.jobs)
  }

  class SQLiteQueue {
    var myJobs: seq<JobId>
    var myCurrentJob: Option<JobId>
    var myThread: Option<Thread>
    var myStopRequested: bool
    var myStopRequired: bool

    ghost function Snapshot(): Shared
      reads this
    {
      Shared(myJobs, myCurrentJob, myThread, myStopRequested, myStopRequired)
    }

    constructor ()
      ensures Snapshot() == NEW_QUEUE
    {
      myJobs, myCurrentJob, myThread := [], None, None;
      myStopRequested, myStopRequired := false, false;
    }

    /** The synchronized block of start; the thread factory has made `thread`. */
    method Start(thread: Thread) returns (started: bool)
      modifies this
      ensures (Snapshot(), started) == StartBlock(old(Snapshot()), thread)
      ensures started <==> old(myThread) == None && !old(myStopRequested)
      ensures !started ==> unchanged(this)
      ensures started ==> Snapshot() == old(Snapshot()).(thread := Some(thread))
    {
      if myThread.Some? || myStopRequested {
        return false;
      }
      myThread := Some(thread);
      return true;
    }

    /** The synchronized block of stop; the answer is the job to cancel. */
    method Stop(gracefully: bool) returns (currentJob: Option<JobId>)
      modifies this
      ensures (Snapshot(), currentJob) == StopBlock(old(Snapshot()), gracefully)
      ensures myStopRequested && (myStopRequired <==> old(myStopRequired) || !gracefully)
      ensures myJobs == old(myJobs) && myCurrentJob == old(myCurrentJob) && myThread == old(myThread)
      ensures currentJob == if old(myStopRequested) || !myStopRequired then None else old(myCurrentJob)
    {
      currentJob := None;
      if !gracefully {
        myStopRequired := true;
      }
      if myStopRequested {
        return;
      }
      myStopRequested := true;
      if myStopRequired {
        currentJob := myCurrentJob;
      }
    }

    /** The synchronized block of execute. */
    method Execute(job: JobId) returns (cancel: bool)
      modifies this
      ensures (Snapshot(), cancel) == ExecuteBlock(old(Snapshot()), job)
      ensures cancel <==> old(myStopRequested)
      ensures cancel ==> unchanged(this)
      ensures !cancel ==> Snapshot() == old(Snapshot()).(jobs := old(myJobs) + [job])
    {
      cancel := false;
      if myStopRequested {
        cancel := true;
      } else {
        myJobs := myJobs + [job];
      }
    }

    method SelectJob() returns (r: Option<JobId>)
      modifies this`myJobs
      ensures r == if old(myJobs) == [] then None else Some(old(myJobs)[0])
      ensures myJobs == if old(myJobs) == [] then [] else old(myJobs)[1..]
    {
      if myJobs == [] {
        return None;
      }
      r := Some(myJobs[0]);
      myJobs := myJobs[1..];
    }

    /** The synchronized block of queueFunction, up to a wait. */
    method NextJob() returns (r: Selection)
      modifies this
      ensures (Snapshot(), r) == SelectBlock(old(Snapshot()))
      ensures r == Exit <==> myStopRequested && (myStopRequired || old(myJobs) == [])
      ensures r == Wait <==> !myStopRequested && old(myJobs) == []
      ensures r.Run? ==> old(myJobs) == [r.job] + myJobs && myCurrentJob == Some(r.job)
      ensures !r.Run? ==> myJobs == old(myJobs) && myCurrentJob == None
      ensures myThread == old(myThread)
      ensures myStopRequested == old(myStopRequested) && myStopRequired == old(myStopRequired)
    {
      myCurrentJob := None;
      if myStopRequested && (myStopRequired || myJobs == []) {
        return Exit;
      }
      var job := SelectJob();
      if job.Some? {
        myCurrentJob := job;
        return Run(job.value);
      }
      return Wait;
    }

    /** The synchronized block of threadStopped. */
    method ThreadStopped(reincarnationPossible: bool) returns (reincarnate: bool, droppedJobs: seq<JobId>)
      modifies this
      ensures (Snapshot(), reincarnate, droppedJobs) == StoppedBlock(old(Snapshot()), reincarnationPossible)
      ensures reincarnate <==> !old(myStopRequested) && reincarnationPossible
      ensures myStopRequested <==> !reincarnate
      ensures reincarnate ==> myJobs == old(myJobs) && droppedJobs == []
      ensures !reincarnate ==> myJobs == [] && droppedJobs == old(myJobs)
      ensures myThread == None && myCurrentJob == old(myCurrentJob) && myStopRequired == old(myStopRequired)
    {
      reincarnate, droppedJobs := !myStopRequested, [];
      if reincarnate && !reincarnationPossible {
        reincarnate := false;
        myStopRequested := true;
      }
      if !reincarnate {
        droppedJobs := myJobs;
        myJobs := [];
      }
      myThread := None;
    }
  }

  // ---- all threads together ----

  /** Where a thread stands. */
  datatype QPc =
    | Resting
    | Cancelling(todo: seq<JobId>)              // has jobs to cancel
    | InCancel(cancelled: JobId, todo: seq<JobId>)
    | Starting(created: Thread)                 // start has left the lock, the new thread does not run yet
    | Created(creator: Thread)                  // a database thread that does not run yet
    | Opening                                   // queueFunction opens the connection
    | AtLock                                    // queueFunction is about to take the lock
    | Selected(selected: JobId)
    | InExecute(executed: JobId)
    | Exiting(normal: bool)                     // queueFunction has ended
    | Reincarnating                             // is about to create the reincarnator
    | Reviving                                  // the reincarnator waits
    | Restarting                                // the reincarnator is about to call start

  datatype Step =
    | CallStart(thread: Thread)
    | RunThread
    | CallStop(gracefully: bool)
    | CallExecute(job: JobId)
    | CallCancel(target: JobId, mayInterrupt: bool)
    | CancelNext
    | OpenConnection(connection: Option<nat>, ok: bool)
    | TakeLock(interrupted: bool)
    | RunJob
    | InJob(action: Action)
    | Return(threadDeath: bool)
    | StopThread(reincarnationPossible: bool)
    | Reincarnate(reincarnator: Thread)
    | Wake(interrupted: bool)

  /** The queue, its threads and jobs, and what has happened: the jobs accepted, selected, dropped and rejected, those
      whose cancellation was given up because a callback died, whether the thread has stopped for good, whether any
      database thread has ended other than by the exit of its loop, and the requests to stop. */
  datatype Queue = Queue(q: Shared, pcs: map<Thread, QPc>, jobs: map<JobId, World>, connection: Option<nat>,
                         accepted: seq<JobId>, selected: seq<JobId>, dropped: seq<JobId>, rejected: seq<JobId>,
                         abandoned: seq<JobId>, stopped: bool, abnormal: bool, requests: Requests)

  /** Whether stop was called, whether it was called not to be graceful, and whether a database thread that ended
      without a stop could not be replaced. */
  datatype Requests = Requests(stop: bool, atOnce: bool, unreplaced: bool)

  const NEW: Queue :=
    Queue(NEW_QUEUE, map[], map[], None, [], [], [], [], [], false, false, Requests(false, false, false))

  function At(w: Queue, t: Thread): QPc {
    if t in w.pcs then w.pcs[t] else Resting
  }

  function JobOf(w: Queue, j: JobId): World {
    if j in w.jobs then w.jobs[j] else NEW_WORLD
  }

  function Move(w: Queue, t: Thread, pc: QPc): Queue {
    w.(pcs := w.pcs[t := pc])
  }

  function Act(w: Queue, j: JobId, t: Thread, a: Action): (w': Queue)
    ensures w' == w.(jobs := w'.jobs)
  {
    w.(jobs := w.jobs[j := Next(JobOf(w, j), t, a)])
  }

  function Todo(todo: seq<JobId>): QPc {
    if todo == [] then Resting else Cancelling(todo)
  }

  predicate Unused(w: Queue, t: Thread, other: Thread) {
    other != t && other !in w.pcs
  }

  // ---- the steps; one that the thread cannot take now changes nothing ----

  function CalledStart(w: Queue, t: Thread, d: Thread): Queue {
    if (At(w, t).Resting? || At(w, t).Restarting?) && Unused(w, t, d) then
      var (q, started) := StartBlock(w.q, d);
      if started then Move(Move(w, d, Created(t)), t, Starting(d)).(q := q) else Move(w, t, Resting)
    else w
  }

  function RanThread(w: Queue, t: Thread): Queue {
    if At(w, t).Starting? then Move(Move(w, At(w, t).created, Opening), t, Resting) else w
  }

  function CalledStop(w: Queue, t: Thread, gracefully: bool): Queue {
    if At(w, t).Resting? then
      var (q, current) := StopBlock(w.q, gracefully);
      Move(w, t, if current.Some? then Cancelling([current.value]) else Resting)
        .(q := q, requests := w.requests.(stop := true, atOnce := w.requests.atOnce || !gracefully))
    else w
  }

  function CalledExecute(w: Queue, t: Thread, j: JobId): Queue {
    if At(w, t).Resting? then
      var (q, cancel) := ExecuteBlock(w.q, j);
      if cancel then Move(w, t, Cancelling([j])).(q := q, rejected := w.rejected + [j])
      else w.(q := q, accepted := w.accepted + [j])
    else w
  }

  function CalledCancel(w: Queue, t: Thread, j: JobId, may: bool): Queue {
    if At(w, t).Resting? then Move(Act(w, j, t, Cancel(may)), t, InCancel(j, [])) else w
  }

  function CancelledNext(w: Queue, t: Thread): Queue {
    if At(w, t).Cancelling? && At(w, t).todo != [] then
      var todo := At(w, t).todo;
      Move(Act(w, todo[0], t, Cancel(true)), t, InCancel(todo[0], todo[1..]))
    else w
  }

  function Opened(w: Queue, t: Thread, c: Option<nat>, ok: bool): Queue {
    if At(w, t).Opening? then Move(w, t, if ok && c.Some? then AtLock else Exiting(false)).(connection := c) else w
  }

  function TookLock(w: Queue, t: Thread, interrupted: bool): Queue {
    if !At(w, t).AtLock? then w
    else if interrupted then Move(w, t, Exiting(false))
    else
      var (q, r) := SelectBlock(w.q);
      match r
      case Exit => Move(w, t, Exiting(true)).(q := q)
      case Run(j) => Move(w, t, Selected(j)).(q := q, selected := w.selected + [j])
      case Wait => w.(q := q)
  }

  function RanJob(w: Queue, t: Thread): Queue {
    if At(w, t).Selected? && w.connection.Some? then
      Move(Act(w, At(w, t).selected, t, Execute(w.connection.value, Some(0))), t, InExecute(At(w, t).selected))
    else w
  }

  function SteppedInJob(w: Queue, t: Thread, a: Action): Queue {
    if a.Cancel? || a.Execute? then w
    else if At(w, t).InExecute? then Act(w, At(w, t).executed, t, a)
    else if At(w, t).InCancel? then Act(w, At(w, t).cancelled, t, a)
    else w
  }

  function Returned(w: Queue, t: Thread, threadDeath: bool): Queue {
    if At(w, t).InExecute? && PcOf(JobOf(w, At(w, t).executed), t).Idle? then
      Move(w, t, if threadDeath then Exiting(false) else AtLock)
    else if At(w, t).InCancel? && PcOf(JobOf(w, At(w, t).cancelled), t).Idle? then
      if threadDeath then Move(w, t, Resting).(abandoned := w.abandoned + At(w, t).todo)
      else Move(w, t, Todo(At(w, t).todo))
    else w
  }

  function StoppedThread(w: Queue, t: Thread, possible: bool): Queue {
    if At(w, t).Exiting? then
      var (q, reincarnate, dropped) := StoppedBlock(w.q, possible);
      Move(w, t, if reincarnate then Reincarnating else Todo(dropped))
        .(q := q, connection := None, dropped := w.dropped + dropped, stopped := w.stopped || !reincarnate,
          abnormal := w.abnormal || !At(w, t).normal,
          requests := w.requests.(unreplaced := w.requests.unreplaced || (!w.q.stopRequested && !possible)))
    else w
  }

  function Reincarnated(w: Queue, t: Thread, r: Thread): Queue {
    if At(w, t).Reincarnating? && Unused(w, t, r) then Move(Move(w, r, Reviving), t, Resting) else w
  }

  function Woke(w: Queue, t: Thread, interrupted: bool): Queue {
    if At(w, t).Reviving? then Move(w, t, if w.q.stopRequested || interrupted then Resting else Restarting) else w
  }

  /** Whatever a job's body or a callback calls is a step of some thread at rest. */
  function QNext(w: Queue, t: Thread, s: Step): Queue {
    match s
    case CallStart(d) => CalledStart(w, t, d)
    case RunThread => RanThread(w, t)
    case CallStop(gracefully) => CalledStop(w, t, gracefully)
    case CallExecute(j) => CalledExecute(w, t, j)
    case CallCancel(j, may) => CalledCancel(w, t, j, may)
    case CancelNext => CancelledNext(w, t)
    case OpenConnection(c, ok) => Opened(w, t, c, ok)
    case TakeLock(interrupted) => TookLock(w, t, interrupted)
    case RunJob => RanJob(w, t)
    case InJob(a) => SteppedInJob(w, t, a)
    case Return(threadDeath) => Returned(w, t, threadDeath)
    case StopThread(possible) => StoppedThread(w, t, possible)
    case Reincarnate(r) => Reincarnated(w, t, r)
    case Wake(interrupted) => Woke(w, t, interrupted)
  }

  /** Every interleaving is some run. */
  type Steps = seq<(Thread, Step)>

  function Reach(s: Steps): Queue {
    if s == [] then NEW else QNext(Reach(s[..|s| - 1]), s[|s| - 1].0, s[|s| - 1].1)
  }

  // ---- what every step keeps ----

  /** The thread is a database thread that has not passed the lock of threadStopped. */
  predicate IsDatabase(pc: QPc) {
    pc.Created? || pc.Opening? || pc.AtLock? || pc.Selected? || pc.InExecute? || pc.Exiting?
  }

  /** What holds of each thread: the database thread of myThread is the only one; it has a connection while it takes,
      selects and executes jobs; the job it executes is myCurrentJob; it leaves its loop in order. */
  predicate ThreadOk(w: Queue, t: Thread) {
    var pc := At(w, t);
    && (IsDatabase(pc) ==> w.q.thread == Some(t))
    && (pc.AtLock? || pc.Selected? || pc.InExecute? ==> w.connection.Some?)
    && (pc.Selected? ==> w.q.current == Some(pc.selected) && pc.selected in w.selected)
    && (pc.InExecute? ==> w.q.current == Some(pc.executed) && pc.executed in w.selected)
    && (pc == Exiting(true) ==> w.q.stopRequested && (w.q.stopRequired || w.q.jobs == []))
    && (pc.Starting? ==> At(w, pc.created) == Created(t))
  }

  ghost predicate Threads(w: Queue) {
    && (forall t: Thread :: ThreadOk(w, t))
    && (w.q.thread.Some? ==> IsDatabase(At(w, w.q.thread.value)))
    && (w.connection.Some? ==>
          w.q.thread.Some? && !At(w, w.q.thread.value).Created? && !At(w, w.q.thread.value).Opening?)
  }

  /** Every accepted job is selected, dropped or pending, in the order of acceptance. */
  predicate Accounted(w: Queue) {
    && w.accepted == w.selected + w.dropped + w.q.jobs
    && (w.dropped != [] ==>
          w.stopped && (w.requests.atOnce || (w.abnormal && (w.requests.stop || w.requests.unreplaced))))
    && (w.stopped ==> w.q.stopRequested && w.q.jobs == [] && w.q.thread.None?)
    && (w.q.stopRequested <==> w.requests.stop || w.requests.unreplaced)
    && (w.q.stopRequired <==> w.requests.atOnce) && (w.requests.atOnce ==> w.requests.stop)
    && (w.requests.unreplaced ==> w.stopped)
  }

  /** A thread is inside a job only while it executes or cancels it. */
  predicate Inside(pc: QPc, j: JobId, at: Pc, f: Fields) {
    || at.Idle?
    || pc == InExecute(j)
    || (pc.InCancel? && pc.cancelled == j && (AfterFinish(at) || (at.Finishing? && !f.state.RUNNING?)))
  }

  ghost predicate JobsOk(w: Queue) {
    && (forall j: JobId :: Inv(JobOf(w, j)))
    && (forall j: JobId, t: Thread :: InsideOk(w, j, t))
  }

  predicate InsideOk(w: Queue, j: JobId, t: Thread) {
    Inside(At(w, t), j, PcOf(JobOf(w, j), t), JobOf(w, j).job)
  }

  predicate Owes(pc: QPc, j: JobId) {
    (pc.Cancelling? && j in pc.todo) || (pc.InCancel? && j in pc.todo)
  }

  /** Some thread has yet to cancel the job. */
  ghost predicate Owed(w: Queue, j: JobId) {
    exists t: Thread :: Owes(At(w, t), j)
  }

  /** A job that was selected, dropped or rejected has left PENDING, or is about to. */
  ghost predicate Handled(w: Queue) {
    forall j: JobId :: JobOf(w, j).job.state.PENDING? ==> HandledOk(w, j)
  }

  ghost predicate HandledOk(w: Queue, j: JobId) {
    && (j in w.selected ==> HasSelected(w, j))
    && (Concerns(w, j) ==> j in w.abandoned || Owed(w, j))
  }

  /** What does not speak of the jobs themselves. */
  ghost predicate Protocol(w: Queue) {
    Threads(w) && Accounted(w)
  }

  ghost predicate QInv(w: Queue) {
    Protocol(w) && JobsOk(w) && Handled(w)
  }

  lemma {:induction false} AllOk(w: Queue, t: Thread)
    requires Threads(w)
    ensures ThreadOk(w, t)
  {
  }

  /** One thread moves, within the database thread's work or outside it; nothing it shares changes. */
  lemma {:induction false} MoveKeeps(w: Queue, t: Thread, pc: QPc, jobs: map<JobId, World>, abandoned: seq<JobId>)
    requires Protocol(w) && IsDatabase(pc) == IsDatabase(At(w, t))
    requires !At(w, t).Created? && !At(w, t).Opening? && !pc.Created? && !pc.Opening? && !pc.Starting?
    requires ThreadOk(Move(w, t, pc), t)
    ensures Protocol(Move(w, t, pc).(jobs := jobs, abandoned := abandoned))
  {
    var w' := Move(w, t, pc).(jobs := jobs, abandoned := abandoned);
    SameBooks(w, w');
    hide IsDatabase, Accounted;
    forall x: Thread
      ensures ThreadOk(w', x)
    {
      assert ThreadOk(w, x);
    }
  }

  lemma {:induction false} SameBooks(w: Queue, w': Queue)
    requires Accounted(w) && w'.q == w.q && w'.accepted == w.accepted && w'.selected == w.selected
    requires w'.dropped == w.dropped && w'.stopped == w.stopped && w'.abnormal == w.abnormal
    requires w'.requests == w.requests
    ensures Accounted(w')
  {
  }

  lemma {:induction false} CalledStartKeeps(w: Queue, t: Thread, d: Thread)
    requires Protocol(w)
    ensures Protocol(CalledStart(w, t, d))
  {
    hide Next, Jobs.PcOf;
    var w' := CalledStart(w, t, d);
    assert ThreadOk(w, t) && (w.q.thread.Some? ==> ThreadOk(w, w.q.thread.value));
    forall x: Thread
      ensures ThreadOk(w', x)
    {
      assert ThreadOk(w, x);
    }
  }

  lemma {:induction false} RanThreadKeeps(w: Queue, t: Thread)
    requires Protocol(w)
    ensures Protocol(RanThread(w, t))
  {
    hide Next, Jobs.PcOf;
    var w' := RanThread(w, t);
    SameBooks(w, w');
    hide Accounted, JobOf;
    assert ThreadOk(w, t) && (w.q.thread.Some? ==> ThreadOk(w, w.q.thread.value));
    forall x: Thread
      ensures ThreadOk(w', x)
    {
      assert ThreadOk(w, x);
    }
  }

  lemma {:induction false} CalledStopKeeps(w: Queue, t: Thread, gracefully: bool)
    requires Protocol(w)
    ensures Protocol(CalledStop(w, t, gracefully))
  {
    hide Next, Jobs.PcOf;
    var w' := CalledStop(w, t, gracefully);
    assert ThreadOk(w, t) && (w.q.thread.Some? ==> ThreadOk(w, w.q.thread.value));
    forall x: Thread
      ensures ThreadOk(w', x)
    {
      assert ThreadOk(w, x);
    }
  }

  lemma {:induction false} CalledExecuteKeeps(w: Queue, t: Thread, j: JobId)
    requires Protocol(w)
    ensures Protocol(CalledExecute(w, t, j))
  {
    hide Next, Jobs.PcOf;
    var w' := CalledExecute(w, t, j);
    assert ThreadOk(w, t) && (w.q.thread.Some? ==> ThreadOk(w, w.q.thread.value));
    forall x: Thread
      ensures ThreadOk(w', x)
    {
      assert ThreadOk(w, x);
    }
  }

  lemma {:induction false} CalledCancelKeeps(w: Queue, t: Thread, j: JobId, may: bool)
    requires Protocol(w)
    ensures Protocol(CalledCancel(w, t, j, may))
  {
    hide Act, Jobs.PcOf, JobOf, Accounted, Threads;
    var w' := CalledCancel(w, t, j, may);
    AllOk(w, t);
    if w' != w {
      MoveKeeps(w, t, At(w', t), w'.jobs, w'.abandoned);
    }
  }

  lemma {:induction false} CancelledNextKeeps(w: Queue, t: Thread)
    requires Protocol(w)
    ensures Protocol(CancelledNext(w, t))
  {
    hide Act, Jobs.PcOf, JobOf, Accounted, Threads;
    var w' := CancelledNext(w, t);
    AllOk(w, t);
    if w' != w {
      MoveKeeps(w, t, At(w', t), w'.jobs, w'.abandoned);
    }
  }

  lemma {:induction false} OpenedKeeps(w: Queue, t: Thread, c: Option<nat>, ok: bool)
    requires Protocol(w)
    ensures Protocol(Opened(w, t, c, ok))
  {
    hide Next, Jobs.PcOf;
    var w' := Opened(w, t, c, ok);
    SameBooks(w, w');
    hide Accounted, JobOf;
    assert ThreadOk(w, t) && (w.q.thread.Some? ==> ThreadOk(w, w.q.thread.value));
    forall x: Thread
      ensures ThreadOk(w', x)
    {
      assert ThreadOk(w, x);
    }
  }

  lemma {:induction false} TookLockAccounts(w: Queue, t: Thread, interrupted: bool)
    requires Protocol(w)
    ensures Accounted(TookLock(w, t, interrupted))
  {
    assert ThreadOk(w, t);
    hide Threads, ThreadOk, Next;
    if w.q.jobs != [] {
      assert w.q.jobs == [w.q.jobs[0]] + w.q.jobs[1..];
    }
  }

  lemma {:induction false} TookLockKeeps(w: Queue, t: Thread, interrupted: bool)
    requires Protocol(w)
    ensures Protocol(TookLock(w, t, interrupted))
  {
    TookLockAccounts(w, t, interrupted);
    hide Next, Jobs.PcOf, Accounted;
    var w' := TookLock(w, t, interrupted);
    assert ThreadOk(w, t) && (w.q.thread.Some? ==> ThreadOk(w, w.q.thread.value));
    forall x: Thread
      ensures ThreadOk(w', x)
    {
      assert ThreadOk(w, x);
    }
  }

  lemma {:induction false} RanJobKeeps(w: Queue, t: Thread)
    requires Protocol(w)
    ensures Protocol(RanJob(w, t))
  {
    hide Act, Jobs.PcOf, JobOf, Accounted, Threads;
    var w' := RanJob(w, t);
    AllOk(w, t);
    if w' != w {
      MoveKeeps(w, t, At(w', t), w'.jobs, w'.abandoned);
    }
  }

  lemma {:induction false} SteppedInJobKeeps(w: Queue, t: Thread, a: Action)
    requires Protocol(w)
    ensures Protocol(SteppedInJob(w, t, a))
  {
    hide Act, ThreadOk, Accounted;
    var w' := SteppedInJob(w, t, a);
    assert w' == w.(jobs := w'.jobs);
    SameBooks(w, w');
    forall x: Thread
      ensures ThreadOk(w', x)
    {
      assert ThreadOk(w, x);
      SkipsJobs(w, w'.jobs, x);
    }
  }

  lemma {:induction false} SkipsJobs(w: Queue, jobs: map<JobId, World>, x: Thread)
    requires ThreadOk(w, x)
    ensures ThreadOk(w.(jobs := jobs), x)
  {
  }

  lemma {:induction false} ReturnedKeeps(w: Queue, t: Thread, threadDeath: bool)
    requires Protocol(w)
    ensures Protocol(Returned(w, t, threadDeath))
  {
    hide Act, Jobs.PcOf, JobOf, Accounted, Threads;
    var w' := Returned(w, t, threadDeath);
    AllOk(w, t);
    if w' != w {
      MoveKeeps(w, t, At(w', t), w'.jobs, w'.abandoned);
    }
  }

  lemma {:induction false} StoppedThreadKeeps(w: Queue, t: Thread, possible: bool)
    requires Protocol(w)
    ensures Protocol(StoppedThread(w, t, possible))
  {
    hide Next, Jobs.PcOf;
    var w' := StoppedThread(w, t, possible);
    assert ThreadOk(w, t) && (w.q.thread.Some? ==> ThreadOk(w, w.q.thread.value));
    forall x: Thread
      ensures ThreadOk(w', x)
    {
      assert ThreadOk(w, x);
    }
  }

  lemma {:induction false} ReincarnatedKeeps(w: Queue, t: Thread, r: Thread)
    requires Protocol(w)
    ensures Protocol(Reincarnated(w, t, r))
  {
    hide Next, Jobs.PcOf;
    var w' := Reincarnated(w, t, r);
    SameBooks(w, w');
    hide Accounted, JobOf;
    assert ThreadOk(w, t) && (w.q.thread.Some? ==> ThreadOk(w, w.q.thread.value));
    forall x: Thread
      ensures ThreadOk(w', x)
    {
      assert ThreadOk(w, x);
    }
  }

  lemma {:induction false} WokeKeeps(w: Queue, t: Thread, interrupted: bool)
    requires Protocol(w)
    ensures Protocol(Woke(w, t, interrupted))
  {
    hide Act, Jobs.PcOf, JobOf, Accounted, Threads;
    var w' := Woke(w, t, interrupted);
    AllOk(w, t);
    if w' != w {
      MoveKeeps(w, t, At(w', t), w'.jobs, w'.abandoned);
    }
  }

  // ---- the jobs ----

  /** How one step of a thread changes a job. */
  lemma {:induction false} JobStep(w: World, t: Thread, a: Action)
    requires Inv(w)
    ensures Inv(Next(w, t, a))
    ensures forall x: Thread :: x != t ==> PcOf(Next(w, t, a), x) == PcOf(w, x)
    ensures !w.job.state.PENDING? ==> !Next(w, t, a).job.state.PENDING?
    ensures !w.job.state.PENDING? && !w.job.state.RUNNING? ==> !Next(w, t, a).job.state.RUNNING?
    ensures forall x: Thread :: !PcOf(w, x).Idle? ==> !w.job.state.PENDING?
    ensures (a == Cancel(true) || a.Execute?) && PcOf(w, t).Idle? ==> !Next(w, t, a).job.state.PENDING?
    ensures a.Cancel? && PcOf(w, t).Idle? ==>
              PcOf(Next(w, t, a), t).Idle? || (PcOf(Next(w, t, a), t).Finishing? && !Next(w, t, a).job.state.RUNNING?)
    ensures !a.Cancel? && !a.Execute? ==>
              && (PcOf(w, t).Idle? ==> Next(w, t, a) == w)
              && (AfterFinish(PcOf(w, t)) || PcOf(w, t).Finishing? ==>
                    PcOf(Next(w, t, a), t).Idle? || AfterFinish(PcOf(Next(w, t, a), t)) || Next(w, t, a) == w)
              && (w.job.state.RUNNING? || !Next(w, t, a).job.state.RUNNING?)
  {
    hide Next, Inv;
    Kept(w, t, a);
    JobMoves(w, t, a);
  }

  lemma {:induction false} JobMoves(w: World, t: Thread, a: Action)
    requires Inv(w)
    ensures forall x: Thread :: x != t ==> PcOf(Next(w, t, a), x) == PcOf(w, x)
    ensures !w.job.state.PENDING? ==> !Next(w, t, a).job.state.PENDING?
    ensures !w.job.state.PENDING? && !w.job.state.RUNNING? ==> !Next(w, t, a).job.state.RUNNING?
    ensures forall x: Thread :: !PcOf(w, x).Idle? ==> !w.job.state.PENDING?
    ensures (a == Cancel(true) || a.Execute?) && PcOf(w, t).Idle? ==> !Next(w, t, a).job.state.PENDING?
    ensures a.Cancel? && PcOf(w, t).Idle? ==>
              PcOf(Next(w, t, a), t).Idle? || (PcOf(Next(w, t, a), t).Finishing? && !Next(w, t, a).job.state.RUNNING?)
    ensures !a.Cancel? && !a.Execute? ==>
              && (PcOf(w, t).Idle? ==> Next(w, t, a) == w)
              && (AfterFinish(PcOf(w, t)) || PcOf(w, t).Finishing? ==>
                    PcOf(Next(w, t, a), t).Idle? || AfterFinish(PcOf(Next(w, t, a), t)) || Next(w, t, a) == w)
              && (w.job.state.RUNNING? || !Next(w, t, a).job.state.RUNNING?)
  {
  }

  /** Steps that touch no job, and move only threads that are inside none. */
  ghost predicate Quiet(w: Queue, w': Queue) {
    && w'.jobs == w.jobs
    && (forall x: Thread :: Stays(w, w', x) || Outside(w, x))
    && (forall j: JobId :: j in w'.selected ==> HasSelected(w', j) || (j in w.selected && !HasSelected(w, j)))
    && (forall j: JobId :: Concerns(w', j) ==> j in w'.abandoned || Owed(w', j) || SettledBefore(w, j))
  }

  predicate Outside(w: Queue, t: Thread) {
    var pc := At(w, t);
    && (pc.InCancel? ==> PcOf(JobOf(w, pc.cancelled), t).Idle?)
    && (pc.InExecute? ==> PcOf(JobOf(w, pc.executed), t).Idle?)
  }

  predicate HasSelected(w: Queue, j: JobId) {
    w.q.thread.Some? && At(w, w.q.thread.value) == Selected(j)
  }

  predicate Concerns(w: Queue, j: JobId) {
    j in w.dropped || j in w.rejected
  }

  ghost predicate SettledBefore(w: Queue, j: JobId) {
    Concerns(w, j) && j !in w.abandoned && !Owed(w, j)
  }

  predicate Stays(w: Queue, w': Queue, x: Thread) {
    At(w', x) == At(w, x)
  }

  lemma {:induction false} StillOwed(w: Queue, w': Queue, j: JobId)
    requires Owed(w, j) && forall x: Thread :: Owes(At(w, x), j) ==> Stays(w, w', x)
    ensures Owed(w', j)
  {
    var x: Thread :| Owes(At(w, x), j);
    assert Stays(w, w', x);
    assert Owes(At(w', x), j);
  }

  lemma {:induction false} QuietStep(w: Queue, w': Queue)
    requires JobsOk(w) && Handled(w) && Quiet(w, w')
    ensures JobsOk(w') && Handled(w')
  {
    hide Inv, Owed, HasSelected;
    forall j: JobId
      ensures Inv(JobOf(w', j))
    {
      assert Inv(JobOf(w, j));
    }
    forall j: JobId, x: Thread
      ensures InsideOk(w', j, x)
    {
      assert InsideOk(w, j, x) && (Stays(w, w', x) || Outside(w, x));
    }
    forall j: JobId | JobOf(w', j).job.state.PENDING?
      ensures HandledOk(w', j)
    {
      assert JobOf(w, j).job.state.PENDING? && HandledOk(w, j);
    }
  }

  /** Moving only threads with nothing selected and nothing to cancel loses no selection and no debt. */
  lemma {:induction false} PlainMoves(w: Queue, w': Queue)
    requires Threads(w') && forall x: Thread :: Stays(w, w', x) || Plain(w, x)
    ensures forall j: JobId :: HasSelected(w, j) ==> HasSelected(w', j)
    ensures forall j: JobId :: Owed(w, j) ==> Owed(w', j)
    ensures forall x: Thread :: Stays(w, w', x) || Outside(w, x)
  {
    hide JobOf;
    forall j: JobId | HasSelected(w, j)
      ensures HasSelected(w', j)
    {
      assert Stays(w, w', w.q.thread.value) || Plain(w, w.q.thread.value);
      assert ThreadOk(w', w.q.thread.value);
    }
    forall j: JobId | Owed(w, j)
      ensures Owed(w', j)
    {
      forall x: Thread | Owes(At(w, x), j)
        ensures Stays(w, w', x)
      {
        assert Stays(w, w', x) || Plain(w, x);
      }
      StillOwed(w, w', j);
    }
    forall x: Thread
      ensures Stays(w, w', x) || Outside(w, x)
    {
      assert Stays(w, w', x) || Plain(w, x);
    }
  }

  predicate Plain(w: Queue, t: Thread) {
    !At(w, t).Cancelling? && !At(w, t).InCancel? && !At(w, t).Selected? && Outside(w, t)
  }

  /** Steps in which thread `t` takes the action `a` on job `j`: a step inside it, a call of cancel or of execute. */
  ghost predicate Acts(w: Queue, w': Queue, j: JobId, t: Thread, a: Action) {
    && w'.jobs == w.jobs[j := Next(JobOf(w, j), t, a)]
    && w'.selected == w.selected && w'.rejected == w.rejected && w'.dropped == w.dropped && w'.abandoned == w.abandoned
    && (forall x: Thread :: x != t ==> Stays(w, w', x))
    && ActsAt(At(w, t), At(w', t), j, a)
  }

  predicate ActsAt(pc: QPc, pc': QPc, j: JobId, a: Action) {
    match a
    case Cancel(may) =>
      && pc'.InCancel? && pc'.cancelled == j
      && (pc.Resting? || (pc.Cancelling? && may && pc.todo != [] && pc.todo[0] == j && pc.todo[1..] == pc'.todo))
    case Execute(_, _) => pc == Selected(j) && pc' == InExecute(j)
    case _ => pc' == pc && (pc == InExecute(j) || (pc.InCancel? && pc.cancelled == j))
  }

  lemma {:induction false} ActedInside(w: Queue, w': Queue, j: JobId, t: Thread, a: Action, k: JobId, x: Thread)
    requires JobsOk(w) && Acts(w, w', j, t, a)
    ensures InsideOk(w', k, x)
  {
    hide Next, Inv, Jobs.PcOf;
    assert InsideOk(w, k, x) && InsideOk(w, j, t);
    assert x != t ==> Stays(w, w', x);
    assert Inv(JobOf(w, j));
    JobStep(JobOf(w, j), t, a);
  }

  lemma {:induction false} ActedHandled(w: Queue, w': Queue, j: JobId, t: Thread, a: Action, k: JobId)
    requires JobsOk(w) && Handled(w) && Threads(w) && Threads(w') && Acts(w, w', j, t, a)
    requires JobOf(w', k).job.state.PENDING?
    ensures HandledOk(w', k)
  {
    hide Next, Inv, Jobs.PcOf;
    assert InsideOk(w, j, t) && Inv(JobOf(w, j));
    JobStep(JobOf(w, j), t, a);
    assert JobOf(w, k).job.state.PENDING?;
    assert HandledOk(w, k);
    if k in w.selected {
      var d := w.q.thread.value;
      assert d != t;
      assert Stays(w, w', d) && ThreadOk(w', d);
    }
    if Owed(w, k) {
      OwedAfterAct(w, w', j, t, a, k);
    }
  }

  lemma {:induction false} OwedAfterAct(w: Queue, w': Queue, j: JobId, t: Thread, a: Action, k: JobId)
    requires Acts(w, w', j, t, a) && Owed(w, k) && (a == Cancel(true) ==> k != j)
    ensures Owed(w', k)
  {
    hide Next;
    var x: Thread :| Owes(At(w, x), k);
    assert x != t ==> Stays(w, w', x);
    assert Owes(At(w', x), k);
  }

  lemma {:induction false} ActStep(w: Queue, w': Queue, j: JobId, t: Thread, a: Action)
    requires JobsOk(w) && Handled(w) && Threads(w) && Threads(w') && Acts(w, w', j, t, a)
    ensures JobsOk(w') && Handled(w')
  {
    assert Inv(JobOf(w, j));
    JobStep(JobOf(w, j), t, a);
    hide Next, Inv, Threads, InsideOk, HandledOk, ActsAt;
    forall k: JobId
      ensures Inv(JobOf(w', k))
    {
      assert Inv(JobOf(w, k));
    }
    forall k: JobId, x: Thread
      ensures InsideOk(w', k, x)
    {
      ActedInside(w, w', j, t, a, k, x);
    }
    forall k: JobId | JobOf(w', k).job.state.PENDING?
      ensures HandledOk(w', k)
    {
      ActedHandled(w, w', j, t, a, k);
    }
  }

  lemma {:induction false} CalledStartJobs(w: Queue, t: Thread, d: Thread)
    requires QInv(w)
    ensures JobsOk(CalledStart(w, t, d)) && Handled(CalledStart(w, t, d))
  {
    CalledStartKeeps(w, t, d);
    hide JobsOk, Handled, Accounted, JobOf;
    var w' := CalledStart(w, t, d);
    assert forall x: Thread :: Stays(w, w', x) || Plain(w, x);
    PlainMoves(w, w');
    QuietStep(w, w');
  }

  lemma {:induction false} RanThreadJobs(w: Queue, t: Thread)
    requires QInv(w)
    ensures JobsOk(RanThread(w, t)) && Handled(RanThread(w, t))
  {
    RanThreadKeeps(w, t);
    hide JobsOk, Handled, Accounted, JobOf;
    var w' := RanThread(w, t);
    assert ThreadOk(w, t);
    assert forall x: Thread :: Stays(w, w', x) || Plain(w, x);
    PlainMoves(w, w');
    QuietStep(w, w');
  }

  lemma {:induction false} CalledStopJobs(w: Queue, t: Thread, gracefully: bool)
    requires QInv(w)
    ensures JobsOk(CalledStop(w, t, gracefully)) && Handled(CalledStop(w, t, gracefully))
  {
    CalledStopKeeps(w, t, gracefully);
    hide JobsOk, Handled, Accounted, JobOf;
    var w' := CalledStop(w, t, gracefully);
    assert forall x: Thread :: Stays(w, w', x) || Plain(w, x);
    PlainMoves(w, w');
    QuietStep(w, w');
  }

  lemma {:induction false} OpenedJobs(w: Queue, t: Thread, c: Option<nat>, ok: bool)
    requires QInv(w)
    ensures JobsOk(Opened(w, t, c, ok)) && Handled(Opened(w, t, c, ok))
  {
    OpenedKeeps(w, t, c, ok);
    hide JobsOk, Handled, Accounted, JobOf;
    var w' := Opened(w, t, c, ok);
    assert forall x: Thread :: Stays(w, w', x) || Plain(w, x);
    PlainMoves(w, w');
    QuietStep(w, w');
  }

  lemma {:induction false} ReincarnatedJobs(w: Queue, t: Thread, r: Thread)
    requires QInv(w)
    ensures JobsOk(Reincarnated(w, t, r)) && Handled(Reincarnated(w, t, r))
  {
    ReincarnatedKeeps(w, t, r);
    hide JobsOk, Handled, Accounted, JobOf;
    var w' := Reincarnated(w, t, r);
    assert forall x: Thread :: Stays(w, w', x) || Plain(w, x);
    PlainMoves(w, w');
    QuietStep(w, w');
  }

  lemma {:induction false} WokeJobs(w: Queue, t: Thread, interrupted: bool)
    requires QInv(w)
    ensures JobsOk(Woke(w, t, interrupted)) && Handled(Woke(w, t, interrupted))
  {
    WokeKeeps(w, t, interrupted);
    hide JobsOk, Handled, Accounted, JobOf;
    var w' := Woke(w, t, interrupted);
    assert forall x: Thread :: Stays(w, w', x) || Plain(w, x);
    PlainMoves(w, w');
    QuietStep(w, w');
  }

  lemma {:induction false} CalledExecuteJobs(w: Queue, t: Thread, j: JobId)
    requires QInv(w)
    ensures JobsOk(CalledExecute(w, t, j)) && Handled(CalledExecute(w, t, j))
  {
    hide JobsOk, Handled, Accounted, JobOf;
    var w' := CalledExecute(w, t, j);
    CalledExecuteKeeps(w, t, j);
    assert forall x: Thread :: Stays(w, w', x) || Plain(w, x);
    if At(w, t).Resting? && w.q.stopRequested {
      var w1 := Move(w, t, Cancelling([j]));
      assert Owes(At(w', t), j) && Owed(w', j);
      forall k: JobId | Owed(w, k)
        ensures Owed(w', k)
      {
        StillOwed(w, w', k);
      }
      forall k: JobId | k in w.selected && HasSelected(w, k)
        ensures HasSelected(w', k)
      {
        assert Stays(w, w', w.q.thread.value);
      }
      forall x: Thread
        ensures Stays(w, w', x) || Outside(w, x)
      {
        assert Stays(w, w', x) || Plain(w, x);
      }
    } else {
      PlainMoves(w, w');
    }
    QuietStep(w, w');
  }

  lemma {:induction false} TookLockJobs(w: Queue, t: Thread, interrupted: bool)
    requires QInv(w)
    ensures JobsOk(TookLock(w, t, interrupted)) && Handled(TookLock(w, t, interrupted))
  {
    hide JobsOk, Handled, Accounted, JobOf;
    var w' := TookLock(w, t, interrupted);
    TookLockKeeps(w, t, interrupted);
    assert ThreadOk(w, t) && ThreadOk(w', t);
    assert forall x: Thread :: Stays(w, w', x) || Plain(w, x);
    PlainMoves(w, w');
    TookLockSelects(w, t, interrupted);
    hide TookLock;
    QuietStep(w, w');
  }

  lemma {:induction false} TookLockSelects(w: Queue, t: Thread, interrupted: bool)
    requires Protocol(w) && Protocol(TookLock(w, t, interrupted))
    ensures var w' := TookLock(w, t, interrupted);
            && w'.jobs == w.jobs && w'.rejected == w.rejected && w'.dropped == w.dropped && w'.abandoned == w.abandoned
            && forall j: JobId :: j in w'.selected && j !in w.selected ==> HasSelected(w', j)
    ensures var w' := TookLock(w, t, interrupted);
            forall j: JobId :: j in w'.selected && HasSelected(w, j) ==> HasSelected(w', j)
  {
    hide Accounted, JobOf;
    assert ThreadOk(w, t) && ThreadOk(TookLock(w, t, interrupted), t);
  }

  lemma {:induction false} StoppedThreadJobs(w: Queue, t: Thread, possible: bool)
    requires QInv(w)
    ensures JobsOk(StoppedThread(w, t, possible)) && Handled(StoppedThread(w, t, possible))
  {
    hide JobsOk, Handled, Accounted, JobOf;
    var w' := StoppedThread(w, t, possible);
    StoppedThreadKeeps(w, t, possible);
    assert ThreadOk(w, t) && ThreadOk(w', t);
    assert forall x: Thread :: Stays(w, w', x) || Plain(w, x);
    PlainMoves(w, w');
    if At(w, t).Exiting? {
      forall j: JobId | j in w'.dropped && j !in w.dropped
        ensures Owed(w', j)
      {
        assert Owes(At(w', t), j);
      }
    }
    QuietStep(w, w');
  }

  lemma {:induction false} ReturnedJobs(w: Queue, t: Thread, threadDeath: bool)
    requires QInv(w)
    ensures JobsOk(Returned(w, t, threadDeath)) && Handled(Returned(w, t, threadDeath))
  {
    hide JobsOk, Handled, Accounted, JobOf, Jobs.PcOf;
    var w' := Returned(w, t, threadDeath);
    ReturnedKeeps(w, t, threadDeath);
    assert forall x: Thread :: Stays(w, w', x) || (x == t && Outside(w, t));
    if At(w, t).InCancel? {
      forall j: JobId | Owed(w, j)
        ensures Owed(w', j) || j in w'.abandoned
      {
        ReturnedDebts(w, t, threadDeath, j);
      }
      forall j: JobId | HasSelected(w, j)
        ensures HasSelected(w', j)
      {
        assert Stays(w, w', w.q.thread.value);
      }
    } else {
      assert forall x: Thread :: Stays(w, w', x) || Plain(w, x);
      PlainMoves(w, w');
    }
    QuietStep(w, w');
  }

  lemma {:induction false} ReturnedDebts(w: Queue, t: Thread, threadDeath: bool, j: JobId)
    requires Owed(w, j) && At(w, t).InCancel?
    ensures Owed(Returned(w, t, threadDeath), j) || j in Returned(w, t, threadDeath).abandoned
  {
    hide JobOf, Jobs.PcOf;
    var w' := Returned(w, t, threadDeath);
    var x: Thread :| Owes(At(w, x), j);
    if j !in w'.abandoned {
      assert x != t ==> Stays(w, w', x);
      assert Owes(At(w', x), j);
    }
  }

  lemma {:induction false} CalledCancelJobs(w: Queue, t: Thread, j: JobId, may: bool)
    requires QInv(w)
    ensures JobsOk(CalledCancel(w, t, j, may)) && Handled(CalledCancel(w, t, j, may))
  {
    hide JobsOk, Handled, Accounted, JobOf, Next;
    CalledCancelKeeps(w, t, j, may);
    if At(w, t).Resting? {
      ActStep(w, CalledCancel(w, t, j, may), j, t, Cancel(may));
    }
  }

  lemma {:induction false} CancelledNextJobs(w: Queue, t: Thread)
    requires QInv(w)
    ensures JobsOk(CancelledNext(w, t)) && Handled(CancelledNext(w, t))
  {
    hide JobsOk, Handled, Accounted, JobOf, Next;
    CancelledNextKeeps(w, t);
    if At(w, t).Cancelling? && At(w, t).todo != [] {
      ActStep(w, CancelledNext(w, t), At(w, t).todo[0], t, Cancel(true));
    }
  }

  lemma {:induction false} RanJobJobs(w: Queue, t: Thread)
    requires QInv(w)
    ensures JobsOk(RanJob(w, t)) && Handled(RanJob(w, t))
  {
    hide JobsOk, Handled, Accounted, JobOf, Next;
    RanJobKeeps(w, t);
    if At(w, t).Selected? && w.connection.Some? {
      ActStep(w, RanJob(w, t), At(w, t).selected, t, Execute(w.connection.value, Some(0)));
    }
  }

  lemma {:induction false} SteppedInJobJobs(w: Queue, t: Thread, a: Action)
    requires QInv(w)
    ensures JobsOk(SteppedInJob(w, t, a)) && Handled(SteppedInJob(w, t, a))
  {
    hide JobsOk, Handled, Accounted, JobOf, Next;
    SteppedInJobKeeps(w, t, a);
    if !a.Cancel? && !a.Execute? && (At(w, t).InExecute? || At(w, t).InCancel?) {
      var j := if At(w, t).InExecute? then At(w, t).executed else At(w, t).cancelled;
      ActStep(w, SteppedInJob(w, t, a), j, t, a);
    }
  }

  lemma {:induction false} QKept(w: Queue, t: Thread, s: Step)
    requires QInv(w)
    ensures QInv(QNext(w, t, s))
  {
    hide Protocol, JobsOk, Handled, At, JobOf;
    match s
    case CallStart(d) => CalledStartKeeps(w, t, d); CalledStartJobs(w, t, d);
    case RunThread => RanThreadKeeps(w, t); RanThreadJobs(w, t);
    case CallStop(gracefully) => CalledStopKeeps(w, t, gracefully); CalledStopJobs(w, t, gracefully);
    case CallExecute(j) => CalledExecuteKeeps(w, t, j); CalledExecuteJobs(w, t, j);
    case CallCancel(j, may) => CalledCancelKeeps(w, t, j, may); CalledCancelJobs(w, t, j, may);
    case CancelNext => CancelledNextKeeps(w, t); CancelledNextJobs(w, t);
    case OpenConnection(c, ok) => OpenedKeeps(w, t, c, ok); OpenedJobs(w, t, c, ok);
    case TakeLock(interrupted) => TookLockKeeps(w, t, interrupted); TookLockJobs(w, t, interrupted);
    case RunJob => RanJobKeeps(w, t); RanJobJobs(w, t);
    case InJob(a) => SteppedInJobKeeps(w, t, a); SteppedInJobJobs(w, t, a);
    case Return(threadDeath) => ReturnedKeeps(w, t, threadDeath); ReturnedJobs(w, t, threadDeath);
    case StopThread(possible) => StoppedThreadKeeps(w, t, possible); StoppedThreadJobs(w, t, possible);
    case Reincarnate(r) => ReincarnatedKeeps(w, t, r); ReincarnatedJobs(w, t, r);
    case Wake(interrupted) => WokeKeeps(w, t, interrupted); WokeJobs(w, t, interrupted);
  }

  lemma {:induction false} QAlways(s: Steps)
    ensures QInv(Reach(s))
  {
    if s == [] {
      assert forall t: Thread :: ThreadOk(NEW, t);
    } else {
      hide QInv, QNext;
      QAlways(s[..|s| - 1]);
      QKept(Reach(s[..|s| - 1]), s[|s| - 1].0, s[|s| - 1].1);
    }
  }

  // ---- what the queue promises ----

  /** At most one database thread is live: the one in myThread. So the assertion in threadStopped holds. */
  lemma {:induction false} OneDatabaseThread(s: Steps, t: Thread, u: Thread)
    requires IsDatabase(At(Reach(s), t)) && IsDatabase(At(Reach(s), u))
    ensures t == u && Reach(s).q.thread == Some(t)
  {
    QAlways(s);
    assert ThreadOk(Reach(s), t) && ThreadOk(Reach(s), u);
  }

  /** Jobs are selected in the order accepted, and each accepted job is selected, dropped or pending. Jobs are dropped
      only after a stop that is not graceful, or when a database thread has ended abnormally and a stop was called or
      the thread could not be replaced. */
  lemma {:induction false} InOrder(s: Steps)
    ensures var w := Reach(s);
            && w.accepted == w.selected + w.dropped + w.q.jobs
            && w.selected <= w.accepted
            && (w.dropped != [] ==>
                  w.requests.atOnce || (w.abnormal && (w.requests.stop || w.requests.unreplaced)))
  {
    QAlways(s);
  }

  /** A queue stops for good only if stop was called or a database thread could not be replaced. */
  lemma {:induction false} StopsForCause(s: Steps)
    ensures var w := Reach(s);
            && (w.stopped ==> w.requests.stop || w.requests.unreplaced)
            && (w.q.stopRequested <==> w.requests.stop || w.requests.unreplaced)
            && (w.q.stopRequired <==> w.requests.atOnce)
  {
    QAlways(s);
  }

  /** Bodies run one at a time, on the database thread, with an open connection; each job's at most once. */
  lemma {:induction false} BodiesConfined(s: Steps, j: JobId, t: Thread, k: JobId, u: Thread)
    requires PcOf(JobOf(Reach(s), j), t).InBody? && PcOf(JobOf(Reach(s), k), u).InBody?
    ensures j == k && t == u && Reach(s).q.thread == Some(t) && Reach(s).q.current == Some(j)
    ensures Reach(s).connection.Some?
    ensures JobOf(Reach(s), j).bodies <= 1
  {
    QAlways(s);
    var w := Reach(s);
    hide Reach, Accounted, Handled;
    assert InsideOk(w, j, t) && InsideOk(w, k, u) && ThreadOk(w, t) && ThreadOk(w, u);
    assert Inv(JobOf(w, j));
  }

  /** The assertion in afterExecute: when execute has returned, the job is done. */
  lemma {:induction false} DoneAfterExecute(s: Steps, t: Thread)
    requires var w := Reach(s); At(w, t).InExecute? && PcOf(JobOf(w, At(w, t).executed), t).Idle?
    ensures var w := Reach(s); Done(JobOf(w, At(w, t).executed).job)
  {
    QAlways(s);
    var w := Reach(s);
    var j := At(w, t).executed;
    hide Reach, Accounted, Handled;
    assert ThreadOk(w, t) && Inv(JobOf(w, j));
    assert JobOf(w, j).job.state.PENDING? ==> HandledOk(w, j);
    var owner := JobOf(w, j).owner.value;
    assert InsideOk(w, j, owner) && ThreadOk(w, owner);
  }

  /** A queue whose threads are all at rest has finished every job it accepted or rejected, exactly once, except the
      jobs that still wait in it and those whose cancellation a dying callback cut off. */
  lemma {:induction false} AtRest(s: Steps, j: JobId)
    requires forall t: Thread :: At(Reach(s), t).Resting?
    requires j in Reach(s).accepted || j in Reach(s).rejected
    ensures var w := Reach(s);
            || (Done(JobOf(w, j).job) && JobOf(w, j).finishes == 1)
            || j in w.q.jobs || j in w.abandoned
  {
    QAlways(s);
    var w := Reach(s);
    hide Reach;
    assert Inv(JobOf(w, j));
    if JobOf(w, j).job.state.PENDING? {
      assert HandledOk(w, j);
    } else {
      assert InsideOk(w, j, JobOf(w, j).owner.value);
    }
  }

  /** Once the thread has stopped without reincarnating, the queue is empty and stays empty: no job is accepted,
      selected or dropped any more, and no database thread starts. With all threads at rest every job ever accepted is
      done. */
  lemma {:induction false} StoppedForGood(s: Steps, more: Steps)
    requires Reach(s).stopped
    ensures var w, w' := Reach(s), Reach(s + more);
            && w'.stopped && w'.q.jobs == [] && w'.q.thread.None?
            && w'.accepted == w.accepted && w'.selected == w.selected && w'.dropped == w.dropped
  {
    QAlways(s + more);
    hide QNext;
    if more == [] {
      assert s + more == s;
    } else {
      hide QInv;
      var n := |more| - 1;
      StoppedForGood(s, more[..n]);
      assert (s + more)[..|s| + n] == s + more[..n];
      QAlways(s + more[..n]);
      StoppedStep(Reach(s + more[..n]), more[n].0, more[n].1);
      StoppedIsEmpty(Reach(s + more));
    }
  }

  lemma {:induction false} StoppedIsEmpty(w: Queue)
    requires QInv(w) && w.stopped
    ensures w.q.jobs == [] && w.q.thread.None?
  {
  }

  lemma {:induction false} StoppedStep(w: Queue, t: Thread, s: Step)
    requires QInv(w) && w.stopped
    ensures var w' := QNext(w, t, s);
            w'.stopped && w'.accepted == w.accepted && w'.selected == w.selected && w'.dropped == w.dropped
  {
    assert ThreadOk(w, t);
    hide Next, JobsOk, Handled, ThreadOk;
  }

  /** A database thread that ends is replaced, and no job is dropped, exactly if no stop was requested and it can be;
      else the queue stops and the thread is to cancel all pending jobs. */
  lemma {:induction false} StopThreadMeans(s: Steps, t: Thread, possible: bool)
    requires At(Reach(s), t).Exiting?
    ensures var w := Reach(s); var w' := QNext(w, t, StopThread(possible));
            && w'.q.thread == None && w'.connection == None && w'.accepted == w.accepted
            && (if w.requests.stop || !possible then
                  && w'.stopped && w'.q.jobs == [] && w'.dropped == w.dropped + w.q.jobs
                  && At(w', t) == if w.q.jobs == [] then Resting else Cancelling(w.q.jobs)
                else
                  && !w'.stopped && !w'.q.stopRequested && w'.q.jobs == w.q.jobs && w'.dropped == w.dropped
                  && At(w', t) == Reincarnating)
  {
    QAlways(s);
    assert ThreadOk(Reach(s), t);
  }

  /** The reincarnator starts the queue again unless it is interrupted or a stop was requested while it waited. */
  lemma {:induction false} WakeMeans(s: Steps, r: Thread, interrupted: bool)
    requires At(Reach(s), r).Reviving?
    ensures var w := Reach(s);
            At(QNext(w, r, Wake(interrupted)), r) == if interrupted || w.requests.stop || w.requests.unreplaced
                                                     then Resting else Restarting
  {
    QAlways(s);
  }

  /** From any reachable state in which the database thread has ended without a stop, if it can be replaced, a new one
      starts on the same pending jobs, and no job is dropped. */
  lemma {:induction false} Reincarnates(s: Steps, t: Thread, r: Thread, d: Thread)
    requires At(Reach(s), t).Exiting? && !Reach(s).q.stopRequested
    requires r != t && d != t && r != d && r !in Reach(s).pcs && d !in Reach(s).pcs
    ensures var w := Reach(s);
            var w' := Reach(s + [(t, StopThread(true)), (t, Reincarnate(r)), (r, Wake(false)), (r, CallStart(d))]);
            && At(w', d) == Created(r) && At(w', r) == Starting(d) && w'.q.thread == Some(d)
            && w'.q.jobs == w.q.jobs && w'.dropped == w.dropped && w'.accepted == w.accepted && !w'.stopped
  {
    QAlways(s);
    var w := Reach(s);
    assert ThreadOk(w, t);
    var s1, s2 := s + [(t, StopThread(true))], s + [(t, StopThread(true)), (t, Reincarnate(r))];
    var s3 := s + [(t, StopThread(true)), (t, Reincarnate(r)), (r, Wake(false))];
    assert s2 == s1 + [(t, Reincarnate(r))] && s3 == s2 + [(r, Wake(false))];
    assert s + [(t, StopThread(true)), (t, Reincarnate(r)), (r, Wake(false)), (r, CallStart(d))]
        == s3 + [(r, CallStart(d))];
    QOneStep(s, t, StopThread(true));
    QOneStep(s1, t, Reincarnate(r));
    QOneStep(s2, r, Wake(false));
    QOneStep(s3, r, CallStart(d));
    hide Reach, QInv, ThreadOk;
    EndedAndReplaced(w, t, r);
    hide QNext;
    Restarted(Reach(s2), r, d);
  }

  lemma {:induction false} EndedAndReplaced(w: Queue, t: Thread, r: Thread)
    requires At(w, t).Exiting? && !w.q.stopRequested && r != t && r !in w.pcs && (w.stopped ==> w.q.stopRequested)
    ensures var w' := QNext(QNext(w, t, StopThread(true)), t, Reincarnate(r));
            && At(w', r) == Reviving && w'.q == w.q.(thread := None) && w'.dropped == w.dropped
            && w'.accepted == w.accepted && !w'.stopped && w'.pcs.Keys == w.pcs.Keys + {r}
  {
    assert t in w.pcs;
  }

  lemma {:induction false} Restarted(w: Queue, r: Thread, d: Thread)
    requires At(w, r) == Reviving && w.q.thread.None? && !w.q.stopRequested && r != d && d !in w.pcs
    ensures var w' := QNext(QNext(w, r, Wake(false)), r, CallStart(d));
            && At(w', d) == Created(r) && At(w', r) == Starting(d) && w'.q == w.q.(thread := Some(d))
            && w'.dropped == w.dropped && w'.accepted == w.accepted && w'.stopped == w.stopped
  {
  }

  /** The lock of the database thread: the oldest pending job is selected unless the queue is to stop at once; the loop
      ends when a stop is requested and nothing is left to do; else the thread waits. */
  lemma {:induction false} TakeLockMeans(s: Steps, t: Thread)
    requires At(Reach(s), t).AtLock?
    ensures var w := Reach(s); var w' := QNext(w, t, TakeLock(false));
            && (w.requests.atOnce || (w.requests.stop && w.q.jobs == []) ==>
                  At(w', t) == Exiting(true) && w'.q.jobs == w.q.jobs && w'.selected == w.selected)
            && (!w.requests.atOnce && w.q.jobs != [] ==>
                  && At(w', t) == Selected(w.q.jobs[0]) && w'.q.jobs == w.q.jobs[1..]
                  && w'.selected == w.selected + [w.q.jobs[0]] && w'.q.current == Some(w.q.jobs[0]))
            && (!w.requests.stop && w.q.jobs == [] ==>
                  At(w', t) == AtLock && w'.q.jobs == [] && w'.selected == w.selected)
  {
    QAlways(s);
    assert ThreadOk(Reach(s), t);
  }

  /** Once a stop that is not graceful was called, no job is selected any more. */
  lemma {:induction false} NoneSelectedAtOnce(s: Steps, more: Steps)
    requires Reach(s).requests.atOnce
    ensures Reach(s + more).requests.atOnce && Reach(s + more).selected == Reach(s).selected
  {
    hide QNext;
    if more == [] {
      assert s + more == s;
    } else {
      hide QInv;
      var n := |more| - 1;
      NoneSelectedAtOnce(s, more[..n]);
      assert (s + more)[..|s| + n] == s + more[..n];
      QAlways(s + more[..n]);
      AtOnceStep(Reach(s + more[..n]), more[n].0, more[n].1);
    }
  }

  lemma {:induction false} AtOnceStep(w: Queue, t: Thread, s: Step)
    requires QInv(w) && w.requests.atOnce
    ensures QNext(w, t, s).requests.atOnce && QNext(w, t, s).selected == w.selected
  {
    hide Next, JobsOk, Handled, Threads;
  }

  /** A call of start makes a database thread exactly if there is none and no stop was requested. */
  lemma {:induction false} StartMeans(s: Steps, t: Thread, d: Thread)
    requires At(Reach(s), t).Resting? && d != t && d !in Reach(s).pcs
    ensures var w := Reach(s); var w' := QNext(w, t, CallStart(d));
            && (At(w', d) == Created(t) <==> w.q.thread == None && !w.requests.stop && !w.requests.unreplaced)
            && (At(w', d) == Created(t) ==> w'.q.thread == Some(d) && At(w', t) == Starting(d))
            && (At(w', d) != Created(t) ==> w'.q == w.q && At(w', t) == Resting)
  {
    QAlways(s);
  }

  /** A job is accepted, as the last one, exactly if no stop was requested; else it is rejected and cancelled. */
  lemma {:induction false} ExecuteAccepts(s: Steps, t: Thread, j: JobId)
    requires At(Reach(s), t).Resting?
    ensures var w := Reach(s); var w' := QNext(w, t, CallExecute(j));
            if w.requests.stop || w.requests.unreplaced then
              && w'.q == w.q && w'.accepted == w.accepted && w'.rejected == w.rejected + [j]
              && At(w', t) == Cancelling([j])
            else
              && w'.q.jobs == w.q.jobs + [j] && w'.accepted == w.accepted + [j] && w'.rejected == w.rejected
              && At(w', t) == Resting
  {
    QAlways(s);
  }

  /** A thread that has jobs to cancel cancels the first of them, even while it is running. */
  lemma {:induction false} CancelNextMeans(w: Queue, t: Thread, j: JobId, todo: seq<JobId>)
    requires At(w, t) == Cancelling([j] + todo)
    ensures var w' := QNext(w, t, CancelNext);
            At(w', t) == InCancel(j, todo) && JobOf(w', j) == Next(JobOf(w, j), t, Cancel(true))
  {
    hide Next;
  }

  /** The thread that has selected a job executes it on the connection that it opened. */
  lemma {:induction false} RunJobMeans(s: Steps, t: Thread, j: JobId)
    requires At(Reach(s), t) == Selected(j)
    ensures var w := Reach(s); var w' := QNext(w, t, RunJob);
            && w.connection.Some? && At(w', t) == InExecute(j)
            && JobOf(w', j) == Next(JobOf(w, j), t, Execute(w.connection.value, Some(0)))
  {
    QAlways(s);
    assert ThreadOk(Reach(s), t);
    hide Next;
  }

  /** A thread inside a job takes the job's steps, and no other job changes. */
  lemma {:induction false} InJobMeans(w: Queue, t: Thread, j: JobId, a: Action)
    requires At(w, t) == InExecute(j) || exists todo :: At(w, t) == InCancel(j, todo)
    requires !a.Cancel? && !a.Execute?
    ensures var w' := QNext(w, t, InJob(a));
            && JobOf(w', j) == Next(JobOf(w, j), t, a) && w'.pcs == w.pcs && w'.q == w.q
            && forall k: JobId :: k != j ==> JobOf(w', k) == JobOf(w, k)
  {
    hide Next;
  }

  /** A call of cancel by a thread at rest. */
  lemma {:induction false} CancelCalled(w: Queue, t: Thread, j: JobId, may: bool)
    requires At(w, t).Resting?
    ensures var w' := QNext(w, t, CallCancel(j, may));
            At(w', t) == InCancel(j, []) && JobOf(w', j) == Next(JobOf(w, j), t, Cancel(may))
  {
    hide Next;
  }

  /** When cancel has returned the thread goes on with the next job that it has to cancel; a ThreadDeath makes it give
      up all of them. */
  lemma {:induction false} CancelReturns(w: Queue, t: Thread, j: JobId, todo: seq<JobId>, threadDeath: bool)
    requires At(w, t) == InCancel(j, todo) && PcOf(JobOf(w, j), t).Idle?
    ensures var w' := QNext(w, t, Return(threadDeath));
            && At(w', t) == (if threadDeath || todo == [] then Resting else Cancelling(todo))
            && w'.abandoned == w.abandoned + if threadDeath then todo else []
  {
  }

  /** The thread that start made runs: it opens the connection. */
  lemma {:induction false} RunThreadMeans(s: Steps, t: Thread, d: Thread)
    requires At(Reach(s), t) == Starting(d)
    ensures var w := Reach(s); var w' := QNext(w, t, RunThread);
            At(w, d) == Created(t) && At(w', d) == Opening && At(w', t) == Resting
  {
    QAlways(s);
    assert ThreadOk(Reach(s), t);
  }

  /** When execute has returned the thread goes back to the lock; a ThreadDeath ends it. */
  lemma {:induction false} ReturnMeans(w: Queue, t: Thread, j: JobId, threadDeath: bool)
    requires At(w, t) == InExecute(j) && PcOf(JobOf(w, j), t).Idle?
    ensures At(QNext(w, t, Return(threadDeath)), t) == if threadDeath then Exiting(false) else AtLock
  {
  }

  /** The thread comes to the lock exactly if it has got a connection and could set it up. */
  lemma {:induction false} OpenMeans(w: Queue, t: Thread, c: Option<nat>, ok: bool)
    requires At(w, t) == Opening
    ensures var w' := QNext(w, t, OpenConnection(c, ok));
            w'.connection == c && At(w', t) == if c != None && ok then AtLock else Exiting(false)
  {
  }

  /** A stop that is not graceful cancels the current job, be it selected or being executed, exactly if no stop was
      requested before; one that follows a graceful stop only keeps later jobs from being selected. */
  lemma {:induction false} StopCancelsCurrent(s: Steps, t: Thread, u: Thread, j: JobId)
    requires At(Reach(s), u).Resting? && (At(Reach(s), t) == InExecute(j) || At(Reach(s), t) == Selected(j))
    ensures var w := Reach(s); var w' := QNext(w, u, CallStop(false));
            && w'.q.stopRequired && w'.q.jobs == w.q.jobs
            && At(w', u) == if w.requests.stop || w.requests.unreplaced then Resting else Cancelling([j])
  {
    QAlways(s);
    assert ThreadOk(Reach(s), t);
  }

  /** A graceful stop cancels nothing and leaves the pending jobs to be executed. */
  lemma {:induction false} GracefulStop(s: Steps, u: Thread)
    requires At(Reach(s), u).Resting?
    ensures var w := Reach(s); var w' := QNext(w, u, CallStop(true));
            && w'.q.stopRequested && w'.q.jobs == w.q.jobs && w'.q.stopRequired == w.q.stopRequired
            && At(w', u) == Resting
  {
    QAlways(s);
  }

  lemma {:induction false} QOneStep(s: Steps, t: Thread, step: Step)
    ensures Reach(s + [(t, step)]) == QNext(Reach(s), t, step)
  {
    hide QNext;
    assert (s + [(t, step)])[..|s|] == s;
  }

  /** Thread 1 is the database thread; threads 0 and 2 start the queue and have job 9 executed. */
  function Waiting(): Queue {
    Opened(RanThread(CalledStart(NEW, 0, 1), 0), 1, Some(5), true)
  }

  function Selecting(): Queue {
    TookLock(CalledExecute(Waiting(), 2, 9), 1, false)
  }

  function Executing(): Queue {
    RanJob(Selecting(), 1)
  }

  lemma {:induction false} IsWaiting()
    ensures var w := Waiting();
            && At(w, 1).AtLock? && At(w, 2).Resting? && w.q == Shared([], None, Some(1), false, false)
            && w.connection == Some(5) && w.jobs == map[] && w.accepted == []
  {
    var w1 := CalledStart(NEW, 0, 1);
    assert At(w1, 0) == Starting(1) && At(w1, 1) == Created(0) && At(w1, 2).Resting?;
    var w2 := RanThread(w1, 0);
    assert At(w2, 1).Opening? && At(w2, 2).Resting?;
  }

  lemma {:induction false} IsSelecting()
    ensures var w := Selecting();
            && At(w, 1) == Selected(9) && At(w, 2).Resting? && w.q == Shared([], Some(9), Some(1), false, false)
            && w.connection == Some(5) && JobOf(w, 9) == NEW_WORLD
  {
    IsWaiting();
    hide Waiting;
    var w4 := CalledExecute(Waiting(), 2, 9);
    assert w4.q.jobs == [9] && At(w4, 1).AtLock? && At(w4, 2).Resting?;
  }

  lemma {:induction false} IsExecuting()
    ensures var w := Executing();
            && At(w, 1) == InExecute(9) && At(w, 2).Resting? && w.q == Shared([], Some(9), Some(1), false, false)
            && JobOf(w, 9).job.state.RUNNING?
  {
    IsSelecting();
    hide Selecting;
    assert Next(NEW_WORLD, 1, Execute(5, Some(0))).job.state.RUNNING?;
    hide Next;
  }

  lemma {:induction false} ExecutingReached() returns (s: Steps)
    ensures Reach(s) == Executing()
  {
    hide CalledStart, RanThread, Opened, CalledExecute, TookLock, RanJob;
    var s0: Steps, s1: Steps := [], [(0, CallStart(1))];
    var s2, s3 := s1 + [(0, RunThread)], s1 + [(0, RunThread), (1, OpenConnection(Some(5), true))];
    var s4, s5 := s3 + [(2, CallExecute(9))], s3 + [(2, CallExecute(9)), (1, TakeLock(false))];
    s := s5 + [(1, RunJob)];
    assert s1 == s0 + [(0, CallStart(1))] && s3 == s2 + [(1, OpenConnection(Some(5), true))];
    assert s5 == s4 + [(1, TakeLock(false))];
    QOneStep(s0, 0, CallStart(1));
    QOneStep(s1, 0, RunThread);
    QOneStep(s2, 1, OpenConnection(Some(5), true));
    QOneStep(s3, 2, CallExecute(9));
    QOneStep(s4, 1, TakeLock(false));
    QOneStep(s5, 1, RunJob);
    assert Reach(s0) == NEW;
    hide Reach;
  }

  /** A run in which the stop that is not graceful comes too late: after a graceful one, while a job is being executed.
      Nobody cancels the job. */
  lemma {:induction false} LateStopCancelsNothing() returns (s: Steps)
    ensures var w := Reach(s);
            && At(w, 1) == InExecute(9) && w.q.stopRequested && At(w, 2).Resting? && JobOf(w, 9).job.state.RUNNING?
    ensures var w' := Reach(s + [(2, CallStop(false))]);
            && w'.q.stopRequired && At(w', 1) == InExecute(9) && At(w', 2).Resting? && JobOf(w', 9).job.state.RUNNING?
  {
    var s0 := ExecutingReached();
    IsExecuting();
    s := s0 + [(2, CallStop(true))];
    QOneStep(s0, 2, CallStop(true));
    QOneStep(s, 2, CallStop(false));
    hide Reach, Executing, CalledStop, JobOf;
    StopsTwice(Executing(), 1, 2, 9);
  }

  lemma {:induction false} StopsTwice(w: Queue, t: Thread, u: Thread, j: JobId)
    requires At(w, t) == InExecute(j) && At(w, u).Resting? && !w.q.stopRequested && !w.q.stopRequired
    ensures var w' := CalledStop(w, u, true);
            At(w', t) == InExecute(j) && w'.q.stopRequested && At(w', u).Resting? && JobOf(w', j) == JobOf(w, j)
    ensures var w' := CalledStop(CalledStop(w, u, true), u, false);
            At(w', t) == InExecute(j) && w'.q.stopRequired && At(w', u).Resting? && JobOf(w', j) == JobOf(w, j)
  {
  }
}
