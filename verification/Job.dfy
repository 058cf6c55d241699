/** SQLiteJob: one job, the thread that executes it and any number of threads that cancel it. */
module Jobs {
  import opened Common

  datatype State = PENDING | RUNNING | SUCCEEDED | ERROR | CANCELLED

  /** What job() throws: SQLiteInterruptedException or anything else. */
  datatype Thrown = Interrupted | Other(code: int)

  /** The fields protected by myLock. */
  datatype Fields = Fields(state: State, error: Option<Thrown>, connection: Option<nat>, queue: Option<nat>,
                           result: Option<int>)

  const NEW_JOB: Fields := Fields(PENDING, None, None, None, None)

  predicate Done(f: Fields) {
    f.state.SUCCEEDED? || f.state.CANCELLED? || f.state.ERROR?
  }

  /** What the synchronized block of cancel decides. */
  datatype Cancellation = Refused | Interrupt(connection: nat) | NeverRan

  // ---- the synchronized blocks ----

  function CancelStep(f: Fields, mayInterruptIfRunning: bool): (Fields, Cancellation) {
    if Done(f) || (f.state.RUNNING? && !mayInterruptIfRunning) then (f, Refused)
    else (f.(state := CANCELLED), if f.connection.Some? then Interrupt(f.connection.value) else NeverRan)
  }

  function StartStep(f: Fields, connection: nat, queue: Option<nat>): (Fields, bool) {
    if f.state.PENDING? then (f.(state := RUNNING, connection := Some(connection), queue := queue), true)
    else (f, false)
  }

  function ErrorStep(f: Fields, e: Thrown): Fields {
    if e.Interrupted? then f.(state := CANCELLED) else f.(error := Some(e), state := ERROR)
  }

  function FinishStep(f: Fields, result: Option<int>): Fields {
    if f.state.RUNNING? then f.(connection := None, state := SUCCEEDED, result := result) else f.(connection := None)
  }

  class SQLiteJob {
    var myState: State
    var myError: Option<Thrown>
    var myConnection: Option<nat>
    var myQueue: Option<nat>
    var myResult: Option<int>

    ghost function Snapshot(): Fields
      reads this
    {
      Fields(myState, myError, myConnection, myQueue, myResult)
    }

    constructor ()
      ensures Snapshot() == NEW_JOB
    {
      myState := PENDING;
      myError, myConnection, myQueue, myResult := None, None, None, None;
    }

    method IsDone() returns (done: bool)
      ensures done <==> myState == SUCCEEDED || myState == CANCELLED || myState == ERROR
    {
      done := myState == SUCCEEDED || myState == CANCELLED || myState == ERROR;
    }

    /** The synchronized block of cancel. */
    method Cancel(mayInterruptIfRunning: bool) returns (r: Cancellation)
      modifies this
      ensures (Snapshot(), r) == CancelStep(old(Snapshot()), mayInterruptIfRunning)
      ensures r.Refused? <==>
                || old(myState) == SUCCEEDED || old(myState) == CANCELLED || old(myState) == ERROR
                || (old(myState) == RUNNING && !mayInterruptIfRunning)
      ensures r.Refused? ==> unchanged(this)
      ensures !r.Refused? ==>
                && Snapshot() == old(Snapshot()).(state := CANCELLED)
                && r == if myConnection.Some? then Interrupt(myConnection.value) else NeverRan
    {
      var done := IsDone();
      if done {
        return Refused;
      }
      if myState == RUNNING && !mayInterruptIfRunning {
        return Refused;
      }
      myState := CANCELLED;
      return if myConnection.Some? then Interrupt(myConnection.value) else NeverRan;
    }

    /** The synchronized block of startJob. */
    method StartJob(connection: nat, queue: Option<nat>) returns (started: bool)
      modifies this
      ensures (Snapshot(), started) == StartStep(old(Snapshot()), connection, queue)
      ensures started <==> old(myState) == PENDING
      ensures !started ==> unchanged(this)
      ensures started ==> Snapshot() == Fields(RUNNING, old(myError), Some(connection), queue, old(myResult))
    {
      if myState != PENDING {
        return false;
      }
      myState := RUNNING;
      myConnection := Some(connection);
      myQueue := queue;
      return true;
    }

    /** processJobError; the caller rethrows `e` unless it is the interruption. */
    method ProcessJobError(e: Thrown) returns (rethrown: bool)
      modifies this
      ensures Snapshot() == ErrorStep(old(Snapshot()), e) && rethrown == !e.Interrupted?
      ensures e == Interrupted ==> myState == CANCELLED && myError == old(myError)
      ensures e != Interrupted ==> myState == ERROR && myError == Some(e)
      ensures myConnection == old(myConnection) && myQueue == old(myQueue) && myResult == old(myResult)
    {
      if e.Interrupted? {
        myState := CANCELLED;
        return false;
      }
      myError := Some(e);
      myState := ERROR;
      return true;
    }

    /** The first synchronized block of finishJob. */
    method FinishJob(result: Option<int>) returns (state: State, error: Option<Thrown>)
      modifies this
      ensures Snapshot() == FinishStep(old(Snapshot()), result) && state == myState && error == myError
      ensures myConnection == None && myError == old(myError) && myQueue == old(myQueue)
      ensures if old(myState) == RUNNING then myState == SUCCEEDED && myResult == result
              else myState == old(myState) && myResult == old(myResult)
    {
      myConnection := None;
      if myState == RUNNING {
        myState := SUCCEEDED;
        myResult := result;
      }
      state, error := myState, myError;
    }

    /** The second synchronized block of finishJob. */
    method NotifyFinished()
      modifies this`myQueue
      ensures Snapshot() == old(Snapshot()).(queue := None)
    {
      myQueue := None;
    }
  }

  // ---- all threads together ----

  type Thread = nat

  /** Where a thread stands in execute or cancel. */
  datatype Pc =
    | Idle
    | Started                                          // startJob has answered true
    | InBody                                           // job() is running
    | Failed(e: Thrown)                                // job() has thrown
    | Finishing(result: Option<int>)                   // finishJob is about to take the lock
    | StateCallback(state: State, result: Option<int>) // jobCancelled or jobError, if it applies
    | FinishedCallback(result: Option<int>)            // jobFinished
    | Notifying                                        // finishJob is about to take the lock again

  /** One atomic step of a thread. */
  datatype Action =
    | Cancel(mayInterrupt: bool)
    | Execute(connection: nat, queue: Option<nat>)
    | EnterBody
    | BodyReturns(value: Option<int>)
    | BodyThrows(thrown: Thrown)
    | RecordError
    | Finish
    | Callback(threadDeath: bool)
    | Notify

  /** A job, its threads and what has happened to it: `owner` is the thread that took it out of PENDING, `ended` counts
      the calls of execute that ran it and the calls of cancel that found it pending, once they have returned; `entered`
      is the state finishJob found and the result it was given, `died` that jobCancelled or jobError threw ThreadDeath,
      `finishedWith` what jobFinished was called with, and `past` what the body and the cancels did. */
  datatype World = World(job: Fields, pcs: map<Thread, Pc>, owner: Option<Thread>, bodies: nat, finishes: nat,
                         entered: Option<(State, Option<int>)>, died: bool, finishedWith: seq<Option<int>>, ended: nat,
                         past: Past)

  /** Whether a cancel was not refused, the connections interrupted, and how the body ended. */
  datatype Past = Past(cancelled: bool, interrupted: seq<nat>, returned: Option<Option<int>>, thrown: Option<Thrown>)

  const NEW_WORLD: World := World(NEW_JOB, map[], None, 0, 0, None, false, [], 0, Past(false, [], None, None))

  function PcOf(w: World, t: Thread): Pc {
    if t in w.pcs then w.pcs[t] else Idle
  }

  function Goes(w: World, t: Thread, pc: Pc): World {
    w.(pcs := w.pcs[t := pc])
  }

  /** The next state; an action that the thread cannot take now changes nothing. */
  function Next(w: World, t: Thread, a: Action): World {
    match (PcOf(w, t), a)
    case (Idle, Cancel(may)) =>
      var (f, answer) := CancelStep(w.job, may);
      (match answer
       case Refused => w
       case NeverRan =>
         Goes(w, t, Finishing(None)).(job := f, owner := Some(t), past := w.past.(cancelled := true))
       case Interrupt(c) =>
         w.(job := f, past := w.past.(cancelled := true, interrupted := w.past.interrupted + [c])))
    case (Idle, Execute(connection, queue)) =>
      var (f, started) := StartStep(w.job, connection, queue);
      if started then Goes(w, t, Started).(job := f, owner := Some(t)) else w
    case (Started, EnterBody) => Goes(w, t, InBody).(bodies := w.bodies + 1)
    case (InBody, BodyReturns(value)) => Goes(w, t, Finishing(value)).(past := w.past.(returned := Some(value)))
    case (InBody, BodyThrows(e)) => Goes(w, t, Failed(e)).(past := w.past.(thrown := Some(e)))
    case (Failed(e), RecordError) => Goes(w, t, Finishing(None)).(job := ErrorStep(w.job, e))
    case (Finishing(result), Finish) =>
      var f := FinishStep(w.job, result);
      Goes(w, t, StateCallback(f.state, result))
        .(job := f, finishes := w.finishes + 1, entered := Some((w.job.state, result)))
    case (StateCallback(state, result), Callback(threadDeath)) =>
      if threadDeath && (state.CANCELLED? || state.ERROR?) then
        Goes(w, t, Idle).(died := true, ended := w.ended + 1)
      else Goes(w, t, FinishedCallback(result))
    case (FinishedCallback(result), Callback(threadDeath)) =>
      var w' := w.(finishedWith := w.finishedWith + [result]);
      if threadDeath then Goes(w', t, Idle).(ended := w.ended + 1) else Goes(w', t, Notifying)
    case (Notifying, Notify) => Goes(w, t, Idle).(job := w.job.(queue := None), ended := w.ended + 1)
    case _ => w
  }

  /** Every interleaving is some schedule. */
  type Schedule = seq<(Thread, Action)>

  function After(s: Schedule): World {
    if s == [] then NEW_WORLD else Next(After(s[..|s| - 1]), s[|s| - 1].0, s[|s| - 1].1)
  }

  // ---- what every step keeps ----

  predicate BeforeFinish(pc: Pc) {
    pc.Started? || pc.InBody? || pc.Failed? || pc.Finishing?
  }

  predicate InCallback(pc: Pc) {
    pc.StateCallback? || pc.FinishedCallback?
  }

  predicate AfterFinish(pc: Pc) {
    pc.StateCallback? || pc.FinishedCallback? || pc.Notifying?
  }

  ghost predicate OnlyOwner(w: World) {
    forall t: Thread :: !PcOf(w, t).Idle? ==> w.owner == Some(t)
  }

  function OwnerPc(w: World): Pc {
    if w.owner.Some? then PcOf(w, w.owner.value) else Idle
  }

  /** What is known of the values: what finishJob was given goes to jobFinished; it is stored if the job was running; a
      job that has erred was given none. */
  predicate ValuesOk(w: World) {
    && (w.entered.Some? <==> w.finishes > 0)
    && (w.finishedWith != [] ==> w.entered.Some? && w.finishedWith[0] == w.entered.value.1)
    && (InCallback(OwnerPc(w)) ==>
          w.entered.Some? && OwnerPc(w).result == w.entered.value.1)
    && (w.entered.Some? ==>
          && w.job.state == (if w.entered.value.0.RUNNING? then SUCCEEDED else w.entered.value.0)
          && w.job.result == (if w.entered.value.0.RUNNING? then w.entered.value.1 else None)
          && (w.entered.value.0.ERROR? ==> w.entered.value.1.None?)
          && !w.entered.value.0.PENDING? && !w.entered.value.0.SUCCEEDED?)
    && (w.job.state.ERROR? && OwnerPc(w).Finishing? ==> OwnerPc(w).result.None?)
  }

  /** What the past of the body and of the cancels makes of the job. */
  predicate PastOk(w: World) {
    && (w.job.state.PENDING? ==> w.past == Past(false, [], None, None))
    && |w.past.interrupted| <= 1 && (w.past.interrupted != [] ==> w.past.cancelled)
    && !(w.past.returned.Some? && w.past.thrown.Some?)
    && (w.past.returned.Some? || w.past.thrown.Some? || OwnerPc(w).InBody? ==> w.bodies == 1)
    && (w.job.state.RUNNING? || w.job.state.SUCCEEDED? ==> !w.past.cancelled)
    && (OwnerPc(w).Started? || OwnerPc(w).InBody? ==> w.past.returned.None? && w.past.thrown.None?)
    && (OwnerPc(w).Started? || OwnerPc(w).InBody? || OwnerPc(w).Failed? ==>
          w.job.state == if w.past.cancelled then CANCELLED else RUNNING)
    && (OwnerPc(w).Failed? ==> w.past.returned.None? && w.past.thrown == Some(OwnerPc(w).e))
    && (OwnerPc(w).Finishing? ==>
          && (w.past.returned.Some? ==> OwnerPc(w).result == w.past.returned.value)
          && (w.past.returned.Some? ==> w.job.state == if w.past.cancelled then CANCELLED else RUNNING)
          && (w.past.returned.None? ==> OwnerPc(w).result == None))
    && (w.finishes == 1 && w.past.returned.Some? && !w.past.cancelled ==> w.job.result == w.past.returned.value)
    && (w.finishes == 1 || OwnerPc(w).Finishing? ==> Settled(w))
  }

  /** How a job whose body is over, or never ran, stands: erred with what the body threw, cancelled by the interruption,
      and otherwise as cancelled or not. */
  predicate Settled(w: World) {
    match w.past.thrown
    case Some(Other(c)) => w.job.state == ERROR && w.job.error == Some(Other(c))
    case Some(Interrupted) => w.job.state == CANCELLED
    case None =>
      if w.past.cancelled then w.job.state == CANCELLED
      else w.past.returned.Some? && w.job.state == if w.finishes == 1 then SUCCEEDED else RUNNING
  }

  ghost predicate Inv(w: World) {
    Books(w) && ValuesOk(w) && PastOk(w)
  }

  ghost predicate Books(w: World) {
    && OnlyOwner(w)
    && (w.owner.None? <==> w.job.state.PENDING?)
    && (w.job.state.PENDING? ==> w.bodies == 0 && w.finishes == 0 && w.job.connection.None? && w.job.queue.None?)
    && (!w.job.state.PENDING? ==> (if BeforeFinish(OwnerPc(w)) then w.finishes == 0 else w.finishes == 1))
    && (w.job.state.RUNNING? ==> BeforeFinish(OwnerPc(w)) && w.job.connection.Some?)
    && (w.job.state.SUCCEEDED? ==> w.finishes == 1)
    && (w.job.state.ERROR? ==> (w.finishes == 1 || OwnerPc(w).Finishing?) && w.job.error.Some?)
    && (w.job.connection.Some? ==> w.finishes == 0)
    && (OwnerPc(w).Started? || OwnerPc(w).InBody? || OwnerPc(w).Failed? ==> w.job.connection.Some?)
    && (OwnerPc(w).Started? ==> w.bodies == 0) && w.bodies <= 1
    && (w.job.connection.Some? || w.bodies == 1 ==> w.owner.Some?)
    && w.ended == (if w.finishes == 1 && OwnerPc(w).Idle? then 1 else 0)
    && |w.finishedWith| == (if w.died || w.finishes == 0 || InCallback(OwnerPc(w)) then 0 else 1)
    && (w.died ==> (w.job.state.CANCELLED? || w.job.state.ERROR?) && w.finishes == 1 && !InCallback(OwnerPc(w)))
    && (w.job.result.Some? ==> w.job.state.SUCCEEDED?)
    && (w.job.error.Some? ==> w.job.state.ERROR?)
    && (OwnerPc(w).StateCallback? ==> OwnerPc(w).state == w.job.state)
  }

  lemma {:induction false} Kept(w: World, t: Thread, a: Action)
    requires Inv(w)
    ensures Inv(Next(w, t, a))
  {
    KeptBooks(w, t, a);
    KeptValues(w, t, a);
    KeptPast(w, t, a);
  }

  lemma {:induction false} KeptBooks(w: World, t: Thread, a: Action)
    requires Inv(w)
    ensures Books(Next(w, t, a))
  {
    hide PastOk;
    var w' := Next(w, t, a);
    assert PcOf(w, t).Idle? || w.owner == Some(t);
    forall t': Thread | !PcOf(w', t').Idle?
      ensures w'.owner == Some(t')
    {
      assert t' != t ==> PcOf(w', t') == PcOf(w, t');
    }
  }

  lemma {:induction false} KeptValues(w: World, t: Thread, a: Action)
    requires Inv(w)
    ensures ValuesOk(Next(w, t, a))
  {
    hide PastOk;
    assert PcOf(w, t).Idle? || w.owner == Some(t);
  }

  lemma {:induction false} KeptPast(w: World, t: Thread, a: Action)
    requires Inv(w)
    ensures PastOk(Next(w, t, a))
  {
    hide ValuesOk;
    assert PcOf(w, t).Idle? || w.owner == Some(t);
  }

  lemma {:induction false} OneMore(s: Schedule, more: Schedule)
    requires more != []
    ensures var n := |more| - 1; After(s + more) == Next(After(s + more[..n]), more[n].0, more[n].1)
  {
    hide Next;
    var n := |more| - 1;
    assert (s + more)[..|s| + n] == s + more[..n];
  }

  lemma {:induction false} Always(s: Schedule)
    ensures Inv(After(s))
  {
    if s != [] {
      Always(s[..|s| - 1]);
      Kept(After(s[..|s| - 1]), s[|s| - 1].0, s[|s| - 1].1);
    }
  }

  // ---- what the class promises ----

  /** Over every interleaving job() runs at most once and the job is finished at most once. It has been finished exactly
      once as soon as an execute that ran it, or a cancel that found it pending, has returned; there is at most one such
      call. By then jobFinished has been called once, unless jobCancelled or jobError threw ThreadDeath. */
  lemma {:induction false} FinishedOnce(s: Schedule)
    ensures var w := After(s);
            && w.bodies <= 1 && w.finishes <= 1 && |w.finishedWith| <= w.finishes && w.ended <= w.finishes
            && (!w.job.state.PENDING? && OwnerPc(w).Idle? ==>
                  && w.finishes == 1 && w.ended == 1 && Done(w.job)
                  && |w.finishedWith| == (if w.died then 0 else 1))
            && (w.died ==> w.job.state.CANCELLED? || w.job.state.ERROR?)
  {
    Always(s);
  }

  /** How a job ends, over every interleaving: erred with the very failure of its body, if it failed other than by an
      interruption; cancelled if it was interrupted, was cancelled, or never ran; else succeeded with the value that its
      body returned. */
  lemma {:induction false} Outcome(s: Schedule)
    requires After(s).finishes == 1
    ensures var w := After(s);
            && (w.job.state == ERROR <==> w.past.thrown.Some? && w.past.thrown != Some(Interrupted))
            && (w.job.state == ERROR ==> w.job.error == w.past.thrown)
            && (w.job.state != ERROR ==> w.job.error == None)
            && (w.job.state == SUCCEEDED <==> w.past.returned.Some? && !w.past.cancelled)
            && (w.job.state == SUCCEEDED ==> w.job.result == w.past.returned.value)
            && (w.job.state == CANCELLED <==>
                  w.past.thrown == Some(Interrupted) || (w.past.thrown == None && w.past.cancelled))
  {
    Always(s);
  }

  /** What a cancel by an idle thread does: nothing if the job is done, or is running and must not be interrupted; else
      the job is cancelled, and the connection that it runs on is interrupted, or, if it never ran, this thread is to
      finish it. */
  lemma {:induction false} CancelMeans(s: Schedule, t: Thread, mayInterruptIfRunning: bool)
    requires PcOf(After(s), t) == Idle
    ensures var w := After(s); var w' := Next(w, t, Cancel(mayInterruptIfRunning));
            && (w' == w <==>
                  || w.job.state == SUCCEEDED || w.job.state == ERROR || w.job.state == CANCELLED
                  || (w.job.state == RUNNING && !mayInterruptIfRunning))
            && (w' != w ==>
                  && w'.job.state == CANCELLED && w'.past.cancelled
                  && (w.job.state == PENDING ==>
                        PcOf(w', t) == Finishing(None) && w'.past.interrupted == w.past.interrupted)
                  && (w.job.state == RUNNING ==>
                        && w.job.connection.Some?
                        && w'.past.interrupted == w.past.interrupted + [w.job.connection.value]
                        && w'.pcs == w.pcs))
  {
    Always(s);
    hide After;
  }

  /** What an execute by an idle thread does: it runs a pending job, on its connection, and no other. */
  lemma {:induction false} ExecuteMeans(s: Schedule, t: Thread, connection: nat, queue: Option<nat>)
    requires PcOf(After(s), t) == Idle
    ensures var w := After(s); var w' := Next(w, t, Execute(connection, queue));
            && (w' == w <==> w.job.state != PENDING)
            && (w' != w ==>
                  && w'.job.state == RUNNING && w'.job.connection == Some(connection) && w'.job.queue == queue
                  && PcOf(w', t) == Started)
  {
    Always(s);
    hide After;
  }

  /** At the end the job leaves its queue. */
  lemma {:induction false} NotifyMeans(w: World, t: Thread)
    requires PcOf(w, t) == Notifying
    ensures var w' := Next(w, t, Notify);
            w'.job == w.job.(queue := None) && PcOf(w', t) == Idle && w'.ended == w.ended + 1
  {
  }

  /** The callbacks: jobFinished follows jobCancelled or jobError, with the same result, unless one of these throws
      ThreadDeath. */
  lemma {:induction false} CallbacksMean(w: World, t: Thread, threadDeath: bool)
    requires PcOf(w, t).StateCallback? || PcOf(w, t).FinishedCallback?
    ensures var w' := Next(w, t, Callback(threadDeath)); var pc := PcOf(w, t);
            && w'.job == w.job
            && (pc.StateCallback? ==>
                  && w'.finishedWith == w.finishedWith
                  && PcOf(w', t) == if threadDeath && pc.state in {CANCELLED, ERROR} then Idle
                                    else FinishedCallback(pc.result))
            && (pc.FinishedCallback? ==>
                  && w'.finishedWith == w.finishedWith + [pc.result]
                  && PcOf(w', t) == if threadDeath then Idle else Notifying)
  {
  }

  /** A result is stored by the step from RUNNING to SUCCEEDED only. */
  lemma {:induction false} ResultStored(s: Schedule, t: Thread, a: Action)
    ensures var w, w' := After(s), Next(After(s), t, a);
            && (w'.job.result != w.job.result ==> w.job.state.RUNNING? && w'.job.state.SUCCEEDED?)
            && (w'.job.state.SUCCEEDED? && !w.job.state.SUCCEEDED? ==>
                  w.job.state.RUNNING? && PcOf(w, t).Finishing? && w'.job.result == PcOf(w, t).result)
  {
    hide After;
  }

  /** jobFinished is called as documented, with the result of a job that succeeded and else with none, if and only if
      finishJob found the job running or was given no result. */
  lemma {:induction false} FinishedAsDocumented(s: Schedule)
    requires After(s).finishedWith != []
    ensures After(s).entered.Some?
    ensures var (state, result) := After(s).entered.value;
            After(s).finishedWith[0] == (if After(s).job.state == SUCCEEDED then After(s).job.result else None)
            <==> state.RUNNING? || result.None?
    ensures After(s).job.state.ERROR? ==> After(s).finishedWith[0].None?
    ensures After(s).job.state.SUCCEEDED? ==> After(s).finishedWith[0] == After(s).job.result
  {
    Always(s);
  }

  /** What may still change of a job that is done: once, from CANCELLED to ERROR, and not after finishJob. */
  predicate DoneThen(w: World, w': World) {
    && Done(w'.job) && w.finishes <= w'.finishes
    && (w'.job.state == w.job.state || (w.job.state.CANCELLED? && w'.job.state.ERROR?))
    && (w.job.state.SUCCEEDED? || w.job.state.ERROR? || w.finishes == 1 ==>
          w'.job.state == w.job.state && w'.job.result == w.job.result && w'.job.error == w.job.error)
  }

  lemma {:induction false} DoneStep(w: World, t: Thread, a: Action)
    requires Inv(w) && Done(w.job)
    ensures DoneThen(w, Next(w, t, a))
  {
  }

  lemma {:induction false} DoneThenDone(w0: World, w1: World, w2: World)
    requires Inv(w1) && DoneThen(w0, w1) && DoneThen(w1, w2)
    ensures DoneThen(w0, w2)
  {
  }

  /** Once done, a job stays done. */
  lemma {:induction false} DoneForGood(s: Schedule, more: Schedule)
    requires Done(After(s).job)
    ensures DoneThen(After(s), After(s + more))
  {
    if more == [] {
      assert s + more == s;
    } else {
      hide Next, Inv, DoneThen, After;
      var n := |more| - 1;
      DoneForGood(s, more[..n]);
      OneMore(s, more);
      Always(s + more[..n]);
      assert Done(After(s + more[..n]).job) by {
        DoneIsDone(After(s), After(s + more[..n]));
      }
      DoneStep(After(s + more[..n]), more[n].0, more[n].1);
      DoneThenDone(After(s), After(s + more[..n]), After(s + more));
    }
  }

  lemma {:induction false} DoneIsDone(w: World, w': World)
    requires DoneThen(w, w')
    ensures Done(w'.job)
  {
  }

  /** The assertion in cancel: a connection is held only while the job is running, or cancelled while running. */
  lemma {:induction false} CancelAssertion(s: Schedule)
    ensures var f := After(s).job; !Done(f) ==> f.connection.None? || f.state.RUNNING?
  {
    Always(s);
  }

  // ---- where the documentation says otherwise ----

  function Schedule1(e: Action): Schedule {
    [(0, Execute(7, None)), (0, EnterBody), (1, Cancel(true)), (0, e)]
  }

  /** The world after executing and cancelling. */
  function Cancelled1(): World {
    Next(Next(Next(NEW_WORLD, 0, Execute(7, None)), 0, EnterBody), 1, Cancel(true))
  }

  lemma {:induction false} Schedule1Unfolds(e: Action)
    ensures After(Schedule1(e)) == Next(Cancelled1(), 0, e)
  {
    hide Next;
    var s0: Schedule, s1: Schedule := [], [(0, Execute(7, None))];
    var s2, s3 := s1 + [(0, EnterBody)], s1 + [(0, EnterBody), (1, Cancel(true))];
    assert s1 == s0 + [(0, Execute(7, None))] && s3 == s2 + [(1, Cancel(true))] && Schedule1(e) == s3 + [(0, e)];
    OneStep(s0, 0, Execute(7, None));
    OneStep(s1, 0, EnterBody);
    OneStep(s2, 1, Cancel(true));
    OneStep(s3, 0, e);
  }

  lemma {:induction false} Schedule1Ends(e: Action)
    requires e.BodyReturns? || e.BodyThrows?
    ensures var w := After(Schedule1(e));
            && w.job == Fields(CANCELLED, None, Some(7), None, None)
            && PcOf(w, 0) == (if e.BodyReturns? then Finishing(e.value) else Failed(e.thrown))
            && w.finishedWith == []
  {
    Schedule1Unfolds(e);
    hide After;
    var w1 := Next(NEW_WORLD, 0, Execute(7, None));
    assert w1.job == Fields(RUNNING, None, Some(7), None, None) && PcOf(w1, 0).Started? && PcOf(w1, 1).Idle?;
    var w2 := Next(w1, 0, EnterBody);
    assert w2.job == w1.job && PcOf(w2, 0).InBody? && PcOf(w2, 1).Idle?;
    assert Cancelled1().job == w1.job.(state := CANCELLED) && PcOf(Cancelled1(), 0).InBody?;
  }

  lemma {:induction false} OneStep(s: Schedule, t: Thread, a: Action)
    ensures After(s + [(t, a)]) == Next(After(s), t, a)
  {
    hide Next;
    assert (s + [(t, a)])[..|s|] == s;
  }

  /** The body of a cancelled job is still to end, or has failed by other than the interruption. */
  predicate BodyMayFail(pc: Pc) {
    pc.Started? || pc.InBody? || (pc.Failed? && pc.e.Other?)
  }

  /** What a step makes of a cancelled job. */
  lemma {:induction false} CancelledStep(w: World, t: Thread, a: Action)
    requires Inv(w) && w.job.state.CANCELLED?
    ensures Next(w, t, a).job.state.ERROR? <==> a == RecordError && PcOf(w, t).Failed? && PcOf(w, t).e.Other?
    ensures !BodyMayFail(OwnerPc(w)) ==> Next(w, t, a).job.state.CANCELLED? && !BodyMayFail(OwnerPc(Next(w, t, a)))
  {
  }

  /** A cancelled job whose body has ended, other than by such a failure, stays cancelled. */
  lemma {:induction false} StaysCancelled(s: Schedule, more: Schedule)
    requires After(s).job.state.CANCELLED? && !BodyMayFail(OwnerPc(After(s)))
    ensures After(s + more).job.state.CANCELLED? && !BodyMayFail(OwnerPc(After(s + more)))
  {
    if more == [] {
      assert s + more == s;
    } else {
      hide Next, Inv, OwnerPc, After;
      var n := |more| - 1;
      StaysCancelled(s, more[..n]);
      OneMore(s, more);
      Always(s + more[..n]);
      CancelledStep(After(s + more[..n]), more[n].0, more[n].1);
    }
  }

  /** The steps by which such a failure is recorded. */
  function Failing(t: Thread, pc: Pc): Schedule {
    if pc.Started? then [(t, EnterBody), (t, BodyThrows(Other(1))), (t, RecordError)]
    else if pc.InBody? then [(t, BodyThrows(Other(1))), (t, RecordError)]
    else [(t, RecordError)]
  }

  lemma {:induction false} FailingErrs(s: Schedule)
    requires After(s).job.state.CANCELLED? && BodyMayFail(OwnerPc(After(s)))
    ensures After(s).owner.Some?
    ensures After(s + Failing(After(s).owner.value, OwnerPc(After(s)))).job.state.ERROR?
  {
    Always(s);
    var w := After(s);
    var t := w.owner.value;
    hide Inv;
    if OwnerPc(w).Started? {
      var s1, s2 := s + [(t, EnterBody)], s + [(t, EnterBody), (t, BodyThrows(Other(1)))];
      var s3 := s + Failing(t, OwnerPc(w));
      assert s1[..|s|] == s && s2[..|s| + 1] == s1 && s3[..|s| + 2] == s2;
      assert PcOf(After(s1), t).InBody? && PcOf(After(s2), t) == Failed(Other(1));
    } else if OwnerPc(w).InBody? {
      var s1, s2 := s + [(t, BodyThrows(Other(1)))], s + Failing(t, OwnerPc(w));
      assert s1[..|s|] == s && s2[..|s| + 1] == s1;
      assert PcOf(After(s1), t) == Failed(Other(1));
    } else {
      assert (s + Failing(t, OwnerPc(w)))[..|s|] == s;
    }
  }

  /** A cancelled job can still become an erred one if and only if its body may still fail. */
  lemma {:induction false} CancelledMayErr(s: Schedule)
    requires After(s).job.state.CANCELLED?
    ensures BodyMayFail(OwnerPc(After(s))) <==> exists more: Schedule :: After(s + more).job.state.ERROR?
  {
    if BodyMayFail(OwnerPc(After(s))) {
      FailingErrs(s);
    } else {
      forall more: Schedule
        ensures !After(s + more).job.state.ERROR?
      {
        StaysCancelled(s, more);
      }
    }
  }

  /** Such a job: cancelled while its body runs, which then fails. */
  lemma {:induction false} CancelledBecomesError()
    ensures exists s: Schedule, t: Thread, a: Action ::
              After(s).job.state.CANCELLED? && Next(After(s), t, a).job.state.ERROR?
  {
    Schedule1Ends(BodyThrows(Other(1)));
    var s := Schedule1(BodyThrows(Other(1)));
    assert Next(After(s), 0, RecordError).job.state.ERROR?;
  }

  /** A job cancelled while its body was about to return passes the body's result to jobFinished, and stores none. */
  lemma {:induction false} CancelledPassesResult(v: int)
    ensures exists s: Schedule ::
              After(s).job.state.CANCELLED? && After(s).job.result.None? && After(s).finishedWith == [Some(v)]
  {
    Schedule1Ends(BodyReturns(Some(v)));
    var s := Schedule1(BodyReturns(Some(v)));
    var s1, s2, s3 := s + [(0, Finish)], s + [(0, Finish), (0, Callback(false))],
                      s + [(0, Finish), (0, Callback(false)), (0, Callback(false))];
    assert s1[..4] == s && s2[..5] == s1 && s3[..6] == s2;
    assert After(s1).job.state.CANCELLED? && PcOf(After(s1), 0) == StateCallback(CANCELLED, Some(v));
    assert After(s2).job.state.CANCELLED? && PcOf(After(s2), 0) == FinishedCallback(Some(v));
    assert After(s3).finishedWith == [Some(v)] && After(s3).job.state.CANCELLED? && After(s3).job.result.None?;
  }

  /** A job that was cancelled, and jobFinished was never called: jobCancelled threw ThreadDeath. */
  lemma {:induction false} NeverFinished()
    ensures exists s: Schedule ::
              After(s).job.state.CANCELLED? && After(s).ended == 1 && After(s).died && After(s).finishedWith == []
  {
    var s: Schedule := [(0, Cancel(true)), (0, Finish), (0, Callback(true))];
    var s1, s2 := s[..1], s[..2];
    assert s1[..0] == [] && s2[..1] == s1;
    assert After(s1).job.state.CANCELLED? && PcOf(After(s1), 0) == Finishing(None) && After(s1).ended == 0;
    assert After(s1).finishedWith == [];
    assert After(s2).job.state.CANCELLED? && PcOf(After(s2), 0) == StateCallback(CANCELLED, None);
    assert After(s2).finishedWith == [] && After(s2).ended == 0;
    assert After(s).died;
  }
}
