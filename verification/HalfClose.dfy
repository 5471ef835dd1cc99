/**
 Half-close and termination of one end of a stream: CloseSend, end frames, finish calls
 from anywhere, and the onDone hook, interleaved in every way.
 */
module HalfClose {
  import opened Bytes
  import opened StreamState

  /** Who made the finish call that terminated the stream. */
  datatype Origin = ByCloseSend | ByEndFrame | ByFailedEnd | Elsewhere

  /** Where the one execution of CloseSend's body stands. */
  datatype Closer = NotCalled | WritingEnd | MustFinish(origin: Origin) | Returned

  datatype Life = Life(
    kind: Kind, caller: bool,
    s: Stream,
    closer: Closer,
    readers: nat,                // deliverEnd calls that saw sendEnded and have yet to finish
    hooks: nat,                  // finish calls that terminated the stream and have yet to run onDone
    onDoneRuns: nat,
    finishedBy: Option<Origin>,
    endWritten: bool,            // the local end frame was written and recorded
    endArrived: bool,            // a remote end frame was delivered
    given: seq<Cause>,           // what finish calls and cancellations passed, in order
    terminal: Option<Cause>,     // what the first finish call passed
    endClosed: bool)             // an end frame found the receiving half open

  datatype Step =
    | CallCloseSend | RecordWrite(written: bool) | CloserFinishes
    | EndArrives | ReaderFinishes
    | FinishElsewhere(cause: Cause) | CancelElsewhere(cause: Cause) | RunHook

  predicate Enabled(l: Life, step: Step)
  {
    match step
    case CallCloseSend => l.s.sendsItems && l.closer.NotCalled?
    case RecordWrite(_) => l.closer.WritingEnd?
    case CloserFinishes => l.closer.MustFinish?
    case EndArrives => l.s.receivesItems
    case ReaderFinishes => l.readers > 0
    case FinishElsewhere(_) => true
    case CancelElsewhere(_) => true
    case RunHook => l.hooks > 0
  }

  function Finished(l: Life, cause: Cause, origin: Origin): (m: Life)
  {
    var (s, first) := Finish(l.s, cause);
    var m := l.(s := s, given := l.given + [cause], terminal := if l.terminal.Some? then l.terminal else Some(cause));
    if first then m.(hooks := l.hooks + 1, finishedBy := Some(origin)) else m
  }

  function Apply(l: Life, step: Step): (m: Life)
    requires Enabled(l, step)
  {
    match step
    case CallCloseSend => l.(s := BeginCloseSend(l.s), closer := WritingEnd)
    case RecordWrite(written) =>
      var (s, finished) := RecordEnd(l.s, written);
      l.(s := s, endWritten := written,
         closer := if !written then MustFinish(ByFailedEnd) else if finished then MustFinish(ByCloseSend) else Returned)
    case CloserFinishes =>
      Finished(l.(closer := Returned), if l.closer.origin.ByCloseSend? then Closed else Failure(0), l.closer.origin)
    case EndArrives =>
      var (s, finished) := DeliverEnd(l.s);
      l.(s := s, endArrived := true, endClosed := l.endClosed || !l.s.recvClosed,
         readers := if finished then l.readers + 1 else l.readers)
    case ReaderFinishes => Finished(l.(readers := l.readers - 1), Closed, ByEndFrame)
    case FinishElsewhere(cause) => Finished(l, cause, Elsewhere)
    case CancelElsewhere(cause) => l.(s := CancelContext(l.s, cause), given := l.given + [cause])
    case RunHook => l.(hooks := l.hooks - 1, onDoneRuns := l.onDoneRuns + 1)
  }

  function Opened(queueCap: nat, byteLimit: nat, kind: Kind, caller: bool, flowControl: bool): (l: Life)
  {
    Life(kind, caller, Configure(NewStream(queueCap, byteLimit), kind, caller, flowControl),
         NotCalled, 0, 0, 0, None, false, false, [], None, false)
  }

  predicate IsRun(l: Life, steps: seq<Step>)
    decreases |steps|
  {
    steps == [] || (Enabled(l, steps[0]) && IsRun(Apply(l, steps[0]), steps[1..]))
  }

  function After(l: Life, steps: seq<Step>): (m: Life)
    requires IsRun(l, steps)
    decreases |steps|
  {
    if steps == [] then l else After(Apply(l, steps[0]), steps[1..])
  }

  ghost predicate Reachable(l: Life)
  {
    exists queueCap, byteLimit, kind, caller, flowControl, steps ::
      && IsRun(Opened(queueCap, byteLimit, kind, caller, flowControl), steps)
      && After(Opened(queueCap, byteLimit, kind, caller, flowControl), steps) == l
  }

  // ------------------------------------------------------- invariant

  predicate Roles(l: Life)
  {
    && (l.s.receivesItems <==> l.kind.BidiKind? || l.caller == l.kind.ServerKind?)
    && (l.s.sendsItems <==> l.kind.BidiKind? || l.caller == l.kind.ClientKind?)
  }

  predicate Channels(l: Life)
  {
    && l.s.recvDone == (if l.s.recvClosed then 1 else 0)
    && l.s.sendDone == (if l.s.sendClosed then 1 else 0)
    && l.hooks + l.onDoneRuns == (if l.s.done then 1 else 0)
    && (l.finishedBy.Some? <==> l.s.done)
    && (l.s.recvErr.Some? <==> l.s.recvClosed)
    && (l.s.done ==> l.s.recvClosed && l.s.ctxCause.Some?)
  }

  predicate Halves(l: Life)
  {
    && (l.s.sendsItems ==> (l.s.sendClosed <==> !l.closer.NotCalled?))
    && (l.s.sendsItems ==> (l.s.sendEnded <==> l.endWritten))
    && (!l.s.sendsItems ==> l.closer.NotCalled? && (l.s.sendEnded <==> l.kind.ServerKind?))
    && (l.closer.NotCalled? || l.closer.WritingEnd? ==> !l.endWritten)
    && (!l.s.receivesItems ==> l.readers == 0 && !l.endArrived && (l.kind.ServerKind? ==> l.s.recvClosed))
    && (l.endArrived ==> l.s.recvClosed)
    && (l.s.sendEnded && l.s.recvClosed ==> l.s.done || l.closer.MustFinish? || l.readers > 0)
    && (l.closer == MustFinish(ByCloseSend) ==> l.s.sendEnded && l.s.recvClosed)
    && (l.closer.Returned? && !l.endWritten ==> l.s.done)
    && (l.closer.MustFinish? && l.closer.origin.ByCloseSend? ==> l.endWritten)
    && (l.closer.MustFinish? ==> l.closer.origin.ByCloseSend? || l.closer.origin.ByFailedEnd?)
    && (l.readers > 0 ==> l.s.recvClosed)
  }

  /** A client stream's caller waits for the response, its handler for its own return. */
  predicate Patience(l: Life)
  {
    l.kind.ClientKind? ==>
      && l.readers == 0
      && l.finishedBy != Some(ByEndFrame)
      && (l.caller ==> (l.s.recvClosed ==> l.s.done) && l.finishedBy != Some(ByCloseSend))
  }

  /** Which causes are recorded: the first one given is the context's, and the receiving half has
      EOF if an end frame or the handler's role closed it, else what the first finish call passed. */
  predicate Causes(l: Life)
  {
    && l.s.ctxCause == (if l.given == [] then None else Some(l.given[0]))
    && (l.s.done <==> l.terminal.Some?)
    && l.s.recvErr == (if EndedRecv(l) then Some(EOF) else l.terminal)
    && (l.finishedBy.Some? && !l.finishedBy.value.Elsewhere? ==> l.terminal == Some(OwnCause(l.finishedBy.value)))
  }

  /** A stream that ends by both of its halves is closed; a failed end write is a failure. */
  function OwnCause(origin: Origin): (c: Cause)
  {
    if origin.ByFailedEnd? then Failure(0) else Closed
  }

  predicate EndedRecv(l: Life)
  {
    l.endClosed || (l.kind.ServerKind? && !l.caller)
  }

  predicate Inv(l: Life)
  {
    Roles(l) && Channels(l) && Halves(l) && Patience(l) && Causes(l)
  }

  lemma OpenedInv(queueCap: nat, byteLimit: nat, kind: Kind, caller: bool, flowControl: bool)
    ensures Inv(Opened(queueCap, byteLimit, kind, caller, flowControl))
  {
  }

  lemma FinishedInv(l: Life, cause: Cause, origin: Origin)
    requires Roles(l) && Channels(l) && Patience(l) && Causes(l)
    requires origin.Elsewhere? || cause == OwnCause(origin)
    requires l.kind.ClientKind? && !l.s.done ==> !origin.ByEndFrame? && (l.caller ==> !origin.ByCloseSend?)
    ensures var m := Finished(l, cause, origin);
      && Roles(m) && Channels(m) && Patience(m) && Causes(m) && m.s.done
      && m == l.(s := m.s, hooks := m.hooks, finishedBy := m.finishedBy, given := m.given, terminal := m.terminal)
      && m.s == l.s.(recvClosed := m.s.recvClosed, recvErr := m.s.recvErr, recvDone := m.s.recvDone,
                     done := true, ctxCause := m.s.ctxCause)
      && m.s.recvClosed
  {
  }

  lemma CloseSendKeeps(l: Life)
    requires Inv(l) && Enabled(l, CallCloseSend)
    ensures Inv(Apply(l, CallCloseSend))
  {
  }

  lemma RecordKeeps(l: Life, written: bool)
    requires Inv(l) && l.closer.WritingEnd?
    ensures Inv(Apply(l, RecordWrite(written)))
  {
  }

  lemma EndKeeps(l: Life)
    requires Inv(l) && l.s.receivesItems
    ensures Inv(Apply(l, EndArrives))
  {
  }

  lemma CloserKeeps(l: Life)
    requires Inv(l) && l.closer.MustFinish?
    ensures Inv(Apply(l, CloserFinishes))
  {
    hide Finished;
    FinishedInv(l.(closer := Returned), if l.closer.origin.ByCloseSend? then Closed else Failure(0), l.closer.origin);
  }

  lemma ReaderKeeps(l: Life)
    requires Inv(l) && l.readers > 0
    ensures Inv(Apply(l, ReaderFinishes))
  {
    hide Finished;
    FinishedInv(l.(readers := l.readers - 1), Closed, ByEndFrame);
  }

  lemma FinishKeeps(l: Life, cause: Cause)
    requires Inv(l)
    ensures Inv(Apply(l, FinishElsewhere(cause)))
  {
    hide Finished;
    FinishedInv(l, cause, Elsewhere);
  }

  lemma CancelKeeps(l: Life, cause: Cause)
    requires Inv(l)
    ensures Inv(Apply(l, CancelElsewhere(cause)))
  {
  }

  lemma HookKeeps(l: Life)
    requires Inv(l) && l.hooks > 0
    ensures Inv(Apply(l, RunHook))
  {
  }

  lemma StepKeeps(l: Life, step: Step)
    requires Inv(l) && Enabled(l, step)
    ensures Inv(Apply(l, step))
  {
    hide Inv;
    match step
    case CallCloseSend => CloseSendKeeps(l);
    case RecordWrite(written) => RecordKeeps(l, written);
    case CloserFinishes => CloserKeeps(l);
    case EndArrives => EndKeeps(l);
    case ReaderFinishes => ReaderKeeps(l);
    case FinishElsewhere(cause) => FinishKeeps(l, cause);
    case CancelElsewhere(cause) => CancelKeeps(l, cause);
    case RunHook => HookKeeps(l);
  }

  lemma {:induction false} RunKeeps(l: Life, steps: seq<Step>)
    requires Inv(l) && IsRun(l, steps)
    ensures Inv(After(l, steps))
    decreases |steps|
  {
    hide Inv, Apply, Enabled;
    if steps != [] {
      StepKeeps(l, steps[0]);
      RunKeeps(Apply(l, steps[0]), steps[1..]);
    }
  }

  lemma ReachableInv(l: Life)
    requires Reachable(l)
    ensures Inv(l)
  {
    hide Inv, Opened, Apply, Enabled;
    var queueCap, byteLimit, kind, caller, flowControl, steps :|
      && IsRun(Opened(queueCap, byteLimit, kind, caller, flowControl), steps)
      && After(Opened(queueCap, byteLimit, kind, caller, flowControl), steps) == l;
    OpenedInv(queueCap, byteLimit, kind, caller, flowControl);
    RunKeeps(Opened(queueCap, byteLimit, kind, caller, flowControl), steps);
  }

  // ------------------------------------------------------- main results

  /** No run closes recvDone or sendDone twice or runs onDone twice, and onDone is owed or
      has run exactly when the stream is done. */
  lemma ClosedAtMostOnce(l: Life)
    requires Reachable(l)
    ensures l.s.recvDone <= 1 && l.s.sendDone <= 1
    ensures l.hooks + l.onDoneRuns == if l.s.done then 1 else 0
  {
    ReachableInv(l);
  }

  /** Recv and the context report what terminated the stream and nothing else. */
  lemma CausesAreThoseGiven(l: Life)
    requires Reachable(l)
    ensures l.s.recvErr == if EndedRecv(l) then Some(EOF) else l.terminal
    ensures l.s.ctxCause == if l.given == [] then None else Some(l.given[0])
    ensures l.s.done <==> l.terminal.Some?
    ensures l.finishedBy in {Some(ByCloseSend), Some(ByEndFrame)} ==> l.terminal == Some(Closed)
    ensures l.finishedBy == Some(ByFailedEnd) ==> l.terminal == Some(Failure(0))
  {
    ReachableInv(l);
  }

  /** A failed end write terminates the stream before CloseSend returns. */
  lemma FailedEndTerminates(l: Life)
    requires Reachable(l) && l.s.sendsItems && l.closer.Returned? && !l.endWritten
    ensures l.s.done
  {
    ReachableInv(l);
  }

  predicate CausesKept(l: Life, m: Life)
  {
    && (l.s.recvClosed ==> m.s.recvClosed && m.s.recvErr == l.s.recvErr)
    && (l.s.ctxCause.Some? ==> m.s.ctxCause == l.s.ctxCause)
    && (l.s.done ==> m.s.done && m.finishedBy == l.finishedBy)
  }

  lemma FinishedKeepsCauses(l: Life, cause: Cause, origin: Origin)
    ensures CausesKept(l, Finished(l, cause, origin))
  {
  }

  lemma StepKeepsCauses(l: Life, step: Step)
    requires Enabled(l, step)
    ensures CausesKept(l, Apply(l, step))
  {
    hide Finished;
    match step
    case CloserFinishes =>
      var cause := if l.closer.origin.ByCloseSend? then Closed else Failure(0);
      FinishedKeepsCauses(l.(closer := Returned), cause, l.closer.origin);
    case ReaderFinishes => FinishedKeepsCauses(l.(readers := l.readers - 1), Closed, ByEndFrame);
    case FinishElsewhere(cause) => FinishedKeepsCauses(l, cause, Elsewhere);
    case _ =>
  }

  /** The first terminal causes survive every continuation of every run. */
  lemma {:induction false} FirstCauseIsKept(l: Life, steps: seq<Step>)
    requires IsRun(l, steps)
    ensures CausesKept(l, After(l, steps))
    decreases |steps|
  {
    hide Apply, Enabled;
    if steps != [] {
      StepKeepsCauses(l, steps[0]);
      FirstCauseIsKept(Apply(l, steps[0]), steps[1..]);
    }
  }

  /** Once the local end frame is recorded and the remote one delivered, the stream is done
      or the later of the two bookkeeping steps is about to finish it. */
  lemma SecondEndFinishes(l: Life)
    requires Reachable(l)
    requires (l.endWritten || (l.kind.ServerKind? && l.caller)) && (l.endArrived || (l.kind.ServerKind? && !l.caller))
    ensures l.s.done || (Enabled(l, CloserFinishes) && Apply(l, CloserFinishes).s.done)
                     || (Enabled(l, ReaderFinishes) && Apply(l, ReaderFinishes).s.done)
  {
    ReachableInv(l);
  }

  /** A client stream's caller is never finished by its own CloseSend succeeding, and no end
      frame finishes either side of a client stream. */
  lemma ClientStreamWaits(l: Life)
    requires Reachable(l) && l.kind.ClientKind?
    ensures l.finishedBy != Some(ByEndFrame)
    ensures l.caller ==> l.finishedBy != Some(ByCloseSend)
  {
    ReachableInv(l);
  }

  /** A run in which nothing fails and nobody else finishes the stream. */
  predicate OnlyHalfCloses(steps: seq<Step>)
  {
    forall i | 0 <= i < |steps| :: !steps[i].FinishElsewhere? && steps[i] != RecordWrite(false)
  }

  /** In such a run a stream ends only after both of its item directions have. */
  lemma {:induction false} EndsOnlyAfterBothHalves(l: Life, steps: seq<Step>)
    requires Inv(l) && IsRun(l, steps) && OnlyHalfCloses(steps)
    requires HalvesFirst(l)
    ensures HalvesFirst(After(l, steps)) && Inv(After(l, steps))
    decreases |steps|
  {
    hide Inv;
    if steps != [] {
      StepKeeps(l, steps[0]);
      HalvesFirstStep(l, steps[0]);
      assert forall i | 0 <= i < |steps[1..]| :: steps[1..][i] == steps[i + 1];
      EndsOnlyAfterBothHalves(Apply(l, steps[0]), steps[1..]);
    }
  }

  predicate HalvesFirst(l: Life)
  {
    && (l.s.done || l.readers > 0 || l.closer.MustFinish? ==> l.s.sendEnded && l.s.recvClosed)
    && l.closer != MustFinish(ByFailedEnd)
    && (l.s.recvClosed ==> l.endArrived || (l.kind.ServerKind? && !l.caller))
  }

  lemma HalvesFirstStep(l: Life, step: Step)
    requires Inv(l) && HalvesFirst(l) && Enabled(l, step) && !step.FinishElsewhere? && step != RecordWrite(false)
    ensures HalvesFirst(Apply(l, step))
  {
    hide Patience;
  }

  lemma CleanRunEnds(queueCap: nat, byteLimit: nat, kind: Kind, caller: bool, flowControl: bool, steps: seq<Step>)
    requires IsRun(Opened(queueCap, byteLimit, kind, caller, flowControl), steps) && OnlyHalfCloses(steps)
    ensures var l := After(Opened(queueCap, byteLimit, kind, caller, flowControl), steps);
      && (kind.ClientKind? ==> !l.s.done)
      && (l.s.done ==>
            (l.endWritten || (kind.ServerKind? && caller)) && (l.endArrived || (kind.ServerKind? && !caller)))
  {
    var start := Opened(queueCap, byteLimit, kind, caller, flowControl);
    OpenedInv(queueCap, byteLimit, kind, caller, flowControl);
    EndsOnlyAfterBothHalves(start, steps);
    RolesKept(start, steps);
  }

  lemma {:induction false} RolesKept(l: Life, steps: seq<Step>)
    requires IsRun(l, steps)
    ensures After(l, steps).kind == l.kind && After(l, steps).caller == l.caller
    decreases |steps|
  {
    hide Apply, Enabled;
    if steps != [] {
      RolesKeptOnce(l, steps[0]);
      RolesKept(Apply(l, steps[0]), steps[1..]);
    }
  }

  lemma RolesKeptOnce(l: Life, step: Step)
    requires Enabled(l, step)
    ensures Apply(l, step).kind == l.kind && Apply(l, step).caller == l.caller
  {
    hide Finish, DeliverEnd, CancelContext, RecordEnd;
  }
}
