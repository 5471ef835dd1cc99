/**
 The final response of a client stream: CloseAndRecv against the connection reader, the
 single execution of CloseSend, the pending table, and terminations from anywhere.
 */
module FinalResponse {
  import opened Bytes
  import opened StreamState

  /** A response or error frame, or the error that a lost connection answers with; the number
      stands for its contents. */
  type Response = nat

  datatype Result = Got(response: Response) | CloseError | Ended(cause: Cause)

  /** Where CloseAndRecv stands. */
  datatype User =
    | NotCalled
    | AtFirstLook        // before the first non-blocking receive
    | Closing            // inside CloseSend
    | CloseFailed        // CloseSend returned an error, before the second look
    | Waiting            // in the blocking select
    | ContextDone        // woken by the context, before the last look
    | Returned(result: Result)

  /** Where the one execution of CloseSend's body stands. */
  datatype Closer = Unstarted | WritingEnd | Aborting | Done(written: bool)

  /** The reader: it takes the entry out of the pending table, sends the response once the table
      is unlocked, and then finishes the stream if the frame found one. */
  datatype Reader = Reading | MustSend(response: Response, finish: Option<Cause>) | MustFinish(cause: Cause)

  datatype Call = Call(
    s: Stream,
    pending: bool,                 // the entry is in the pending table
    channel: Option<Response>,     // the one-slot response channel
    reader: Reader,
    sweeper: Option<Response>,     // failPending has taken the entry and is to send this
    closer: Closer, user: User,
    hooks: nat,                    // onDone calls owed; each removes the pending entry
    blocked: bool,                 // a send found the one-slot channel full
    sent: Option<Response>,        // what was sent into the channel
    late: bool)                    // CloseAndRecv had returned before that

  datatype Step =
    | ReaderTakes(response: Response, finish: Option<Cause>) | ReaderSends | ReaderFinishes
    | SweeperTakes(response: Response) | SweeperSends
    | StartClose | RecordWrite(written: bool) | CloserAborts
    | CallCloseAndRecv | FirstLook | CloseReturns | SecondLook | Take | Wake | LastLook
    | RunHook | RemovePending | FinishElsewhere(cause: Cause) | CancelElsewhere(cause: Cause)

  predicate Enabled(c: Call, step: Step)
  {
    match step
    case ReaderTakes(_, _) => c.reader.Reading?
    case ReaderSends => c.reader.MustSend?
    case ReaderFinishes => c.reader.MustFinish?
    case SweeperTakes(_) => c.sweeper.None?
    case SweeperSends => c.sweeper.Some?
    case StartClose => c.closer.Unstarted?
    case RecordWrite(_) => c.closer.WritingEnd?
    case CloserAborts => c.closer.Aborting?
    case CallCloseAndRecv => c.user.NotCalled?
    case FirstLook => c.user.AtFirstLook?
    case CloseReturns => c.user.Closing? && c.closer.Done?
    case SecondLook => c.user.CloseFailed?
    case Take => c.user.Waiting? && c.channel.Some?
    case Wake => c.user.Waiting? && c.s.ctxCause.Some?
    case LastLook => c.user.ContextDone?
    case RunHook => c.hooks > 0
    case RemovePending => true
    case FinishElsewhere(_) => true
    case CancelElsewhere(_) => true
  }

  function NextOf(finish: Option<Cause>): (r: Reader)
  {
    if finish.Some? then MustFinish(finish.value) else Reading
  }

  /** deliverPending: the send into the one-slot channel. */
  function Sent(c: Call, response: Response): (d: Call)
  {
    if c.channel.Some? then c.(blocked := true)
    else c.(channel := Some(response), sent := Some(response), late := c.user.Returned?)
  }

  function Finished(c: Call, cause: Cause): (d: Call)
  {
    var (s, firstCall) := Finish(c.s, cause);
    c.(s := s, hooks := if firstCall then c.hooks + 1 else c.hooks)
  }

  function Look(c: Call, otherwise: User): (d: Call)
  {
    if c.channel.Some? then c.(channel := None, user := Returned(Got(c.channel.value))) else c.(user := otherwise)
  }

  function Apply(c: Call, step: Step): (d: Call)
    requires Enabled(c, step)
  {
    match step
    case ReaderTakes(response, finish) =>
      if c.pending then c.(pending := false, reader := MustSend(response, finish)) else c.(reader := NextOf(finish))
    case ReaderSends => Sent(c, c.reader.response).(reader := NextOf(c.reader.finish))
    case ReaderFinishes => Finished(c.(reader := Reading), c.reader.cause)
    case SweeperTakes(response) => if c.pending then c.(pending := false, sweeper := Some(response)) else c
    case SweeperSends => Sent(c, c.sweeper.value).(sweeper := None)
    case StartClose => c.(s := BeginCloseSend(c.s), closer := WritingEnd)
    case RecordWrite(written) =>
      c.(s := RecordEnd(c.s, written).0, closer := if written then Done(true) else Aborting)
    case CloserAborts => Finished(c.(closer := Done(false)), Failure(0))
    case CallCloseAndRecv => c.(user := AtFirstLook)
    case FirstLook => Look(c, Closing)
    case CloseReturns => c.(user := if c.closer.written then Waiting else CloseFailed)
    case SecondLook => Look(c, Returned(CloseError))
    case Take => Look(c, Waiting)
    case Wake => c.(user := ContextDone)
    case LastLook => Look(c, Returned(Ended(if c.s.ctxCause.Some? then c.s.ctxCause.value else Closed)))
    case RunHook => c.(pending := false, hooks := c.hooks - 1)
    case RemovePending => c.(pending := false)
    case FinishElsewhere(cause) => Finished(c, cause)
    case CancelElsewhere(cause) => c.(s := CancelContext(c.s, cause))
  }

  function Opened(queueCap: nat, byteLimit: nat, flowControl: bool): (c: Call)
  {
    Call(Configure(NewStream(queueCap, byteLimit), ClientKind, true, flowControl),
         true, None, Reading, None, Unstarted, NotCalled, 0, false, None, false)
  }

  predicate IsRun(c: Call, steps: seq<Step>)
    decreases |steps|
  {
    steps == [] || (Enabled(c, steps[0]) && IsRun(Apply(c, steps[0]), steps[1..]))
  }

  function After(c: Call, steps: seq<Step>): (d: Call)
    requires IsRun(c, steps)
    decreases |steps|
  {
    if steps == [] then c else After(Apply(c, steps[0]), steps[1..])
  }

  ghost predicate Reachable(c: Call)
  {
    exists queueCap, byteLimit, flowControl, steps ::
      && IsRun(Opened(queueCap, byteLimit, flowControl), steps)
      && After(Opened(queueCap, byteLimit, flowControl), steps) == c
  }

  // ------------------------------------------------------- invariant

  /** How many hold the response: the table, the reader, the sweeper, or the channel's past. */
  function Holders(c: Call): (n: nat)
  {
    (if c.pending then 1 else 0) + (if c.reader.MustSend? then 1 else 0)
    + (if c.sweeper.Some? then 1 else 0) + (if c.sent.Some? then 1 else 0)
  }

  predicate Inv(c: Call)
  {
    && !c.blocked
    && Holders(c) <= 1
    && (c.sent.None? ==> c.channel.None? && !c.late)
    && (c.s.done ==> c.s.ctxCause.Some?)
    && (c.user.ContextDone? ==> c.s.ctxCause.Some?)
    && (c.closer == Done(false) ==> c.s.done)
    && (c.user.CloseFailed? ==> c.closer == Done(false))
    && (c.user.Returned? && !c.user.result.Got? ==> c.s.ctxCause.Some?)
    && (c.user.Returned? && c.user.result.Got? ==> c.sent == Some(c.user.result.response) && !c.late && c.channel.None?)
    && (c.sent.Some? && c.late ==> c.user.Returned? && !c.user.result.Got?)
    && (c.sent.Some? && !c.late && !c.user.Returned? ==> c.channel == c.sent)
    && (c.sent.Some? && !c.late && c.user.Returned? ==> c.user.result == Got(c.sent.value))
  }

  lemma FinishedKeeps(c: Call, cause: Cause)
    requires Inv(c)
    ensures Inv(Finished(c, cause)) && Finished(c, cause).s.done
  {
  }

  lemma LookKeeps(c: Call, step: Step)
    requires Inv(c) && Enabled(c, step)
    requires step.FirstLook? || step.SecondLook? || step.Take? || step.LastLook?
    ensures Inv(Apply(c, step))
  {
  }

  lemma StepKeeps(c: Call, step: Step)
    requires Inv(c) && Enabled(c, step)
    ensures Inv(Apply(c, step))
  {
    if step.FinishElsewhere? || step.ReaderFinishes? || step.CloserAborts? {
      FinishStepKeeps(c, step);
    } else if step.FirstLook? || step.SecondLook? || step.Take? || step.LastLook? {
      LookKeeps(c, step);
    } else {
      hide Finished, Look, Finish;
    }
  }

  lemma FinishStepKeeps(c: Call, step: Step)
    requires Inv(c) && Enabled(c, step) && (step.FinishElsewhere? || step.ReaderFinishes? || step.CloserAborts?)
    ensures Inv(Apply(c, step))
  {
    match step
    case FinishElsewhere(cause) => FinishedKeeps(c, cause);
    case ReaderFinishes => FinishedKeeps(c.(reader := Reading), c.reader.cause);
    case CloserAborts => AbortKeeps(c);
  }

  lemma AbortKeeps(c: Call)
    requires Inv(c) && c.closer.Aborting?
    ensures Inv(Apply(c, CloserAborts))
  {
  }

  lemma {:induction false} RunKeeps(c: Call, steps: seq<Step>)
    requires Inv(c) && IsRun(c, steps)
    ensures Inv(After(c, steps))
    decreases |steps|
  {
    hide Inv, Apply, Enabled;
    if steps != [] {
      StepKeeps(c, steps[0]);
      RunKeeps(Apply(c, steps[0]), steps[1..]);
    }
  }

  lemma ReachableInv(c: Call)
    requires Reachable(c)
    ensures Inv(c)
  {
    var queueCap, byteLimit, flowControl, steps :|
      && IsRun(Opened(queueCap, byteLimit, flowControl), steps)
      && After(Opened(queueCap, byteLimit, flowControl), steps) == c;
    RunKeeps(Opened(queueCap, byteLimit, flowControl), steps);
  }

  /** What was sent, and whether it was too late, never changes again. */
  lemma {:induction false} SentStays(c: Call, steps: seq<Step>)
    requires IsRun(c, steps) && Inv(c) && c.sent.Some?
    ensures After(c, steps).sent == c.sent && After(c, steps).late == c.late
    decreases |steps|
  {
    hide Inv, Apply, Enabled;
    if steps != [] {
      StepKeeps(c, steps[0]);
      SentStaysOnce(c, steps[0]);
      SentStays(Apply(c, steps[0]), steps[1..]);
    }
  }

  lemma SentStaysOnce(c: Call, step: Step)
    requires Inv(c) && c.sent.Some? && Enabled(c, step)
    ensures Apply(c, step).sent == c.sent && Apply(c, step).late == c.late
  {
  }

  // ------------------------------------------------------- main results

  /** The send into the one-slot channel never blocks the reader or the sweep. */
  lemma DeliveryNeverBlocks(c: Call)
    requires Reachable(c)
    ensures !c.blocked && (c.reader.MustSend? || c.sweeper.Some? ==> c.channel.None?)
  {
    ReachableInv(c);
  }

  /** The response about to be sent by a step, if it is a send. */
  function Sending(c: Call, step: Step): (r: Option<Response>)
  {
    if step.ReaderSends? && c.reader.MustSend? then Some(c.reader.response)
    else if step.SweeperSends? then c.sweeper
    else None
  }

  /** A response sent into the channel is kept for CloseAndRecv, or returned by it, in every
      continuation, if and only if CloseAndRecv had not returned before the send; and it has not
      if nothing had terminated the stream by then. */
  lemma FinalResponseIsNotLost(c: Call, send: Step, afterwards: seq<Step>)
    requires Reachable(c) && Enabled(c, send) && Sending(c, send).Some? && IsRun(Apply(c, send), afterwards)
    ensures var response, e := Sending(c, send).value, After(Apply(c, send), afterwards);
      && (!c.user.Returned? <==>
            if e.user.Returned? then e.user.result == Got(response) else e.channel == Some(response))
      && (c.s.ctxCause.None? ==> !c.user.Returned?)
  {
    ReachableInv(c);
    var d := Apply(c, send);
    assert d.sent == Sending(c, send) && d.late == c.user.Returned?;
    StepKeeps(c, send);
    RunKeeps(d, afterwards);
    SentStays(d, afterwards);
  }

  lemma OneStep(c: Call, step: Step, steps: seq<Step>)
    requires Enabled(c, step) && IsRun(Apply(c, step), steps)
    ensures IsRun(c, [step] + steps) && After(c, [step] + steps) == After(Apply(c, step), steps)
  {
    hide Enabled, Apply;
    assert ([step] + steps)[1..] == steps;
  }

  /** The response of an open call, taken by the reader while CloseAndRecv waits and nothing has
      terminated the stream, can still be lost: the context is cancelled between the take and
      the send. */
  lemma TakenResponseCanBeLost(response: Response) returns (before: seq<Step>, afterwards: seq<Step>)
    ensures IsRun(Opened(1, 1, false), before)
    ensures var c := After(Opened(1, 1, false), before);
      && c.pending && c.s.ctxCause.None? && !c.s.done && c.user.Waiting?
      && Enabled(c, ReaderTakes(response, Some(Closed)))
      && IsRun(Apply(c, ReaderTakes(response, Some(Closed))), afterwards)
      && var e := After(Apply(c, ReaderTakes(response, Some(Closed))), afterwards);
         e.user == Returned(Ended(Failure(9))) && e.sent == Some(response) && e.late
  {
    hide IsRun, After, Opened;
    before := UserWaits();
    afterwards := CancelledBeforeSend(Apply(After(Opened(1, 1, false), before), ReaderTakes(response, Some(Closed))));
  }

  lemma UserWaits() returns (before: seq<Step>)
    ensures IsRun(Opened(1, 1, false), before)
    ensures var c := After(Opened(1, 1, false), before);
      c.pending && c.channel.None? && c.reader.Reading? && c.s.ctxCause.None? && !c.s.done && c.user.Waiting?
  {
    hide IsRun, After;
    var c0 := Opened(1, 1, false);
    var c1 := Apply(c0, StartClose);
    var c2 := Apply(c1, RecordWrite(true));
    var rest := UserCalls(c2);
    OneStep(c1, RecordWrite(true), rest);
    OneStep(c0, StartClose, [RecordWrite(true)] + rest);
    before := [StartClose] + ([RecordWrite(true)] + rest);
  }

  lemma UserCalls(c: Call) returns (steps: seq<Step>)
    requires c.user.NotCalled? && c.closer == Done(true) && c.channel.None?
    ensures IsRun(c, steps) && After(c, steps) == c.(user := Waiting)
  {
    hide IsRun, After;
    var c1 := Apply(c, CallCloseAndRecv);
    var c2 := Apply(c1, FirstLook);
    var c3 := Apply(c2, CloseReturns);
    Nothing(c3);
    OneStep(c2, CloseReturns, []);
    OneStep(c1, FirstLook, [CloseReturns] + []);
    OneStep(c, CallCloseAndRecv, [FirstLook] + ([CloseReturns] + []));
    steps := [CallCloseAndRecv] + ([FirstLook] + ([CloseReturns] + []));
  }

  lemma Nothing(c: Call)
    ensures IsRun(c, []) && After(c, []) == c
  {
  }

  lemma CancelledBeforeSend(c: Call) returns (steps: seq<Step>)
    requires c.reader.MustSend? && c.user.Waiting? && c.channel.None? && c.s.ctxCause.None?
    ensures IsRun(c, steps)
    ensures var e := After(c, steps);
      e.user == Returned(Ended(Failure(9))) && e.sent == Some(c.reader.response) && e.late
  {
    hide IsRun, After;
    var c1 := Apply(c, CancelElsewhere(Failure(9)));
    var c2 := Apply(c1, Wake);
    var c3 := Apply(c2, LastLook);
    var c4 := Apply(c3, ReaderSends);
    Nothing(c4);
    OneStep(c3, ReaderSends, []);
    OneStep(c2, LastLook, [ReaderSends] + []);
    OneStep(c1, Wake, [LastLook] + ([ReaderSends] + []));
    OneStep(c, CancelElsewhere(Failure(9)), [Wake] + ([LastLook] + ([ReaderSends] + [])));
    steps := [CancelElsewhere(Failure(9))] + ([Wake] + ([LastLook] + ([ReaderSends] + [])));
  }

  /** A termination before the send need not lose the response: CloseAndRecv may be woken by it
      and still find the response at its last look. */
  lemma CancelledCallCanStillGetIt(c: Call) returns (steps: seq<Step>)
    requires c.reader.MustSend? && c.user.Waiting? && c.channel.None? && c.s.ctxCause.None?
    ensures IsRun(c, steps) && steps != [] && steps[0] == CancelElsewhere(Failure(9))
    ensures After(c, steps).user == Returned(Got(c.reader.response))
  {
    hide IsRun, After;
    var c1 := Apply(c, CancelElsewhere(Failure(9)));
    var c2 := Apply(c1, Wake);
    var c3 := Apply(c2, ReaderSends);
    var c4 := Apply(c3, LastLook);
    Nothing(c4);
    OneStep(c3, LastLook, []);
    OneStep(c2, ReaderSends, [LastLook] + []);
    OneStep(c1, Wake, [ReaderSends] + ([LastLook] + []));
    OneStep(c, CancelElsewhere(Failure(9)), [Wake] + ([ReaderSends] + ([LastLook] + [])));
    steps := [CancelElsewhere(Failure(9))] + ([Wake] + ([ReaderSends] + ([LastLook] + [])));
  }

  /** A frame that finds the stream finishes it, after its response is sent, whether or not anyone
      still waits for that. */
  lemma FrameFinishesStream(c: Call, response: Response, cause: Cause)
    requires c.reader.Reading?
    ensures var d := Apply(c, ReaderTakes(response, Some(cause)));
      && (c.pending ==>
            && Enabled(d, ReaderSends) && Apply(d, ReaderSends).reader == MustFinish(cause)
            && Apply(Apply(d, ReaderSends), ReaderFinishes).s.done)
      && (!c.pending ==> Enabled(d, ReaderFinishes) && Apply(d, ReaderFinishes).s.done)
  {
  }

  /** If CloseSend failed and no response is there, that is what CloseAndRecv returns. */
  lemma CloseErrorIsReported(c: Call)
    requires c.user.Closing? && c.closer == Done(false) && c.channel.None?
    ensures var d := Apply(c, CloseReturns);
      Enabled(d, SecondLook) && Apply(d, SecondLook).user == Returned(CloseError)
  {
  }

  /** With a response in time CloseAndRecv is never stuck once CloseSend has returned: it can
      take it now, or first learn what CloseSend returned. */
  lemma ResponseIsTaken(c: Call)
    requires Reachable(c) && c.sent.Some? && !c.late && !c.user.Returned? && c.closer.Done? && !c.user.NotCalled?
    ensures exists step ::
      Enabled(c, step) && (step.CloseReturns? || Apply(c, step).user == Returned(Got(c.sent.value)))
  {
    ReachableInv(c);
    match c.user
    case AtFirstLook => assert Enabled(c, FirstLook) && Apply(c, FirstLook).user == Returned(Got(c.sent.value));
    case Closing => assert Enabled(c, CloseReturns);
    case CloseFailed => assert Enabled(c, SecondLook) && Apply(c, SecondLook).user == Returned(Got(c.sent.value));
    case Waiting => assert Enabled(c, Take) && Apply(c, Take).user == Returned(Got(c.sent.value));
    case ContextDone => assert Enabled(c, LastLook) && Apply(c, LastLook).user == Returned(Got(c.sent.value));
  }
}
