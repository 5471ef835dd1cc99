/**
 One item direction of a flow-controlled stream: a sending Stream, a receiving Stream,
 a FIFO wire each way, and every goroutine that may stand between two critical sections.
 A run is any sequence of enabled steps.
 */
module CreditProtocol {
  import opened Bytes
  import opened StreamState

  /** Where Send stands; every state but Idle holds sendMu. */
  datatype Sending =
    | Idle
    | AtTop(p: Payload)     // about to call sendError
    | Checked(p: Payload)   // about to enter takeCredit's critical section
    | Waiting(p: Payload)   // in takeCredit's select
    | Writing(p: Payload)   // credit taken, frame not yet written
    | Failing(p: Payload)   // write failed, abort not yet run

  datatype Closing = NotClosing | WantEnd | EndWritten | EndAbandoned

  datatype Frame = Item(p: Payload) | End

  datatype Side = Sender | Receiver

  datatype Direction = Direction(
    s: Stream, r: Stream, window: Window,
    sending: Sending, closing: Closing,
    wire: seq<Frame>,             // item and end frames, oldest first
    inHand: seq<Payload>,         // dequeued by Recv, bufferedBytes not yet reduced
    decoded: seq<Payload>,        // bufferedBytes reduced, returnCredit not yet entered
    composed: seq<Window>,        // window frames built but not yet written, any order
    unwritten: seq<Window>,       // window frames whose write failed, abort not yet run
    credit: seq<Window>,          // window frames on the wire, oldest first
    awake: nat,                   // Recv callers past the blocking select
    drained: nat,                 // of those, found the queue empty after recvDone had closed
    early: nat,                   // of those, found the queue empty before recvDone had closed
    sent: seq<Payload>, received: seq<Payload>,
    endDelivered: bool,           // the end frame is what closed the receiving side
    forcedEOF: bool,              // some finish call passed io.EOF itself
    violated: bool)               // an overflow or a rejected grant has happened

  datatype Step =
    | StartSend(p: Payload) | CheckError | Take | Wake | WriteItem | FailItem | AbortSend
    | CloseSend | WriteEnd(written: bool)
    | Deliver | Receive | DeductBytes(k: nat) | Return(k: nat)
    | WriteWindow(k: nat) | FailWindow(k: nat) | AbortReturn(k: nat)
    | Accept
    | RecvWakes | RecvFindsEmpty | RecvReports(observed: bool)
    | Cancel(side: Side, cause: Cause) | Terminate(side: Side, cause: Cause)

  predicate Enabled(d: Direction, step: Step)
    requires Shape(d)
  {
    match step
    case StartSend(_) => d.sending.Idle? && !d.closing.WantEnd? && SendError(d.s).None?
    case CheckError => d.sending.AtTop?
    case Take => d.sending.Checked?
    case Wake => d.sending.Waiting? && (d.s.flow.value.changed || d.s.sendDone > 0 || d.s.ctxCause.Some?)
    case WriteItem => d.sending.Writing?
    case FailItem => d.sending.Writing?
    case AbortSend => d.sending.Failing?
    case CloseSend => d.closing.NotClosing?
    case WriteEnd(_) => d.closing.WantEnd? && d.sending.Idle?
    case Deliver => d.wire != []
    case Receive => d.r.queue != []
    case DeductBytes(k) => k < |d.inHand|
    case Return(k) => k < |d.decoded|
    case WriteWindow(k) => k < |d.composed|
    case FailWindow(k) => k < |d.composed|
    case AbortReturn(k) => k < |d.unwritten|
    case Accept => d.credit != []
    case RecvWakes => d.r.recvDone > 0 || d.r.ctxCause.Some?
    case RecvFindsEmpty => d.awake > 0 && d.r.queue == []
    case RecvReports(observed) => if observed then d.drained > 0 else d.early > 0
    case Cancel(_, _) => true
    case Terminate(_, _) => true
  }

  function Apply(d: Direction, step: Step): (e: Direction)
    requires Shape(d) && Enabled(d, step)
  {
    match step
    case StartSend(p) => AtStartSend(d, p)
    case CheckError => AtCheckError(d)
    case Take => AtTake(d)
    case Wake => AtWake(d)
    case WriteItem => AtWriteItem(d)
    case FailItem => AtFailItem(d)
    case AbortSend => AtAbortSend(d)
    case CloseSend => AtCloseSend(d)
    case WriteEnd(written) => AtWriteEnd(d, written)
    case Deliver => AtDeliver(d)
    case Receive => AtReceive(d)
    case DeductBytes(k) => AtDeduct(d, k)
    case Return(k) => AtReturn(d, k)
    case WriteWindow(k) => AtWriteWindow(d, k)
    case FailWindow(k) => AtFailWindow(d, k)
    case AbortReturn(k) => AtAbortReturn(d, k)
    case Accept => AtAccept(d)
    case RecvWakes => AtRecvWakes(d)
    case RecvFindsEmpty => AtRecvFindsEmpty(d)
    case RecvReports(observed) => AtRecvReports(d, observed)
    case Cancel(side, cause) => AtCancel(d, side, cause)
    case Terminate(side, cause) => AtTerminate(d, side, cause)
  }

  function AtStartSend(d: Direction, p: Payload): (e: Direction)
  {
    d.(sending := AtTop(p))
  }

  function AtCheckError(d: Direction): (e: Direction)
    requires d.sending.AtTop?
  {
    d.(sending := if SendError(d.s).Some? then Idle else Checked(d.sending.p))
  }

  function AtTake(d: Direction): (e: Direction)
    requires d.sending.Checked?
  {
    var (s, taking) := TakeCredit(d.s, |d.sending.p|);
    d.(s := s, sending := match taking
                          case Taken => Writing(d.sending.p)
                          case TooLarge => Idle
                          case MustWait => Waiting(d.sending.p))
  }

  function AtWake(d: Direction): (e: Direction)
    requires d.sending.Waiting? && d.s.flow.Some?
  {
    d.(s := if d.s.flow.value.changed then ConsumeToken(d.s) else d.s, sending := AtTop(d.sending.p))
  }

  function AtWriteItem(d: Direction): (e: Direction)
    requires d.sending.Writing?
  {
    d.(sending := Idle, wire := d.wire + [Item(d.sending.p)], sent := d.sent + [d.sending.p])
  }

  function AtFailItem(d: Direction): (e: Direction)
    requires d.sending.Writing?
  {
    d.(sending := Failing(d.sending.p))
  }

  function AtAbortSend(d: Direction): (e: Direction)
  {
    d.(sending := Idle, s := Finish(d.s, Failure(0)).0)
  }

  function AtCloseSend(d: Direction): (e: Direction)
  {
    d.(closing := WantEnd, s := BeginCloseSend(d.s))
  }

  function AtWriteEnd(d: Direction, written: bool): (e: Direction)
  {
    if written then d.(closing := EndWritten, wire := d.wire + [End]) else d.(closing := EndAbandoned)
  }

  function AtDeliver(d: Direction): (e: Direction)
    requires d.wire != []
  {
    if d.wire[0].End? then AtDeliverEnd(d) else AtDeliverItem(d)
  }

  function AtDeliverItem(d: Direction): (e: Direction)
    requires d.wire != [] && d.wire[0].Item?
  {
    var (r, delivery) := DeliverItem(d.r, d.wire[0].p);
    if delivery.Overflow? then d.(wire := d.wire[1..], r := Finish(r, Failure(1)).0, violated := true)
    else d.(wire := d.wire[1..], r := r)
  }

  function AtDeliverEnd(d: Direction): (e: Direction)
    requires d.wire != []
  {
    d.(wire := d.wire[1..], r := DeliverEnd(d.r).0, endDelivered := d.endDelivered || !d.r.recvClosed)
  }

  function AtReceive(d: Direction): (e: Direction)
    requires d.r.queue != []
  {
    var (r, p) := Dequeue(d.r);
    d.(r := r, inHand := d.inHand + [p], received := d.received + [p])
  }

  function AtDeduct(d: Direction, k: nat): (e: Direction)
    requires k < |d.inHand|
  {
    d.(r := Deduct(d.r, |d.inHand[k]|), inHand := Without(d.inHand, k), decoded := d.decoded + [d.inHand[k]])
  }

  function AtReturn(d: Direction, k: nat): (e: Direction)
    requires k < |d.decoded|
  {
    var (r, w) := ReturnCredit(d.r, |d.decoded[k]|);
    d.(r := r, decoded := Without(d.decoded, k), composed := if w.Some? then d.composed + [w.value] else d.composed)
  }

  function AtWriteWindow(d: Direction, k: nat): (e: Direction)
    requires k < |d.composed|
  {
    d.(composed := Without(d.composed, k), credit := d.credit + [d.composed[k]])
  }

  function AtFailWindow(d: Direction, k: nat): (e: Direction)
    requires k < |d.composed|
  {
    d.(composed := Without(d.composed, k), unwritten := d.unwritten + [d.composed[k]])
  }

  function AtAbortReturn(d: Direction, k: nat): (e: Direction)
    requires k < |d.unwritten|
  {
    d.(unwritten := Without(d.unwritten, k), r := Finish(d.r, Failure(0)).0)
  }

  function AtAccept(d: Direction): (e: Direction)
    requires d.credit != []
  {
    var (s, acceptance) := AcceptCredit(d.s, d.credit[0]);
    if acceptance.Rejected? then d.(credit := d.credit[1..], s := Finish(s, Failure(2)).0, violated := true)
    else d.(credit := d.credit[1..], s := s)
  }

  function AtRecvWakes(d: Direction): (e: Direction)
  {
    d.(awake := d.awake + 1)
  }

  function AtRecvFindsEmpty(d: Direction): (e: Direction)
    requires d.awake > 0
  {
    if d.r.recvClosed then d.(awake := d.awake - 1, drained := d.drained + 1)
    else d.(awake := d.awake - 1, early := d.early + 1)
  }

  function AtRecvReports(d: Direction, observed: bool): (e: Direction)
    requires if observed then d.drained > 0 else d.early > 0
  {
    if observed then d.(drained := d.drained - 1) else d.(early := d.early - 1)
  }

  function AtCancel(d: Direction, side: Side, cause: Cause): (e: Direction)
  {
    if side.Sender? then d.(s := CancelContext(d.s, cause)) else d.(r := CancelContext(d.r, cause))
  }

  function AtTerminate(d: Direction, side: Side, cause: Cause): (e: Direction)
  {
    if side.Sender? then d.(s := Finish(d.s, cause).0)
    else d.(r := Finish(d.r, cause).0, forcedEOF := d.forcedEOF || cause.EOF?)
  }

  predicate Shape(d: Direction)
  {
    && d.s.sendsItems && d.s.flow.Some?
    && d.r.receivesItems && d.r.flow.Some?
    && d.window == Window(d.r.queueCap, d.r.byteLimit)
    && d.window.items > 0 && d.window.bytes > 0
  }

  /** A fresh direction whose one window frame is built (a handler's grantInitialCredit)
      or already on the wire (a caller's stream_start). */
  predicate Initial(d: Direction)
  {
    && Shape(d)
    && d.s.flow.value == NO_CREDIT && !d.s.sendClosed && !d.s.done && d.s.ctxCause.None? && d.s.sendDone == 0
    && d.r.flow.value.returnItems == 0 && d.r.flow.value.returnBytes == 0
    && d.r.queue == [] && d.r.bufferedBytes == 0 && !d.r.recvClosed && !d.r.done
    && d.r.recvErr.None? && d.r.ctxCause.None? && d.r.recvDone == 0
    && d.sending.Idle? && d.closing.NotClosing? && d.wire == [] && d.inHand == [] && d.decoded == []
    && d.unwritten == [] && d.composed + d.credit == [d.window]
    && d.awake == d.drained == d.early == 0
    && d.sent == [] && d.received == [] && !d.endDelivered && !d.forcedEOF && !d.violated
  }

  // ------------------------------------------------------- the global invariant

  function Held(x: Sending): (ps: seq<Payload>)
  {
    match x case Writing(p) => [p] case Failing(p) => [p] case _ => []
  }

  function ItemsOf(wire: seq<Frame>): (ps: seq<Payload>)
  {
    if wire == [] then [] else (if wire[0].Item? then [wire[0].p] else []) + ItemsOf(wire[1..])
  }

  function InFlightItems(d: Direction): (n: nat)
  {
    |Held(d.sending)| + |ItemsOf(d.wire)| + |d.r.queue| + |d.inHand| + |d.decoded|
  }

  function InFlightBytes(d: Direction): (n: nat)
  {
    PayloadBytes(Held(d.sending)) + PayloadBytes(ItemsOf(d.wire)) + PayloadBytes(d.r.queue)
    + PayloadBytes(d.inHand) + PayloadBytes(d.decoded)
  }

  /** Item credit wherever it may be: at the sender, spent on an item under way, batched
      at the receiver, or in a window frame. */
  function TotalItems(d: Direction): (n: nat)
    requires Shape(d)
  {
    d.s.flow.value.items + InFlightItems(d) + d.r.flow.value.returnItems
    + ItemCredit(d.composed) + ItemCredit(d.unwritten) + ItemCredit(d.credit)
  }

  function TotalBytes(d: Direction): (n: nat)
    requires Shape(d)
  {
    d.s.flow.value.bytes + InFlightBytes(d) + d.r.flow.value.returnBytes
    + ByteCredit(d.composed) + ByteCredit(d.unwritten) + ByteCredit(d.credit)
  }

  predicate Open(d: Direction)
  {
    !d.s.sendClosed && !d.s.done && !d.r.recvClosed && !d.r.done
  }

  predicate Conserved(d: Direction)
    requires Shape(d)
  {
    && TotalItems(d) <= d.window.items
    && TotalBytes(d) <= d.window.bytes
    && (Open(d) ==> TotalItems(d) == d.window.items && TotalBytes(d) == d.window.bytes)
  }

  predicate Granting(d: Direction)
    requires Shape(d)
  {
    if d.s.flow.value.initialized then
      d.s.flow.value.maxItems == d.window.items && d.s.flow.value.maxBytes == d.window.bytes
    else
      && d.s.flow.value.items == 0 && d.s.flow.value.bytes == 0
      && InFlightItems(d) == 0 && d.r.flow.value.returnItems == 0
      && |d.composed| + |d.unwritten| + |d.credit| <= 1
      && Only(d.composed, d.window) && Only(d.unwritten, d.window) && Only(d.credit, d.window)
  }

  predicate Buffering(d: Direction)
    requires Shape(d)
  {
    && d.r.bufferedBytes == PayloadBytes(d.r.queue) + PayloadBytes(d.inHand)
    && (d.r.flow.value.returnItems == 0 ==> d.r.flow.value.returnBytes == 0)
    && (!d.r.recvClosed && !d.r.done && d.r.flow.value.returnItems > 0 ==>
          d.r.queue != [] || d.inHand != [] || d.decoded != [])
    && Positive(d.composed) && Positive(d.unwritten) && Positive(d.credit)
  }

  predicate Positive(ws: seq<Window>)
  {
    forall i | 0 <= i < |ws| :: ws[i].items > 0
  }

  predicate Only(ws: seq<Window>, w: Window)
  {
    forall i | 0 <= i < |ws| :: ws[i] == w
  }

  /** A sender in takeCredit's select whose next pass would not wait has been signalled. */
  predicate Signalled(d: Direction)
    requires Shape(d)
  {
    d.sending.Waiting? && !TakeCredit(d.s, |d.sending.p|).1.MustWait? ==> d.s.flow.value.changed
  }

  predicate Terminating(d: Direction)
  {
    && (d.s.done ==> d.s.ctxCause.Some?)
    && (d.s.sendDone > 0 <==> d.s.sendClosed)
    && (d.s.sendClosed <==> !d.closing.NotClosing?)
    && (d.r.done ==> d.r.recvClosed && d.r.ctxCause.Some?)
    && (d.r.recvDone > 0 <==> d.r.recvClosed)
    && (d.r.recvErr.Some? <==> d.r.recvClosed)
  }

  predicate Ordered(d: Direction)
  {
    && (forall i | 0 <= i < |d.wire| :: d.wire[i].End? ==> i == |d.wire| - 1)
    && (d.closing.EndWritten? || d.closing.EndAbandoned? ==> d.sending.Idle?)
    && (End in d.wire ==> d.closing.EndWritten?)
    && (d.endDelivered ==> d.r.recvClosed && d.closing.EndWritten? && End !in d.wire)
    && d.received + d.r.queue <= d.sent
    && (!d.r.recvClosed ==> d.received + d.r.queue + ItemsOf(d.wire) == d.sent)
    && (!d.r.recvClosed && d.closing.EndWritten? ==> End in d.wire)
    && (d.endDelivered ==> d.received + d.r.queue == d.sent)
    && (d.r.recvErr == Some(EOF) ==> d.endDelivered || d.forcedEOF)
    && (d.drained > 0 ==> d.r.recvClosed && d.r.queue == [])
  }

  predicate Accounted(d: Direction)
  {
    Shape(d) && Conserved(d) && Granting(d) && Buffering(d) && Signalled(d) && !d.violated
  }

  predicate Inv(d: Direction)
  {
    Accounted(d) && Terminating(d) && Ordered(d)
  }

  // ------------------------------------------------------- runs

  predicate IsRun(d: Direction, steps: seq<Step>)
    decreases |steps|
  {
    Shape(d) && (steps == [] || (Enabled(d, steps[0]) && IsRun(Apply(d, steps[0]), steps[1..])))
  }

  function After(d: Direction, steps: seq<Step>): (e: Direction)
    requires IsRun(d, steps)
    ensures Shape(e)
    decreases |steps|
  {
    if steps == [] then d else After(Apply(d, steps[0]), steps[1..])
  }

  ghost predicate Reachable(d: Direction)
  {
    exists start, steps :: Initial(start) && IsRun(start, steps) && After(start, steps) == d
  }

  lemma InitialInv(d: Direction)
    requires Initial(d)
    ensures Inv(d)
  {
    CreditAppend(d.composed, d.credit);
    assert ItemCredit([d.window]) == d.window.items && ByteCredit([d.window]) == d.window.bytes;
    assert |d.composed + d.credit| == 1;
    assert d.composed == [] || d.credit == [];
    assert d.composed == [d.window] || d.credit == [d.window] by {
      assert d.composed == [] ==> d.composed + d.credit == d.credit;
      assert d.credit == [] ==> d.composed + d.credit == d.composed;
    }
  }

  lemma {:induction false} ItemsAppend(wire: seq<Frame>, f: Frame)
    ensures ItemsOf(wire + [f]) == ItemsOf(wire) + if f.Item? then [f.p] else []
  {
    if wire == [] {
      assert wire + [f] == [f];
    } else {
      ItemsAppend(wire[1..], f);
      assert (wire + [f])[1..] == wire[1..] + [f];
    }
  }

  /** Steps that leave credit, items and window frames where they are. */
  lemma AccountFrame(d: Direction, e: Direction)
    requires Accounted(d) && Shape(e) && e.window == d.window && !e.violated
    requires e.s.flow == d.s.flow && e.r.flow == d.r.flow
    requires e.r.queue == d.r.queue && e.r.bufferedBytes == d.r.bufferedBytes
    requires Held(e.sending) == Held(d.sending) && ItemsOf(e.wire) == ItemsOf(d.wire)
    requires e.inHand == d.inHand && e.decoded == d.decoded
    requires e.composed == d.composed && e.unwritten == d.unwritten && e.credit == d.credit
    requires d.s.sendClosed ==> e.s.sendClosed
    requires d.s.done ==> e.s.done
    requires d.r.recvClosed ==> e.r.recvClosed
    requires d.r.done ==> e.r.done
    requires e.sending.Waiting? ==> e.sending == d.sending
    ensures Accounted(e)
  {
  }

  /** Steps that leave the wire, the queue and the logs as they are. */
  lemma OrderFrame(d: Direction, e: Direction)
    requires Ordered(d)
    requires e.wire == d.wire && e.sent == d.sent && e.received == d.received && e.r.queue == d.r.queue
    requires e.endDelivered == d.endDelivered
    requires e.closing == d.closing || (d.closing.NotClosing? && e.closing.WantEnd?)
    requires e.sending == d.sending || e.sending.Idle? || d.closing.NotClosing? || d.closing.WantEnd?
    requires d.r.recvClosed ==> e.r.recvClosed
    requires e.r.recvErr == Some(EOF) ==> d.r.recvErr == Some(EOF) || e.forcedEOF
    requires d.forcedEOF ==> e.forcedEOF
    requires e.drained > 0 ==> d.drained > 0 || (e.r.recvClosed && e.r.queue == [])
    ensures Ordered(e)
  {
  }

  lemma FrameKeeps(d: Direction, e: Direction)
    requires Accounted(d) && Ordered(d) && Terminating(e)
    requires e.s.flow == d.s.flow && e.s.sendsItems == d.s.sendsItems
    requires e.r.flow == d.r.flow && e.r.receivesItems == d.r.receivesItems
    requires e.r.queue == d.r.queue && e.r.bufferedBytes == d.r.bufferedBytes
    requires e.r.queueCap == d.r.queueCap && e.r.byteLimit == d.r.byteLimit
    requires e == d.(s := e.s, r := e.r, sending := e.sending, closing := e.closing, forcedEOF := e.forcedEOF,
                     awake := e.awake, drained := e.drained, early := e.early)
    requires Held(e.sending) == Held(d.sending)
    requires d.s.sendClosed ==> e.s.sendClosed
    requires d.s.done ==> e.s.done
    requires d.r.recvClosed ==> e.r.recvClosed
    requires d.r.done ==> e.r.done
    requires e.sending.Waiting? ==> e.sending == d.sending
    requires e.closing == d.closing || (d.closing.NotClosing? && e.closing.WantEnd?)
    requires e.sending == d.sending || e.sending.Idle? || d.closing.NotClosing? || d.closing.WantEnd?
    requires e.r.recvErr == Some(EOF) ==> d.r.recvErr == Some(EOF) || e.forcedEOF
    requires d.forcedEOF ==> e.forcedEOF
    requires e.drained > 0 ==> d.drained > 0 || (e.r.recvClosed && e.r.queue == [])
    ensures Inv(e)
  {
    hide Conserved, Granting, Buffering, Signalled, Ordered;
    AccountFrame(d, e);
    OrderFrame(d, e);
  }

  lemma StartSendKeeps(d: Direction, p: Payload)
    requires Inv(d) && Enabled(d, StartSend(p))
    ensures Inv(AtStartSend(d, p))
  {
    hide Conserved, Granting, Buffering, Signalled;
    FrameKeeps(d, AtStartSend(d, p));
  }

  lemma CheckErrorKeeps(d: Direction)
    requires Inv(d) && d.sending.AtTop?
    ensures Inv(AtCheckError(d))
  {
    hide Conserved, Granting, Buffering, Signalled;
    FrameKeeps(d, AtCheckError(d));
  }

  lemma FailItemKeeps(d: Direction)
    requires Inv(d) && d.sending.Writing?
    ensures Inv(AtFailItem(d))
  {
    hide Conserved, Granting, Buffering, Signalled;
    FrameKeeps(d, AtFailItem(d));
  }

  lemma CloseSendKeeps(d: Direction)
    requires Inv(d) && d.closing.NotClosing?
    ensures Inv(AtCloseSend(d))
  {
    hide Conserved, Granting, Buffering, Signalled;
    FrameKeeps(d, AtCloseSend(d));
  }

  lemma RecvKeeps(d: Direction, observed: bool)
    requires Inv(d)
    ensures Inv(AtRecvWakes(d))
    ensures d.awake > 0 && d.r.queue == [] ==> Inv(AtRecvFindsEmpty(d))
    ensures (if observed then d.drained > 0 else d.early > 0) ==> Inv(AtRecvReports(d, observed))
  {
    hide Conserved, Granting, Buffering, Signalled;
    FrameKeeps(d, AtRecvWakes(d));
    if d.awake > 0 && d.r.queue == [] { FrameKeeps(d, AtRecvFindsEmpty(d)); }
    if if observed then d.drained > 0 else d.early > 0 { FrameKeeps(d, AtRecvReports(d, observed)); }
  }

  lemma CancelKeeps(d: Direction, side: Side, cause: Cause)
    requires Inv(d)
    ensures Inv(AtCancel(d, side, cause))
  {
    hide Conserved, Granting, Buffering, Signalled;
    FrameKeeps(d, AtCancel(d, side, cause));
  }

  lemma TerminateKeeps(d: Direction, side: Side, cause: Cause)
    requires Inv(d)
    ensures Inv(AtTerminate(d, side, cause))
  {
    hide Inv, AtTerminate;
    if side.Sender? { SenderTerminateKeeps(d, cause); } else { ReceiverTerminateKeeps(d, cause); }
  }

  lemma SenderTerminateKeeps(d: Direction, cause: Cause)
    requires Inv(d)
    ensures Inv(AtTerminate(d, Sender, cause))
  {
    hide Accounted, Ordered;
    AccountedShape(d);
    FrameKeeps(d, AtTerminate(d, Sender, cause));
  }

  lemma ReceiverTerminateKeeps(d: Direction, cause: Cause)
    requires Inv(d)
    ensures Inv(AtTerminate(d, Receiver, cause))
  {
    hide Accounted, Ordered;
    AccountedShape(d);
    FrameKeeps(d, AtTerminate(d, Receiver, cause));
  }

  lemma WakeKeeps(d: Direction)
    requires Inv(d) && d.sending.Waiting?
    ensures Inv(AtWake(d))
  {
    OrderFrame(d, AtWake(d));
  }

  lemma AbortSendKeeps(d: Direction)
    requires Inv(d) && d.sending.Failing?
    ensures Inv(AtAbortSend(d))
  {
    OrderFrame(d, AtAbortSend(d));
  }

  lemma TakeKeeps(d: Direction)
    requires Inv(d) && d.sending.Checked?
    ensures Inv(AtTake(d))
  {
    var e := AtTake(d);
    if e.sending.Writing? {
      assert PayloadBytes(Held(e.sending)) == |d.sending.p|;
    }
    OrderFrame(d, e);
  }

  lemma WriteAccounts(d: Direction)
    requires Accounted(d) && d.sending.Writing?
    ensures Accounted(AtWriteItem(d))
  {
    ItemsAppend(d.wire, Item(d.sending.p));
    BytesAppend(ItemsOf(d.wire), [d.sending.p]);
  }

  lemma WriteItemKeeps(d: Direction)
    requires Inv(d) && d.sending.Writing?
    ensures Inv(AtWriteItem(d))
  {
    hide Accounted;
    WriteAccounts(d);
    var p := d.sending.p;
    ItemsAppend(d.wire, Item(p));
    assert d.received + d.r.queue + (ItemsOf(d.wire) + [p]) == d.received + d.r.queue + ItemsOf(d.wire) + [p];
  }

  lemma WriteEndKeeps(d: Direction, written: bool)
    requires Inv(d) && Enabled(d, WriteEnd(written))
    ensures Inv(AtWriteEnd(d, written))
  {
    hide Accounted;
    var e := AtWriteEnd(d, written);
    ItemsAppend(d.wire, End);
    assert ItemsOf(d.wire) + [] == ItemsOf(d.wire);
    EndAccounts(d, written);
  }

  lemma EndAccounts(d: Direction, written: bool)
    requires Accounted(d) && d.sending.Idle?
    ensures Accounted(AtWriteEnd(d, written))
  {
    hide Conserved, Granting, Buffering, Signalled;
    ItemsAppend(d.wire, End);
    assert ItemsOf(d.wire) + [] == ItemsOf(d.wire);
    AccountFrame(d, AtWriteEnd(d, written));
  }

  /** An arriving item fits the queue and the byte limit: it was paid for. */
  lemma ItemFits(d: Direction)
    requires Accounted(d) && d.wire != [] && d.wire[0].Item?
    ensures |d.wire[0].p| <= d.r.byteLimit - d.r.bufferedBytes && |d.r.queue| < d.r.queueCap
    ensures PayloadBytes(ItemsOf(d.wire)) == |d.wire[0].p| + PayloadBytes(ItemsOf(d.wire[1..]))
    ensures |ItemsOf(d.wire)| == 1 + |ItemsOf(d.wire[1..])|
  {
    var p, rest := d.wire[0].p, ItemsOf(d.wire[1..]);
    assert ItemsOf(d.wire) == [p] + rest;
    assert ([p] + rest)[1..] == rest;
    assert PayloadBytes([p] + rest) == |p| + PayloadBytes(rest);
  }

  /** The receiving stream after an item that fits. */
  function Enqueued(r: Stream, p: Payload): (e: Stream)
  {
    if r.recvClosed then r else r.(queue := r.queue + [p], bufferedBytes := r.bufferedBytes + |p|)
  }

  lemma DeliveredItem(d: Direction)
    requires Accounted(d) && Terminating(d) && d.wire != [] && d.wire[0].Item?
    ensures AtDeliverItem(d) == d.(wire := d.wire[1..], r := Enqueued(d.r, d.wire[0].p))
  {
    hide Accounted;
    ItemFits(d);
  }

  lemma AccountedShape(d: Direction)
    requires Accounted(d)
    ensures Shape(d) && !d.violated
  {
  }

  lemma ItemAccounts(d: Direction, e: Direction, p: Payload)
    requires Accounted(d)
    requires |ItemsOf(e.wire)| + 1 == |ItemsOf(d.wire)|
    requires PayloadBytes(ItemsOf(e.wire)) + |p| == PayloadBytes(ItemsOf(d.wire))
    requires e == d.(wire := e.wire, r := Enqueued(d.r, p))
    requires PayloadBytes(d.r.queue + [p]) == PayloadBytes(d.r.queue) + |p|
    ensures Accounted(e)
  {
    hide PayloadBytes, ItemCredit, ByteCredit, ItemsOf;
  }

  lemma ItemOrders(d: Direction, e: Direction, p: Payload)
    requires Ordered(d) && d.wire != [] && d.wire[0] == Item(p)
    requires e == d.(wire := d.wire[1..], r := Enqueued(d.r, p))
    ensures Ordered(e)
  {
    var rest := ItemsOf(d.wire[1..]);
    assert ItemsOf(d.wire) == [p] + rest;
    assert d.received + (d.r.queue + [p]) + rest == d.received + d.r.queue + ([p] + rest);
    assert d.received + (d.r.queue + [p]) == d.received + d.r.queue + [p];
  }

  lemma EndOrders(d: Direction)
    requires Ordered(d) && d.wire != [] && d.wire[0].End?
    ensures Ordered(AtDeliverEnd(d))
  {
    assert d.wire == [End] && ItemsOf(d.wire) == [];
    assert d.received + d.r.queue + [] == d.received + d.r.queue;
  }

  lemma DeliverItemKeeps(d: Direction)
    requires Inv(d) && d.wire != [] && d.wire[0].Item?
    ensures Inv(AtDeliverItem(d))
  {
    hide Accounted, Ordered, AtDeliverItem;
    var p := d.wire[0].p;
    DeliveredItem(d);
    ItemFits(d);
    BytesAppend(d.r.queue, [p]);
    ItemAccounts(d, AtDeliverItem(d), p);
    ItemOrders(d, AtDeliverItem(d), p);
  }

  lemma DeliverEndKeeps(d: Direction)
    requires Inv(d) && d.wire != [] && d.wire[0].End?
    ensures Inv(AtDeliverEnd(d))
  {
    hide Accounted, Ordered;
    AccountedShape(d);
    assert ItemsOf(d.wire) == ItemsOf(d.wire[1..]);
    AccountFrame(d, AtDeliverEnd(d));
    EndOrders(d);
  }

  lemma DeliverKeeps(d: Direction)
    requires Inv(d) && d.wire != []
    ensures Inv(AtDeliver(d))
  {
    hide Inv, AtDeliverItem, AtDeliverEnd;
    if d.wire[0].End? { DeliverEndKeeps(d); } else { DeliverItemKeeps(d); }
  }

  lemma ReceiveAccounts(d: Direction)
    requires Accounted(d) && d.r.queue != []
    ensures Accounted(AtReceive(d))
  {
    BytesAppend(d.inHand, [d.r.queue[0]]);
  }

  lemma ReceiveKeeps(d: Direction)
    requires Inv(d) && d.r.queue != []
    ensures Inv(AtReceive(d))
  {
    hide Accounted;
    ReceiveAccounts(d);
    assert d.received + [d.r.queue[0]] + d.r.queue[1..] == d.received + d.r.queue;
  }

  lemma DeductKeeps(d: Direction, k: nat)
    requires Inv(d) && k < |d.inHand|
    ensures Inv(AtDeduct(d, k))
  {
    BytesWithout(d.inHand, k);
    BytesAppend(d.decoded, [d.inHand[k]]);
    OrderFrame(d, AtDeduct(d, k));
  }

  lemma ReturnAccounts(d: Direction, k: nat)
    requires Accounted(d) && k < |d.decoded|
    ensures Accounted(AtReturn(d, k))
  {
    hide Accounted, ReturnCredit, AtReturn;
    if ReturnCredit(d.r, |d.decoded[k]|).1.Some? { FlushAccounts(d, k); } else { BatchAccounts(d, k); }
  }

  /** The batch goes out as a window frame. */
  lemma FlushAccounts(d: Direction, k: nat)
    requires Accounted(d) && k < |d.decoded| && ReturnCredit(d.r, |d.decoded[k]|).1.Some?
    ensures Accounted(AtReturn(d, k))
  {
    hide ItemsOf, PayloadBytes, ItemCredit, ByteCredit;
    var w := ReturnCredit(d.r, |d.decoded[k]|).1.value;
    BytesWithout(d.decoded, k);
    CreditAppend(d.composed, [w]);
    OneWindow(w);
  }

  /** The batch grows, or the direction has closed. */
  lemma BatchAccounts(d: Direction, k: nat)
    requires Accounted(d) && k < |d.decoded| && ReturnCredit(d.r, |d.decoded[k]|).1.None?
    ensures Accounted(AtReturn(d, k))
  {
    hide ItemsOf, PayloadBytes, ItemCredit, ByteCredit;
    BytesWithout(d.decoded, k);
  }

  lemma OneWindow(w: Window)
    ensures ItemCredit([w]) == w.items && ByteCredit([w]) == w.bytes
  {
    assert [w][1..] == [];
  }

  lemma ReturnKeeps(d: Direction, k: nat)
    requires Inv(d) && k < |d.decoded|
    ensures Inv(AtReturn(d, k))
  {
    hide Accounted, Ordered;
    ReturnAccounts(d, k);
    OrderFrame(d, AtReturn(d, k));
  }

  lemma WindowAccounts(d: Direction, k: nat)
    requires Accounted(d) && k < |d.composed|
    ensures Accounted(AtWriteWindow(d, k)) && Accounted(AtFailWindow(d, k))
  {
    hide PayloadBytes, ItemsOf, ItemCredit, ByteCredit;
    CreditWithout(d.composed, k);
    CreditAppend(d.credit, [d.composed[k]]);
    CreditAppend(d.unwritten, [d.composed[k]]);
    OneWindow(d.composed[k]);
  }

  lemma WindowKeeps(d: Direction, k: nat)
    requires Inv(d) && k < |d.composed|
    ensures Inv(AtWriteWindow(d, k)) && Inv(AtFailWindow(d, k))
  {
    hide Accounted, Ordered;
    WindowAccounts(d, k);
    OrderFrame(d, AtWriteWindow(d, k));
    OrderFrame(d, AtFailWindow(d, k));
  }

  lemma AbortAccounts(d: Direction, k: nat)
    requires Accounted(d) && k < |d.unwritten|
    ensures Accounted(AtAbortReturn(d, k))
  {
    hide PayloadBytes, ItemsOf, ItemCredit, ByteCredit;
    CreditWithout(d.unwritten, k);
  }

  lemma AbortReturnKeeps(d: Direction, k: nat)
    requires Inv(d) && k < |d.unwritten|
    ensures Inv(AtAbortReturn(d, k))
  {
    hide Accounted, Ordered;
    AbortAccounts(d, k);
    OrderFrame(d, AtAbortReturn(d, k));
  }

  /** An arriving grant is never refused: it returns what was spent. */
  lemma GrantFits(d: Direction)
    requires Accounted(d) && d.credit != []
    ensures AcceptCredit(d.s, d.credit[0]).1.Accepted?
  {
    hide PayloadBytes, ItemsOf;
    assert d.credit[0].items > 0;
  }

  lemma AcceptAccounts(d: Direction)
    requires Accounted(d) && d.credit != []
    ensures Accounted(AtAccept(d))
  {
    hide PayloadBytes, ItemsOf;
    GrantFits(d);
    assert d.credit[0].items > 0;
  }

  lemma AcceptKeeps(d: Direction)
    requires Inv(d) && d.credit != []
    ensures Inv(AtAccept(d))
  {
    hide Accounted, Ordered;
    AcceptAccounts(d);
    GrantFits(d);
    OrderFrame(d, AtAccept(d));
  }

  /** Every step of every participant keeps the global invariant. */
  lemma StepKeeps(d: Direction, step: Step)
    requires Inv(d) && Enabled(d, step)
    ensures Inv(Apply(d, step))
  {
    hide Inv, AtStartSend, AtCheckError, AtTake, AtWake, AtWriteItem, AtFailItem, AtAbortSend, AtCloseSend,
         AtWriteEnd, AtDeliver, AtReceive, AtDeduct, AtReturn, AtWriteWindow, AtFailWindow, AtAbortReturn,
         AtAccept, AtRecvWakes, AtRecvFindsEmpty, AtRecvReports, AtCancel, AtTerminate;
    match step
    case StartSend(p) => StartSendKeeps(d, p);
    case CheckError => CheckErrorKeeps(d);
    case Take => TakeKeeps(d);
    case Wake => WakeKeeps(d);
    case WriteItem => WriteItemKeeps(d);
    case FailItem => FailItemKeeps(d);
    case AbortSend => AbortSendKeeps(d);
    case CloseSend => CloseSendKeeps(d);
    case WriteEnd(written) => WriteEndKeeps(d, written);
    case Deliver => DeliverKeeps(d);
    case Receive => ReceiveKeeps(d);
    case DeductBytes(k) => DeductKeeps(d, k);
    case Return(k) => ReturnKeeps(d, k);
    case WriteWindow(k) => WindowKeeps(d, k);
    case FailWindow(k) => WindowKeeps(d, k);
    case AbortReturn(k) => AbortReturnKeeps(d, k);
    case Accept => AcceptKeeps(d);
    case RecvWakes => RecvKeeps(d, true);
    case RecvFindsEmpty => RecvKeeps(d, true);
    case RecvReports(observed) => RecvKeeps(d, observed);
    case Cancel(side, cause) => CancelKeeps(d, side, cause);
    case Terminate(side, cause) => TerminateKeeps(d, side, cause);
  }

  /** The invariant holds in every state of every run. */
  lemma {:induction false} RunKeeps(d: Direction, steps: seq<Step>)
    requires Inv(d) && IsRun(d, steps)
    ensures Inv(After(d, steps))
    decreases |steps|
  {
    hide Inv, Apply, Enabled;
    if steps != [] {
      StepKeeps(d, steps[0]);
      RunKeeps(Apply(d, steps[0]), steps[1..]);
    }
  }

  lemma ReachableInv(d: Direction)
    requires Reachable(d)
    ensures Inv(d)
  {
    hide Inv, Apply, Enabled, Initial, After;
    var start, steps :| Initial(start) && IsRun(start, steps) && After(start, steps) == d;
    InitialInv(start);
    RunKeeps(start, steps);
  }

  // ------------------------------------------------------- conservation and safety

  /** While the direction is open, credit is neither created nor lost. */
  lemma CreditIsConserved(d: Direction)
    requires Reachable(d) && Open(d)
    ensures Shape(d) && TotalItems(d) == d.window.items && TotalBytes(d) == d.window.bytes
  {
    ReachableInv(d);
  }

  /** Conforming ends never fail each other: no arriving item overflows the queue, no
      arriving grant is refused, and neither has happened before. */
  lemma EndsNeverFailEachOther(d: Direction)
    requires Reachable(d)
    ensures Shape(d) && !d.violated
    ensures d.wire != [] && d.wire[0].Item? ==> !DeliverItem(d.r, d.wire[0].p).1.Overflow?
    ensures d.credit != [] ==> AcceptCredit(d.s, d.credit[0]).1.Accepted?
  {
    hide Accounted;
    ReachableInv(d);
    AccountedShape(d);
    if d.wire != [] && d.wire[0].Item? { ItemFits(d); }
    if d.credit != [] { GrantFits(d); }
  }

  /** A sender that need not wait has a reason to wake: a token, the closed sendDone
      channel or the done context. */
  lemma NoLostWakeup(d: Direction)
    requires Reachable(d) && d.sending.Waiting?
    requires SendError(d.s).Some? || (d.s.flow.Some? && !TakeCredit(d.s, |d.sending.p|).1.MustWait?)
    ensures Shape(d) && Enabled(d, Wake)
  {
    ReachableInv(d);
  }

  // ------------------------------------------------------- progress

  /** The steps of the reader and of Recv that bring spent credit home. */
  predicate Draining(step: Step)
  {
    step.Deliver? || step.Receive? || step.DeductBytes? || step.Return? || step.WriteWindow? || step.Accept?
  }

  /** Bounds the draining steps that are left. */
  function Work(d: Direction): (n: nat)
  {
    6 * |d.wire| + 5 * |d.r.queue| + 4 * |d.inHand| + 3 * |d.decoded| + 2 * |d.composed| + |d.credit|
  }

  /** A sender waits for credit on an open direction and no window write has failed. */
  predicate Stalled(d: Direction)
  {
    Inv(d) && Open(d) && d.sending.Waiting? && d.unwritten == []
  }

  lemma DrainStep(d: Direction, step: Step)
    requires Stalled(d) && Draining(step) && Enabled(d, step)
    ensures Stalled(Apply(d, step)) && Work(Apply(d, step)) < Work(d)
    ensures Apply(d, step).sending == d.sending && Apply(d, step).window == d.window
  {
    hide Accounted, Ordered;
    StepKeeps(d, step);
    AccountedShape(d);
    match step
    case Deliver =>
      NoEndYet(d);
      DeliveredItem(d);
    case Accept => GrantFits(d);
    case _ =>
  }

  lemma NoEndYet(d: Direction)
    requires Inv(d) && Open(d) && d.wire != []
    ensures d.wire[0].Item?
  {
    assert d.wire[0] in d.wire;
  }

  /** With nothing left to drain the sender holds the whole window again. */
  lemma DrainedIsFull(d: Direction)
    requires Stalled(d) && Work(d) == 0
    ensures d.s.flow.value.items == d.window.items && d.s.flow.value.bytes == d.window.bytes
  {
  }

  lemma WorkIsEnabled(d: Direction) returns (step: Step)
    requires Stalled(d) && Work(d) > 0
    ensures Draining(step) && Enabled(d, step)
  {
    hide Conserved, Granting, Buffering, Signalled, Terminating, Ordered;
    step := if d.wire != [] then Deliver else if d.r.queue != [] then Receive
            else if d.inHand != [] then DeductBytes(0) else if d.decoded != [] then Return(0)
            else if d.composed != [] then WriteWindow(0) else Accept;
  }

  /** A sender blocked on an item within the byte window, and not yet signalled, always
      leaves another participant a draining step, or the abort of a failed window write. */
  lemma NoStuckSender(d: Direction)
    requires Reachable(d) && Open(d) && d.sending.Waiting?
    requires |d.sending.p| <= d.window.bytes
    ensures Shape(d)
    ensures Enabled(d, Wake) || exists step :: (Draining(step) || step.AbortReturn?) && Enabled(d, step)
  {
    hide Conserved, Granting, Buffering, Terminating, Ordered;
    ReachableInv(d);
    if d.unwritten != [] {
      assert Enabled(d, AbortReturn(0));
    } else if Work(d) > 0 {
      var step := WorkIsEnabled(d);
    } else {
      DrainedIsFull(d);
    }
  }

  predicate AllDraining(steps: seq<Step>)
  {
    forall i | 0 <= i < |steps| :: Draining(steps[i])
  }

  /** Draining alone always ends, and when it does the blocked sender has its credit. */
  lemma {:induction false} DrainingEnds(d: Direction, steps: seq<Step>)
    requires Stalled(d) && IsRun(d, steps) && AllDraining(steps)
    ensures var e := After(d, steps);
      && Stalled(e) && e.sending == d.sending && e.window == d.window
      && |steps| + Work(e) <= Work(d)
      && ((forall step :: Draining(step) ==> !Enabled(e, step)) ==>
            e.s.flow.value.items == e.window.items && e.s.flow.value.bytes == e.window.bytes)
    decreases |steps|
  {
    hide Inv, Apply;
    if steps == [] {
      if Work(d) > 0 {
        var step := WorkIsEnabled(d);
      } else {
        DrainedIsFull(d);
      }
    } else {
      DrainStep(d, steps[0]);
      assert forall i | 0 <= i < |steps[1..]| :: steps[1..][i] == steps[i + 1];
      DrainingEnds(Apply(d, steps[0]), steps[1..]);
    }
  }

  /** Whatever else happens while the sender waits, draining is never set back. */
  lemma WorkNeverGrows(d: Direction, step: Step)
    requires Inv(d) && d.sending.Waiting? && Enabled(d, step) && !step.Wake?
    ensures Apply(d, step).sending == d.sending
    ensures Work(Apply(d, step)) + (if Draining(step) then 1 else 0) <= Work(d)
  {
    hide Accounted, Ordered, Terminating, TakeCredit, AcceptCredit, SendError, Finish, CancelContext,
         PayloadBytes;
    AccountedShape(d);
    if step.Deliver? {
      DeliveryIsWork(d);
    } else if step.Terminate? || step.AbortReturn? || step.Accept? || step.Cancel? {
      EndingIsNoWork(d, step);
    }
  }

  lemma DeliveryIsWork(d: Direction)
    requires Inv(d) && d.wire != []
    ensures Work(AtDeliver(d)) < Work(d) && AtDeliver(d).sending == d.sending
  {
    hide Accounted, Ordered;
    if d.wire[0].Item? { DeliveredItem(d); }
  }

  lemma EndingIsNoWork(d: Direction, step: Step)
    requires Inv(d) && Enabled(d, step) && (step.Terminate? || step.AbortReturn? || step.Accept? || step.Cancel?)
    ensures Apply(d, step).sending == d.sending
    ensures Work(Apply(d, step)) + (if Draining(step) then 1 else 0) <= Work(d)
  {
    hide Accounted, Ordered, Terminating, PayloadBytes;
    AccountedShape(d);
  }

  function DrainingSteps(steps: seq<Step>): (n: nat)
  {
    if steps == [] then 0 else (if Draining(steps[0]) then 1 else 0) + DrainingSteps(steps[1..])
  }

  /** In every run in which the sender keeps waiting, whatever is interleaved, there are at most
      as many draining steps as there was work. */
  lemma {:induction false} WaitingRunDrains(d: Direction, steps: seq<Step>)
    requires Inv(d) && d.sending.Waiting? && IsRun(d, steps) && forall i | 0 <= i < |steps| :: !steps[i].Wake?
    ensures After(d, steps).sending == d.sending && DrainingSteps(steps) + Work(After(d, steps)) <= Work(d)
    decreases |steps|
  {
    hide Inv, Apply, Enabled, Work;
    if steps != [] {
      StepKeeps(d, steps[0]);
      WorkNeverGrows(d, steps[0]);
      assert forall i | 0 <= i < |steps[1..]| :: steps[1..][i] == steps[i + 1];
      WaitingRunDrains(Apply(d, steps[0]), steps[1..]);
    }
  }

  /** Some run of draining steps wakes the blocked sender with enough credit to go on. */
  lemma {:induction false} SenderCanProceed(d: Direction) returns (steps: seq<Step>)
    requires Stalled(d) && |d.sending.p| <= d.window.bytes
    ensures IsRun(d, steps) && AllDraining(steps)
    ensures var e := After(d, steps);
      Stalled(e) && e.sending == d.sending && Enabled(e, Wake) && TakeCredit(e.s, |d.sending.p|).1.Taken?
    decreases Work(d)
  {
    hide Conserved, Granting, Buffering, Terminating, Ordered, Apply;
    if Work(d) == 0 {
      DrainedIsFull(d);
      FullIsEnough(d);
      steps := [];
    } else {
      var step := WorkIsEnabled(d);
      DrainStep(d, step);
      var rest := SenderCanProceed(Apply(d, step));
      steps := [step] + rest;
      assert steps[1..] == rest;
    }
  }

  lemma FullIsEnough(d: Direction)
    requires Stalled(d) && |d.sending.p| <= d.window.bytes
    requires d.s.flow.value.items == d.window.items && d.s.flow.value.bytes == d.window.bytes
    ensures Enabled(d, Wake) && TakeCredit(d.s, |d.sending.p|).1.Taken?
  {
  }

  // ------------------------------------------------------- order and completeness

  /** Items arrive in order and nothing follows the end frame. */
  lemma ItemsArriveInOrder(d: Direction)
    requires Reachable(d)
    ensures d.received <= d.sent
    ensures forall i | 0 <= i < |d.wire| :: d.wire[i].End? ==> i == |d.wire| - 1
    ensures d.closing.EndWritten? ==> Shape(d) && !Enabled(d, WriteItem) && forall p :: !Enabled(d, StartSend(p))
  {
    hide Accounted;
    ReachableInv(d);
    AccountedShape(d);
    assert d.received <= d.received + d.r.queue;
  }

  /** Once the end frame has closed the receiving side, a Recv that reports EOF leaves no sent
      item unreceived if and only if the queue is empty when it reports; one that found the queue
      empty after recvDone had closed never sees it otherwise. Exempt is a receiver that some
      finish call closed with io.EOF itself. */
  lemma EOFIsComplete(d: Direction)
    requires Reachable(d) && d.r.recvErr == Some(EOF) && !d.forcedEOF
    ensures d.closing.EndWritten?
    ensures d.received == d.sent <==> d.r.queue == []
    ensures d.drained > 0 ==> d.received == d.sent
  {
    hide Accounted;
    ReachableInv(d);
    assert d.received + [] == d.received;
  }

  /** What the user of the receiving stream answers for: its context is not cancelled, and it
      does not close the stream with io.EOF, as a handler returning that error does. */
  predicate Undisturbed(steps: seq<Step>)
  {
    forall i | 0 <= i < |steps| ::
      && !(steps[i].Cancel? && steps[i].side.Receiver?)
      && !(steps[i].Terminate? && steps[i].side.Receiver? && steps[i].cause.EOF?)
  }

  /** Recv has woken only after recvDone closed. */
  predicate Patient(d: Direction)
  {
    && d.early == 0 && !d.forcedEOF
    && (d.awake > 0 || d.r.ctxCause.Some? || d.r.recvDone > 0 ==> d.r.recvClosed)
  }

  lemma PatientStep(d: Direction, step: Step)
    requires Shape(d) && Enabled(d, step) && Patient(d) && Undisturbed([step])
    ensures Patient(Apply(d, step))
  {
    hide TakeCredit, AcceptCredit, ConsumeToken, SendError, BeginCloseSend, PayloadBytes, Half;
    assert [step][0] == step;
    if step.Cancel? || step.Terminate? {
      PatientEnding(d, step);
    } else if step.Deliver? {
      PatientDelivery(d);
    }
  }

  lemma PatientEnding(d: Direction, step: Step)
    requires Patient(d) && (step.Cancel? || step.Terminate?) && Undisturbed([step])
    ensures step.Cancel? ==> Patient(AtCancel(d, step.side, step.cause))
    ensures step.Terminate? ==> Patient(AtTerminate(d, step.side, step.cause))
  {
    assert [step][0] == step;
  }

  lemma PatientDelivery(d: Direction)
    requires Patient(d) && d.wire != []
    ensures Patient(AtDeliver(d))
  {
  }

  lemma {:induction false} PatientRun(d: Direction, steps: seq<Step>)
    requires IsRun(d, steps) && Patient(d) && Undisturbed(steps)
    ensures Patient(After(d, steps))
    decreases |steps|
  {
    hide Patient, Apply, Enabled, Shape;
    if steps != [] {
      assert Undisturbed([steps[0]]);
      PatientStep(d, steps[0]);
      assert forall i | 0 <= i < |steps[1..]| :: steps[1..][i] == steps[i + 1];
      PatientRun(Apply(d, steps[0]), steps[1..]);
    }
  }

  /** If the receiver's context is not cancelled, every EOF that Recv reports is complete. */
  lemma UncancelledEOFIsComplete(start: Direction, steps: seq<Step>, observed: bool)
    requires Initial(start) && IsRun(start, steps) && Undisturbed(steps)
    requires var d := After(start, steps); Enabled(d, RecvReports(observed)) && d.r.recvErr == Some(EOF)
    ensures var d := After(start, steps); d.received == d.sent && d.r.queue == [] && d.closing.EndWritten?
  {
    hide Inv, After;
    PatientRun(start, steps);
    EOFIsComplete(After(start, steps));
  }

  lemma Extend(d: Direction, step: Step)
    requires Reachable(d) && Shape(d) && Enabled(d, step)
    requires Shape(Apply(d, step))
    ensures Reachable(Apply(d, step))
  {
    hide Shape, Enabled, Apply, Initial;
    var start, steps :| Initial(start) && IsRun(start, steps) && After(start, steps) == d;
    RunExtends(start, steps, step);
    assert IsRun(start, steps + [step]);
  }

  lemma {:induction false} RunExtends(start: Direction, steps: seq<Step>, step: Step)
    requires IsRun(start, steps) && Enabled(After(start, steps), step)
    requires Shape(Apply(After(start, steps), step))
    ensures IsRun(start, steps + [step]) && After(start, steps + [step]) == Apply(After(start, steps), step)
    decreases |steps|
  {
    hide Shape, Enabled, Apply;
    if steps == [] {
      assert steps + [step] == [step];
      assert [step][1..] == [];
    } else {
      RunExtends(Apply(start, steps[0]), steps[1..], step);
      assert (steps + [step])[1..] == steps[1..] + [step];
    }
  }

  /** The sending half of the counterexample below: one item is on the wire. */
  lemma OneItemSent(item: Payload) returns (d: Direction)
    requires |item| == 1
    ensures Reachable(d) && Shape(d) && d.wire == [Item(item)] && d.sent == [item] && d.received == []
    ensures d.sending.Idle? && d.closing.NotClosing? && !d.forcedEOF && d.early == 0
    ensures d.r == Configure(NewStream(1, 1), BidiKind, true, true)
  {
    hide AtDeliver, AtReceive, AtDeduct, AtReturn, AtWriteWindow, AtFailWindow, AtAbortReturn, AtRecvWakes,
         AtRecvFindsEmpty, AtRecvReports, AtCancel, AtTerminate, AtWake, AtFailItem, AtAbortSend, AtCloseSend,
         AtWriteEnd;
    var s := Configure(NewStream(1, 1), BidiKind, true, true);
    var start := Direction(s, s, Window(1, 1), Idle, NotClosing, [], [], [], [], [], [Window(1, 1)],
                           0, 0, 0, [], [], false, false, false);
    assert start.composed + start.credit == [start.window];
    assert IsRun(start, []) && After(start, []) == start;
    var granted := start.(credit := [], s := s.(flow := Some(Flow(true, 1, 1, 1, 1, true, 0, 0))));
    assert Apply(start, Accept) == granted;
    Extend(start, Accept);
    assert Apply(granted, StartSend(item)) == granted.(sending := AtTop(item));
    Extend(granted, StartSend(item));
    assert Apply(granted.(sending := AtTop(item)), CheckError) == granted.(sending := Checked(item));
    Extend(granted.(sending := AtTop(item)), CheckError);
    d := OneItemWritten(granted.(sending := Checked(item)), item);
  }

  lemma OneItemWritten(checked: Direction, item: Payload) returns (d: Direction)
    requires Reachable(checked) && Shape(checked) && checked.sending == Checked(item) && |item| == 1
    requires checked.s.flow == Some(Flow(true, 1, 1, 1, 1, true, 0, 0)) && checked.wire == [] && checked.sent == []
    ensures Reachable(d) && Shape(d) && d.wire == [Item(item)] && d.sent == [item]
    ensures d == checked.(s := d.s, sending := Idle, wire := d.wire, sent := d.sent)
  {
    hide AtDeliver, AtReceive, AtDeduct, AtReturn, AtWriteWindow, AtFailWindow, AtAbortReturn, AtRecvWakes,
         AtRecvFindsEmpty, AtRecvReports, AtCancel, AtTerminate, AtWake, AtFailItem, AtAbortSend, AtCloseSend,
         AtWriteEnd, AtAccept, AtStartSend, AtCheckError;
    var taken := Apply(checked, Take);
    Extend(checked, Take);
    d := Apply(taken, WriteItem);
    Extend(taken, WriteItem);
  }

  /** The receiving half: Recv wakes on its cancelled context and sees an empty queue. */
  lemma RecvLooksEarly(sent: Direction) returns (d: Direction)
    requires Reachable(sent) && Shape(sent) && sent.r.queue == [] && !sent.r.recvClosed && sent.r.ctxCause.None?
    ensures Reachable(d) && Shape(d) && d.early == sent.early + 1
    ensures d == sent.(r := sent.r.(ctxCause := Some(Failure(9))), awake := sent.awake, early := d.early)
  {
    hide Reachable;
    var cancelled := RecvCancelled(sent);
    d := RecvFindsNothing(cancelled);
  }

  lemma RecvCancelled(sent: Direction) returns (d: Direction)
    requires Reachable(sent) && Shape(sent) && sent.r.ctxCause.None?
    ensures Reachable(d) && d == sent.(r := sent.r.(ctxCause := Some(Failure(9))))
  {
    hide Reachable, AtDeliver, AtReceive, AtDeduct, AtReturn, AtWriteWindow, AtFailWindow, AtAbortReturn,
         AtTerminate, AtWake, AtFailItem, AtAbortSend, AtCloseSend, AtWriteEnd, AtAccept, AtStartSend,
         AtCheckError, AtTake, AtWriteItem, AtRecvWakes, AtRecvFindsEmpty, AtRecvReports;
    d := Apply(sent, Cancel(Receiver, Failure(9)));
    Extend(sent, Cancel(Receiver, Failure(9)));
  }

  lemma RecvFindsNothing(cancelled: Direction) returns (d: Direction)
    requires Reachable(cancelled) && Shape(cancelled) && cancelled.r.queue == [] && !cancelled.r.recvClosed
    requires cancelled.r.ctxCause.Some?
    ensures Reachable(d) && Shape(d) && d == cancelled.(early := cancelled.early + 1)
  {
    hide Reachable, AtDeliver, AtReceive, AtDeduct, AtReturn, AtWriteWindow, AtFailWindow, AtAbortReturn,
         AtTerminate, AtWake, AtFailItem, AtAbortSend, AtCloseSend, AtWriteEnd, AtAccept, AtStartSend,
         AtCheckError, AtTake, AtWriteItem, AtCancel;
    var woken := cancelled.(awake := cancelled.awake + 1);
    assert Apply(cancelled, RecvWakes) == woken;
    Extend(cancelled, RecvWakes);
    d := Apply(woken, RecvFindsEmpty);
    Extend(woken, RecvFindsEmpty);
  }

  /** Then the item and the end frame arrive. */
  lemma ItemAndEndArrive(looked: Direction, item: Payload) returns (d: Direction)
    requires Reachable(looked) && Shape(looked) && looked.wire == [Item(item)]
    requires looked.sending.Idle? && looked.closing.NotClosing?
    requires !looked.r.recvClosed && !looked.r.done && looked.r.queue == []
    requires looked.r.bufferedBytes == 0 && |item| <= looked.r.byteLimit
    ensures Reachable(d) && d.r.queue == [item] && d.r.recvErr == Some(EOF)
    ensures d.early == looked.early && d.received == looked.received && d.sent == looked.sent
    ensures d.forcedEOF == looked.forcedEOF
  {
    hide Reachable, AtReceive, AtDeduct, AtReturn, AtWriteWindow, AtFailWindow, AtAbortReturn, AtTerminate,
         AtWake, AtCancel, AtRecvWakes, AtRecvFindsEmpty, AtRecvReports, AtFailItem, AtAbortSend, AtAccept,
         AtStartSend, AtCheckError, AtTake, AtWriteItem;
    var delivered := looked.(wire := [], r := Enqueued(looked.r, item));
    assert Apply(looked, Deliver) == delivered;
    Extend(looked, Deliver);
    var closing := delivered.(closing := WantEnd, s := BeginCloseSend(delivered.s));
    assert Apply(delivered, CloseSend) == closing;
    Extend(delivered, CloseSend);
    var ended := closing.(closing := EndWritten, wire := [End]);
    assert Apply(closing, WriteEnd(true)) == ended;
    Extend(closing, WriteEnd(true));
    d := Apply(ended, Deliver);
    Extend(ended, Deliver);
  }

  /** Completeness fails for a Recv that found the queue empty before recvDone had closed,
      because its context was cancelled first: it can report EOF past a queued item. */
  lemma EarlyEOFLosesItem() returns (d: Direction)
    ensures Reachable(d) && d.early > 0 && d.r.recvErr == Some(EOF) && !d.forcedEOF
    ensures d.r.queue != [] && d.received != d.sent
  {
    hide Reachable, Shape;
    var sent := OneItemSent([7]);
    var looked := RecvLooksEarly(sent);
    d := ItemAndEndArrive(looked, [7]);
  }
}
