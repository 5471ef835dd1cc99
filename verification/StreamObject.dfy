/**
 The Stream object itself, with its 64-bit counters, and the bounds it keeps whatever
 frames the peer sends.
 */
module StreamObject {
  import opened Bytes
  import S = StreamState

  const TWO_TO_63: int := 0x8000_0000_0000_0000

  // ------------------------------------------------------- bounds against any peer

  /** A stream with the payloads Recv callers hold: dequeued but not yet deducted, and
      deducted but not yet counted for return. */
  datatype Endpoint = Endpoint(s: S.Stream, taken: seq<Payload>, decoded: seq<Payload>)

  predicate FlowBounded(f: S.Flow, queueCap: nat, byteLimit: nat)
  {
    && f.items <= f.maxItems < TWO_TO_64
    && f.bytes <= f.maxBytes < TWO_TO_64
    && (!f.initialized ==> f.items == 0 && f.bytes == 0)
    && f.returnItems < S.Half(queueCap)
    && f.returnBytes < S.Half(byteLimit)
  }

  /** Credit within the first grant, queued bytes within the limit and exactly accounted
      for, and every counter in 64 bits. */
  predicate Bounded(e: Endpoint)
  {
    && 0 < e.s.queueCap < TWO_TO_63 && 0 < e.s.byteLimit < TWO_TO_63
    && (e.s.flow.Some? ==> FlowBounded(e.s.flow.value, e.s.queueCap, e.s.byteLimit))
    && |e.s.queue| <= e.s.queueCap
    && e.s.bufferedBytes == S.PayloadBytes(e.s.queue) + S.PayloadBytes(e.taken) <= e.s.byteLimit
    && (forall p | p in e.decoded :: |p| <= e.s.byteLimit)
    && e.s.recvDone == (if e.s.recvClosed then 1 else 0)
    && e.s.sendDone == (if e.s.sendClosed then 1 else 0)
  }

  /** Whatever can happen to one end: arbitrary frames from the peer, and local callers. */
  datatype Event =
    | ItemFrame(p: Payload) | WindowFrame(w: S.Window) | EndFrame
    | Take(size: nat) | Token | BeginClose | RecordEnd(written: bool)
    | Receive | Deduct(k: nat) | Return(k: nat)
    | Cancel(cause: S.Cause) | Finish(cause: S.Cause)

  /** CloseSend runs once; frames carry 64-bit counters. */
  predicate Possible(e: Endpoint, event: Event)
  {
    match event
    case WindowFrame(w) => w.items < TWO_TO_64 && w.bytes < TWO_TO_64
    case Token => e.s.flow.Some?
    case BeginClose => !e.s.sendClosed
    case Receive => e.s.queue != []
    case Deduct(k) => k < |e.taken|
    case Return(k) => k < |e.decoded|
    case _ => true
  }

  function Happen(e: Endpoint, event: Event): (r: Endpoint)
    requires Possible(e, event)
  {
    match event
    case ItemFrame(p) => e.(s := S.DeliverItem(e.s, p).0)
    case WindowFrame(w) => e.(s := S.AcceptCredit(e.s, w).0)
    case EndFrame => e.(s := S.DeliverEnd(e.s).0)
    case Take(size) => e.(s := S.TakeCredit(e.s, size).0)
    case Token => e.(s := S.ConsumeToken(e.s))
    case BeginClose => e.(s := S.BeginCloseSend(e.s))
    case RecordEnd(written) => e.(s := S.RecordEnd(e.s, written).0)
    case Receive => Endpoint(S.Dequeue(e.s).0, e.taken + [S.Dequeue(e.s).1], e.decoded)
    case Deduct(k) => Endpoint(S.Deduct(e.s, |e.taken[k]|), S.Without(e.taken, k), e.decoded + [e.taken[k]])
    case Return(k) => Endpoint(S.ReturnCredit(e.s, |e.decoded[k]|).0, e.taken, S.Without(e.decoded, k))
    case Cancel(cause) => e.(s := S.CancelContext(e.s, cause))
    case Finish(cause) => e.(s := S.Finish(e.s, cause).0)
  }

  lemma ItemKeepsBounds(e: Endpoint, p: Payload)
    requires Bounded(e)
    ensures Bounded(e.(s := S.DeliverItem(e.s, p).0))
  {
    S.BytesAppend(e.s.queue, [p]);
    assert S.PayloadBytes([p]) == |p|;
  }

  lemma WindowKeepsBounds(e: Endpoint, w: S.Window)
    requires Bounded(e) && w.items < TWO_TO_64 && w.bytes < TWO_TO_64
    ensures Bounded(e.(s := S.AcceptCredit(e.s, w).0))
  {
    hide S.PayloadBytes;
  }

  lemma TakeKeepsBounds(e: Endpoint, size: nat)
    requires Bounded(e)
    ensures Bounded(e.(s := S.TakeCredit(e.s, size).0))
  {
    hide S.PayloadBytes;
  }

  lemma ReceiveKeepsBounds(e: Endpoint)
    requires Bounded(e) && e.s.queue != []
    ensures Bounded(Endpoint(S.Dequeue(e.s).0, e.taken + [S.Dequeue(e.s).1], e.decoded))
  {
    S.BytesAppend(e.taken, [e.s.queue[0]]);
    assert S.PayloadBytes([e.s.queue[0]]) == |e.s.queue[0]|;
  }

  lemma DeductKeepsBounds(e: Endpoint, k: nat)
    requires Bounded(e) && k < |e.taken|
    ensures |e.taken[k]| <= e.s.bufferedBytes
    ensures Bounded(Endpoint(S.Deduct(e.s, |e.taken[k]|), S.Without(e.taken, k), e.decoded + [e.taken[k]]))
  {
    S.BytesWithout(e.taken, k);
  }

  lemma ReturnKeepsBounds(e: Endpoint, k: nat)
    requires Bounded(e) && k < |e.decoded|
    ensures |e.decoded[k]| <= e.s.byteLimit < TWO_TO_63
    ensures e.s.flow.Some? ==> e.s.flow.value.returnItems < TWO_TO_63 && e.s.flow.value.returnBytes < TWO_TO_63
    ensures Bounded(Endpoint(S.ReturnCredit(e.s, |e.decoded[k]|).0, e.taken, S.Without(e.decoded, k)))
  {
    hide S.PayloadBytes, FlowBounded;
    assert e.decoded[k] in e.decoded;
    if e.s.flow.Some? { ReturnKeepsFlow(e.s, |e.decoded[k]|); }
    forall p | p in S.Without(e.decoded, k) ensures p in e.decoded { }
  }

  lemma ReturnKeepsFlow(s: S.Stream, size: nat)
    requires s.flow.Some? && 0 < s.queueCap && 0 < s.byteLimit && FlowBounded(s.flow.value, s.queueCap, s.byteLimit)
    ensures var r := S.ReturnCredit(s, size).0;
      && r.flow.Some? && FlowBounded(r.flow.value, s.queueCap, s.byteLimit) && r == s.(flow := r.flow)
      && s.flow.value.returnItems < s.queueCap && s.flow.value.returnBytes < s.byteLimit
  {
  }

  lemma CloseKeepsBounds(e: Endpoint, cause: S.Cause)
    requires Bounded(e)
    ensures Bounded(e.(s := S.CloseRecv(e.s, cause))) && Bounded(e.(s := S.DeliverEnd(e.s).0))
    ensures Bounded(e.(s := S.CancelContext(e.s, cause)))
  {
    hide S.PayloadBytes;
  }

  lemma FinishKeepsBounds(e: Endpoint, cause: S.Cause)
    requires Bounded(e)
    ensures Bounded(e.(s := S.Finish(e.s, cause).0))
  {
    hide Bounded, S.CloseRecv, S.CancelContext;
    var done := e.(s := e.s.(done := true));
    assert Bounded(done) by { FlagsKeepBounds(e, true); }
    CloseKeepsBounds(done, cause);
    CloseKeepsBounds(done.(s := S.CloseRecv(done.s, cause)), cause);
  }

  lemma FlagsKeepBounds(e: Endpoint, flag: bool)
    requires Bounded(e)
    ensures Bounded(e.(s := e.s.(done := flag))) && Bounded(e.(s := S.RecordEnd(e.s, flag).0))
    ensures !e.s.sendClosed ==> Bounded(e.(s := S.BeginCloseSend(e.s)))
  {
    hide S.PayloadBytes, FlowBounded;
  }

  lemma TokenKeepsBounds(e: Endpoint)
    requires Bounded(e) && e.s.flow.Some?
    ensures Bounded(e.(s := S.ConsumeToken(e.s)))
  {
    hide S.PayloadBytes, S.Half;
  }

  /** Every event, whatever the peer sends, keeps the bounds. */
  lemma EventKeepsBounds(e: Endpoint, event: Event)
    requires Bounded(e) && Possible(e, event)
    ensures Bounded(Happen(e, event))
  {
    hide Bounded, S.DeliverItem, S.AcceptCredit, S.DeliverEnd, S.TakeCredit, S.ConsumeToken, S.BeginCloseSend,
         S.RecordEnd, S.Dequeue, S.Deduct, S.ReturnCredit, S.CancelContext, S.Finish, S.Without;
    match event
    case ItemFrame(p) => ItemKeepsBounds(e, p);
    case WindowFrame(w) => WindowKeepsBounds(e, w);
    case EndFrame => CloseKeepsBounds(e, S.EOF);
    case Take(size) => TakeKeepsBounds(e, size);
    case Receive => ReceiveKeepsBounds(e);
    case Deduct(k) => DeductKeepsBounds(e, k);
    case Return(k) => ReturnKeepsBounds(e, k);
    case Cancel(cause) => CloseKeepsBounds(e, cause);
    case Finish(cause) => FinishKeepsBounds(e, cause);
    case Token => TokenKeepsBounds(e);
    case BeginClose => FlagsKeepBounds(e, true);
    case RecordEnd(written) => FlagsKeepBounds(e, written);
  }

  predicate History(e: Endpoint, events: seq<Event>)
    decreases |events|
  {
    events == [] || (Possible(e, events[0]) && History(Happen(e, events[0]), events[1..]))
  }

  function Outcome(e: Endpoint, events: seq<Event>): (r: Endpoint)
    requires History(e, events)
    decreases |events|
  {
    if events == [] then e else Outcome(Happen(e, events[0]), events[1..])
  }

  lemma {:induction false} HistoryKeepsBounds(e: Endpoint, events: seq<Event>)
    requires Bounded(e) && History(e, events)
    ensures Bounded(Outcome(e, events))
    decreases |events|
  {
    hide Bounded, Happen, Possible;
    if events != [] {
      EventKeepsBounds(e, events[0]);
      HistoryKeepsBounds(Happen(e, events[0]), events[1..]);
    }
  }

  /** A stream that has just been configured. */
  function Fresh(queueCap: nat, byteLimit: nat, kind: S.Kind, caller: bool, flowControl: bool): (e: Endpoint)
  {
    Endpoint(S.Configure(S.NewStream(queueCap, byteLimit), kind, caller, flowControl), [], [])
  }

  lemma FreshIsBounded(queueCap: nat, byteLimit: nat, kind: S.Kind, caller: bool, flowControl: bool)
    requires 0 < queueCap < TWO_TO_63 && 0 < byteLimit < TWO_TO_63
    ensures Bounded(Fresh(queueCap, byteLimit, kind, caller, flowControl))
  {
  }

  // ------------------------------------------------------- the first grant is the limit

  /** Once set, the limits of the first grant never change. */
  predicate SameLimits(s: S.Stream, r: S.Stream)
  {
    s.flow.Some? ==>
      && r.flow.Some?
      && (s.flow.value.initialized ==>
            && r.flow.value.initialized
            && r.flow.value.maxItems == s.flow.value.maxItems && r.flow.value.maxBytes == s.flow.value.maxBytes)
  }

  lemma EventKeepsLimits(e: Endpoint, event: Event)
    requires Possible(e, event)
    ensures SameLimits(e.s, Happen(e, event).s)
  {
    hide S.PayloadBytes, S.Half;
  }

  lemma {:induction false} HistoryKeepsLimits(e: Endpoint, events: seq<Event>)
    requires History(e, events)
    ensures SameLimits(e.s, Outcome(e, events).s)
    decreases |events|
  {
    hide Happen, Possible;
    if events != [] {
      EventKeepsLimits(e, events[0]);
      HistoryKeepsLimits(Happen(e, events[0]), events[1..]);
    }
  }

  /** A window frame that the stream takes as credit. */
  predicate Grants(e: Endpoint, event: Event)
  {
    event.WindowFrame? && !e.s.done && !e.s.sendClosed && S.AcceptCredit(e.s, event.w).1.Accepted?
  }

  /** The first accepted window of a history. */
  function FirstGrant(e: Endpoint, events: seq<Event>): (w: Option<S.Window>)
    requires History(e, events)
    decreases |events|
  {
    if events == [] then None
    else if Grants(e, events[0]) then Some(events[0].w)
    else FirstGrant(Happen(e, events[0]), events[1..])
  }

  /** The stream's limits are those of a window, or it has none yet. */
  predicate LimitedBy(s: S.Stream, w: Option<S.Window>)
  {
    && s.flow.Some?
    && (s.flow.value.initialized <==> w.Some?)
    && (w.Some? ==> s.flow.value.maxItems == w.value.items && s.flow.value.maxBytes == w.value.bytes)
  }

  lemma GrantSetsLimits(e: Endpoint, event: Event)
    requires LimitedBy(e.s, None) && Possible(e, event)
    ensures LimitedBy(Happen(e, event).s, if Grants(e, event) then Some(event.w) else None)
  {
    hide S.PayloadBytes, S.Half;
  }

  lemma {:induction false} FirstGrantHolds(e: Endpoint, events: seq<Event>)
    requires LimitedBy(e.s, None) && History(e, events)
    ensures LimitedBy(Outcome(e, events).s, FirstGrant(e, events))
    decreases |events|
  {
    hide Happen, Possible, Grants;
    if events != [] {
      GrantSetsLimits(e, events[0]);
      if Grants(e, events[0]) {
        HistoryKeepsLimits(Happen(e, events[0]), events[1..]);
      } else {
        FirstGrantHolds(Happen(e, events[0]), events[1..]);
      }
    }
  }

  /** Remaining credit never exceeds the first accepted window, and is nothing before it. */
  predicate WithinGrant(s: S.Stream, w: Option<S.Window>)
    requires s.flow.Some?
  {
    match w
    case None => s.flow.value.items == 0 && s.flow.value.bytes == 0
    case Some(grant) => s.flow.value.items <= grant.items && s.flow.value.bytes <= grant.bytes
  }

  /** For every stream and every sequence of frames from its peer: remaining credit stays
      within the first accepted grant, queued bytes within the limit, each done channel is
      closed at most once, and no 64-bit addition or subtraction wraps. */
  lemma BoundsAgainstAnyPeer(queueCap: nat, byteLimit: nat, kind: S.Kind, caller: bool, flowControl: bool,
                             events: seq<Event>)
    requires 0 < queueCap < TWO_TO_63 && 0 < byteLimit < TWO_TO_63
    requires History(Fresh(queueCap, byteLimit, kind, caller, flowControl), events)
    ensures var start := Fresh(queueCap, byteLimit, kind, caller, flowControl);
      var e := Outcome(start, events);
      && Bounded(e)
      && (flowControl ==> e.s.flow.Some? && WithinGrant(e.s, FirstGrant(start, events)))
      && (forall k | 0 <= k < |e.taken| :: 0 <= e.s.bufferedBytes - |e.taken[k]|)
      && (e.s.flow.Some? ==> forall k | 0 <= k < |e.decoded| :: e.s.flow.value.returnBytes + |e.decoded[k]| < TWO_TO_64)
      && (e.s.flow.Some? ==> forall w :: S.AcceptCredit(e.s, w).1.Accepted? && e.s.flow.value.initialized
                                         && !e.s.done && !e.s.sendClosed
                                         ==> e.s.flow.value.items + w.items < TWO_TO_64
                                             && e.s.flow.value.bytes + w.bytes < TWO_TO_64)
  {
    var start := Fresh(queueCap, byteLimit, kind, caller, flowControl);
    FreshIsBounded(queueCap, byteLimit, kind, caller, flowControl);
    HistoryKeepsBounds(start, events);
    if flowControl { FirstGrantHolds(start, events); }
    var e := Outcome(start, events);
    forall k | 0 <= k < |e.taken| ensures 0 <= e.s.bufferedBytes - |e.taken[k]| {
      DeductKeepsBounds(e, k);
    }
  }

  // ------------------------------------------------------- waiting for credit

  /** What the reader, other callers and the context may do while a sender stands in takeCredit's
      select. */
  datatype Wake =
    | GrantArrives(items: uint64, bytes: uint64) | ItemArrives(p: Payload) | EndArrives
    | SendCloses | StreamFinishes(cause: S.Cause) | ContextEnds(cause: S.Cause)

  /** One such event, with the abort or finish it leads to. */
  function Struck(s: S.Stream, wake: Wake): (r: S.Stream)
  {
    match wake
    case GrantArrives(items, bytes) =>
      var (t, result) := S.AcceptCredit(s, S.Window(items as int, bytes as int));
      if result.Rejected? then S.Finish(t, S.Failure(2)).0 else t
    case ItemArrives(p) =>
      var (t, result) := S.DeliverItem(s, p);
      if result.Overflow? then S.Finish(t, S.Failure(1)).0 else t
    case EndArrives =>
      var (t, finished) := S.DeliverEnd(s);
      if finished then S.Finish(t, S.Closed).0 else t
    case SendCloses => if s.sendClosed then s else S.BeginCloseSend(s)
    case StreamFinishes(cause) => S.Finish(s, cause).0
    case ContextEnds(cause) => S.CancelContext(s, cause)
  }

  function AllStruck(s: S.Stream, wakes: seq<Wake>): (r: S.Stream)
  {
    if wakes == [] then s else Struck(AllStruck(s, wakes[..|wakes| - 1]), wakes[|wakes| - 1])
  }

  /** The stream after one wait: any number of events, and the token consumed. */
  function Woken(s: S.Stream, wakes: seq<Wake>): (r: S.Stream)
  {
    var t := AllStruck(s, wakes);
    if t.flow.Some? then S.ConsumeToken(t) else t
  }

  /** The stream after several waits. */
  function AllWoken(s: S.Stream, waits: seq<seq<Wake>>): (r: S.Stream)
  {
    if waits == [] then s else Woken(AllWoken(s, waits[..|waits| - 1]), waits[|waits| - 1])
  }

  /** How one pass of the loop ends. */
  datatype Pass = Credited | Oversized | Refused(cause: S.Cause) | StillWaiting

  function PassOf(s: S.Stream, size: nat): (r: Pass)
  {
    if S.SendError(s).Some? then Refused(S.SendError(s).value)
    else match S.TakeCredit(s, size).1
      case Taken => Credited
      case TooLarge => Oversized
      case MustWait => StillWaiting
  }

  // ------------------------------------------------------- the object

  /** Half a window, rounded up, without overflow. */
  function HalfOf(n: uint64): (h: uint64)
    requires n as int < TWO_TO_63
    ensures h as int == S.Half(n as int)
  {
    (n + 1) / 2
  }

  /** streamFlow. */
  class StreamFlow {
    var initialized: bool
    var items: uint64
    var bytes: uint64
    var maxItems: uint64
    var maxBytes: uint64
    var changed: bool
    var returnItems: uint64
    var returnBytes: uint64

    constructor ()
      ensures View() == S.NO_CREDIT
    {
      initialized, items, bytes, maxItems, maxBytes := false, 0, 0, 0, 0;
      changed, returnItems, returnBytes := false, 0, 0;
    }

    ghost function View(): (f: S.Flow)
      reads this
    {
      S.Flow(initialized, items as int, bytes as int, maxItems as int, maxBytes as int, changed,
             returnItems as int, returnBytes as int)
    }

    /** The end of acceptCredit: credit is added and a token left for the sender. */
    method Grant(windowItems: uint64, windowBytes: uint64)
      requires items as int + windowItems as int < TWO_TO_64 && bytes as int + windowBytes as int < TWO_TO_64
      modifies this
      ensures View() == S.Granted(old(View()), S.Window(windowItems as int, windowBytes as int))
    {
      items := items + windowItems;
      bytes := bytes + windowBytes;
      changed := true;
    }

    /** returnCredit's bookkeeping: one more item waits in the batch, or the batch goes out. */
    method Batch(size: uint64, halfItems: uint64, halfBytes: uint64, queued: nat) returns (frame: Option<S.Window>)
      requires returnItems as int + 1 < TWO_TO_64 && returnBytes as int + size as int < TWO_TO_64
      modifies this
      ensures (View(), frame)
              == S.Batched(old(View()), size as int, halfItems as int, halfBytes as int, queued)
    {
      returnItems := returnItems + 1;
      returnBytes := returnBytes + size;
      if returnItems < halfItems && returnBytes < halfBytes && queued > 0 { return None; }
      frame := Some(S.Window(returnItems as int, returnBytes as int));
      returnItems, returnBytes := 0, 0;
    }
  }

  class Stream {
    const queueCap: uint64
    const byteLimit: uint64
    var receivesItems: bool
    var sendsItems: bool
    var flow: StreamFlow?
    var recvCh: seq<Payload>
    var bufferedBytes: uint64
    var sendClosed: bool
    var sendEnded: bool
    var recvClosed: bool
    var done: bool
    var recvErr: Option<S.Cause>
    var ctxCause: Option<S.Cause>
    var recvDone: bool
    var sendDone: bool
    ghost var taken: seq<Payload>
    ghost var decoded: seq<Payload>

    ghost function State(): (s: S.Stream)
      reads this, flow
    {
      S.Stream(receivesItems, sendsItems, queueCap as int, byteLimit as int,
               if flow == null then None else Some(flow.View()),
               recvCh, bufferedBytes as int, sendClosed, sendEnded, recvClosed, done, recvErr, ctxCause,
               if recvDone then 1 else 0, if sendDone then 1 else 0)
    }

    ghost function End(): (e: Endpoint)
      reads this, flow
    {
      Endpoint(State(), taken, decoded)
    }

    ghost predicate Valid()
      reads this, flow
    {
      Bounded(End())
    }

    /** newStreamWithOptions. */
    constructor (recvBuffer: uint64, recvBytes: uint64)
      requires 0 < recvBuffer as int < TWO_TO_63 && 0 < recvBytes as int < TWO_TO_63
      ensures Valid() && taken == [] && decoded == []
      ensures State() == S.NewStream(recvBuffer as int, recvBytes as int)
    {
      queueCap, byteLimit := recvBuffer, recvBytes;
      receivesItems, sendsItems := true, true;
      flow, recvCh, bufferedBytes := null, [], 0;
      sendClosed, sendEnded, recvClosed, done := false, false, false, false;
      recvErr, ctxCause, recvDone, sendDone := None, None, false, false;
      taken, decoded := [], [];
    }

    /** configure's choice of directions. */
    method Orient(kind: S.Kind, caller: bool)
      requires !sendDone && !recvDone
      modifies this`receivesItems, this`sendsItems, this`sendClosed, this`sendEnded, this`sendDone,
               this`recvClosed, this`recvErr, this`recvDone
      ensures old(receivesItems && sendsItems) ==>
        && (receivesItems <==> kind.BidiKind? || caller == kind.ServerKind?)
        && (sendsItems <==> kind.BidiKind? || caller == kind.ClientKind?)
      ensures kind.ServerKind? && caller ==> sendClosed && sendEnded && sendDone && !recvDone
      ensures kind.ServerKind? && !caller ==> recvClosed && recvErr == Some(S.EOF) && recvDone && !sendDone
      ensures !kind.ServerKind? ==> !recvDone && !sendDone
      ensures State() == S.Orient(old(State()), kind, caller)
    {
      match kind {
        case ServerKind =>
          receivesItems, sendsItems := caller, !caller;
          if caller {
            sendClosed, sendEnded, sendDone := true, true, true;
          } else {
            recvClosed, recvErr, recvDone := true, Some(S.EOF), true;
          }
        case ClientKind => receivesItems, sendsItems := !caller, caller;
        case BidiKind =>
      }
    }

    /** configure, which runs once before the stream is published. */
    method Configure(kind: S.Kind, caller: bool, flowControl: bool)
      requires State() == S.NewStream(queueCap as int, byteLimit as int) && taken == [] && decoded == []
      requires 0 < queueCap as int < TWO_TO_63 && 0 < byteLimit as int < TWO_TO_63
      modifies this`receivesItems, this`sendsItems, this`sendClosed, this`sendEnded, this`sendDone,
               this`recvClosed, this`recvErr, this`recvDone, this`flow
      ensures Valid() && taken == [] && decoded == []
      ensures State() == S.Configure(old(State()), kind, caller, flowControl)
      ensures flow != null <==> flowControl
      ensures flow != null ==> fresh(flow)
    {
      hide Bounded, S.Orient;
      FreshIsBounded(queueCap as int, byteLimit as int, kind, caller, flowControl);
      Orient(kind, caller);
      if flowControl {
        flow := new StreamFlow();
      }
    }

    /** A window counts until the send half ends. The first one must not be empty and sets the
        limits; a later one must return an item and may not lift the remaining credit over them. */
    method AcceptCredit(windowItems: uint64, windowBytes: uint64) returns (result: S.Acceptance)
      requires Valid()
      modifies flow
      ensures done || sendClosed || result.Rejected? ==> State() == old(State())
      ensures flow != null ==> flow.returnItems == old(flow.returnItems) && flow.returnBytes == old(flow.returnBytes)
      ensures done || sendClosed ==> result.Accepted?
      ensures !done && !sendClosed && (flow == null || !sendsItems) ==> result.Rejected?
      ensures !done && !sendClosed && sendsItems && flow != null && !old(flow.initialized) ==>
        && (result.Accepted? <==> windowItems > 0 && windowBytes > 0)
        && (result.Accepted? ==> flow.initialized && flow.changed && flow.maxItems == windowItems == flow.items
                                 && flow.maxBytes == windowBytes == flow.bytes)
      ensures !done && !sendClosed && sendsItems && flow != null && old(flow.initialized) ==>
        && (result.Accepted? <==> windowItems > 0 && old(flow.items) as int + windowItems as int <= flow.maxItems as int
                                  && old(flow.bytes) as int + windowBytes as int <= flow.maxBytes as int)
        && (result.Accepted? ==> flow.changed && flow.items as int == old(flow.items) as int + windowItems as int
                                 && flow.bytes as int == old(flow.bytes) as int + windowBytes as int)
      ensures Valid() && taken == old(taken) && decoded == old(decoded)
      ensures (State(), result) == S.AcceptCredit(old(State()), S.Window(windowItems as int, windowBytes as int))
    {
      if done || sendClosed { return S.Accepted; }
      if flow == null || !sendsItems { return S.Rejected; }
      if !flow.initialized {
        if windowItems == 0 || windowBytes == 0 { return S.Rejected; }
        flow.initialized := true;
        flow.maxItems, flow.maxBytes := windowItems, windowBytes;
      } else if windowItems == 0 || windowItems > flow.maxItems - flow.items
                || windowBytes > flow.maxBytes - flow.bytes {
        return S.Rejected;
      }
      flow.Grant(windowItems, windowBytes);
      return S.Accepted;
    }

    /** The critical section of takeCredit's loop: without flow control every item may go. With it
        an item over the first grant is refused for good, and any other goes exactly when an item
        and its bytes are left, which it then spends. */
    method TakeCredit(size: uint64) returns (result: S.Taking)
      requires Valid()
      modifies flow
      ensures flow == null ==> result.Taken?
      ensures flow != null ==>
        && (result.TooLarge? <==> flow.initialized && size > flow.maxBytes)
        && (result.Taken? <==> !result.TooLarge? && old(flow.items) > 0 && size <= old(flow.bytes))
        && (result.Taken? ==> flow.items == old(flow.items) - 1 && flow.bytes == old(flow.bytes) - size)
        && flow.initialized == old(flow.initialized) && flow.changed == old(flow.changed)
        && flow.maxItems == old(flow.maxItems) && flow.maxBytes == old(flow.maxBytes)
        && flow.returnItems == old(flow.returnItems) && flow.returnBytes == old(flow.returnBytes)
      ensures Valid() && taken == old(taken) && decoded == old(decoded)
      ensures (State(), result) == S.TakeCredit(old(State()), size as int)
      ensures !result.Taken? ==> State() == old(State())
    {
      if flow == null { return S.Taken; }
      if flow.initialized && size > flow.maxBytes { return S.TooLarge; }
      if flow.items > 0 && size <= flow.bytes {
        flow.items := flow.items - 1;
        flow.bytes := flow.bytes - size;
        return S.Taken;
      }
      return S.MustWait;
    }

    method Strike(wake: Wake)
      requires Valid()
      modifies this`recvCh, this`bufferedBytes, this`sendClosed, this`sendDone, this`done, this`recvClosed,
               this`recvErr, this`recvDone, this`ctxCause, flow
      ensures Valid()
      ensures wake.GrantArrives? && !old(done) && !sendClosed && (flow == null || !sendsItems) ==> done
      ensures wake.ItemArrives? && !old(done) && !old(recvClosed) ==>
        (old(bufferedBytes) as int + |wake.p| > byteLimit as int || |old(recvCh)| >= queueCap as int ==> done)
      ensures wake.EndArrives? ==> recvClosed && (sendEnded ==> done)
      ensures wake.SendCloses? ==> sendClosed && sendDone
      ensures wake.StreamFinishes? ==> done
      ensures wake.ContextEnds? ==> ctxCause == if old(ctxCause).Some? then old(ctxCause) else Some(wake.cause)
      ensures State() == Struck(old(State()), wake)
    {
      assert recvDone == recvClosed && sendDone == sendClosed;
      hide Bounded, S.AcceptCredit, S.DeliverItem, S.DeliverEnd, S.Finish;
      match wake {
        case GrantArrives(items, bytes) =>
          var result := AcceptCredit(items, bytes);
          if result.Rejected? { var _ := Finish(S.Failure(2)); }
        case ItemArrives(p) =>
          var result := DeliverItem(p);
          if result.Overflow? { var _ := Finish(S.Failure(1)); }
        case EndArrives =>
          var finished := DeliverEnd();
          if finished { var _ := Finish(S.Closed); }
        case SendCloses => if !sendClosed { BeginCloseSend(); }
        case StreamFinishes(cause) => var _ := Finish(cause);
        case ContextEnds(cause) =>
          CloseKeepsBounds(End(), cause);
          CancelCause(cause);
      }
    }

    /** The select, given what happens until it returns. */
    method AwaitWake(wakes: seq<Wake>)
      requires Valid()
      modifies this`recvCh, this`bufferedBytes, this`sendClosed, this`sendDone, this`done, this`recvClosed,
               this`recvErr, this`recvDone, this`ctxCause, flow
      ensures Valid()
      ensures flow != null ==> !flow.changed
      ensures State() == Woken(old(State()), wakes)
    {
      hide Bounded, Struck;
      assert wakes[..0] == [];
      for i := 0 to |wakes|
        invariant Valid() && State() == AllStruck(old(State()), wakes[..i])
      {
        assert wakes[..i + 1][..i] == wakes[..i];
        Strike(wakes[i]);
      }
      assert wakes[..|wakes|] == wakes;
      if flow != null {
        TokenKeepsBounds(End());
        flow.changed := false;
      }
    }

    /** takeCredit, given what happens while it waits: it goes round until a pass does not
        have to wait, and takes credit on that pass and no other. */
    method TakeCreditLoop(size: uint64, waits: seq<seq<Wake>>) returns (result: Pass, used: nat)
      requires Valid()
      modifies this`recvCh, this`bufferedBytes, this`sendClosed, this`sendDone, this`done, this`recvClosed,
               this`recvErr, this`recvDone, this`ctxCause, flow
      ensures Valid() && used <= |waits|
      ensures forall k | 0 <= k < used :: PassOf(AllWoken(old(State()), waits[..k]), size as int).StillWaiting?
      ensures result == PassOf(AllWoken(old(State()), waits[..used]), size as int)
      ensures result.StillWaiting? ==> used == |waits|
      ensures State() == var s := AllWoken(old(State()), waits[..used]);
                         if result.Credited? then S.TakeCredit(s, size as int).0 else s
      ensures old(ctxCause).Some? ==> used == 0 && result == Refused(old(ctxCause).value)
      ensures old(ctxCause).None? && old(sendClosed) ==> used == 0 && result == Refused(S.Closed)
      ensures old(ctxCause).None? && !old(sendClosed) && flow == null ==> used == 0 && result.Credited?
    {
      hide Bounded, Woken, S.TakeCredit;
      used := 0;
      assert waits[..0] == [];
      while true
        invariant Valid() && used <= |waits|
        invariant forall k | 0 <= k < used :: PassOf(AllWoken(old(State()), waits[..k]), size as int).StillWaiting?
        invariant State() == AllWoken(old(State()), waits[..used])
        invariant used > 0 ==> old(ctxCause).None? && !old(sendClosed) && flow != null
        decreases |waits| - used
      {
        if ctxCause.Some? { return Refused(ctxCause.value), used; }
        if sendClosed { return Refused(S.Closed), used; }
        var pass := TakeCredit(size);
        match pass {
          case Taken => return Credited, used;
          case TooLarge => return Oversized, used;
          case MustWait =>
        }
        if used == |waits| { return StillWaiting, used; }
        AwaitWake(waits[used]);
        used := used + 1;
        assert waits[..used][..used - 1] == waits[..used - 1];
      }
    }

    /** An item is dropped exactly when the receiving half has ended, overflows exactly when it
        has not and a limit would be passed, and is queued last otherwise. */
    method DeliverItem(payload: Payload) returns (result: S.Delivery)
      requires Valid()
      modifies this`recvCh, this`bufferedBytes
      ensures result.Dropped? <==> recvClosed || done
      ensures result.Overflow? <==>
        && !recvClosed && !done
        && (old(bufferedBytes) as int + |payload| > byteLimit as int || |old(recvCh)| >= queueCap as int)
      ensures result.Queued? ==>
        recvCh == old(recvCh) + [payload] && bufferedBytes as int == old(bufferedBytes) as int + |payload|
      ensures !result.Queued? ==> recvCh == old(recvCh) && bufferedBytes == old(bufferedBytes)
      ensures Valid() && taken == old(taken) && decoded == old(decoded)
      ensures (State(), result) == S.DeliverItem(old(State()), payload)
    {
      ItemKeepsBounds(End(), payload);
      if recvClosed || done { return S.Dropped; }
      if |payload| <= (byteLimit - bufferedBytes) as int && |recvCh| < queueCap as int {
        recvCh := recvCh + [payload];
        bufferedBytes := bufferedBytes + |payload| as uint64;
        return S.Queued;
      }
      return S.Overflow;
    }

    /** A receive from recvCh inside Recv. */
    method Dequeue() returns (payload: Payload)
      requires Valid() && recvCh != []
      modifies this`recvCh, this`taken
      ensures Valid() && taken == old(taken) + [payload] && decoded == old(decoded)
      ensures old(recvCh) == [payload] + recvCh
      ensures (State(), payload) == S.Dequeue(old(State()))
    {
      ReceiveKeepsBounds(End());
      payload := recvCh[0];
      recvCh := recvCh[1..];
      taken := taken + [payload];
    }

    /** receivePayload's first critical section; k says which held payload it is. */
    method Deduct(payload: Payload, ghost k: nat)
      requires Valid() && k < |taken| && taken[k] == payload
      modifies this`bufferedBytes, this`taken, this`decoded
      ensures Valid() && taken == S.Without(old(taken), k) && decoded == old(decoded) + [payload]
      ensures bufferedBytes as int + |payload| == old(bufferedBytes) as int
      ensures State() == S.Deduct(old(State()), |payload|)
    {
      DeductKeepsBounds(End(), k);
      hide Bounded;
      bufferedBytes := bufferedBytes - |payload| as uint64;
      taken, decoded := S.Without(taken, k), decoded + [payload];
    }

    /** While the receiving half is open one more item joins the batch, and the whole batch goes out
        exactly when it reaches half of either window or the queue is empty. */
    method ReturnCredit(size: uint64, ghost k: nat) returns (frame: Option<S.Window>)
      requires Valid() && k < |decoded| && |decoded[k]| == size as int
      modifies flow, this`decoded
      ensures flow == null || recvClosed || done ==> frame.None? && State() == old(State())
      ensures flow != null && !recvClosed && !done ==>
        var items, bytes := old(flow.returnItems) as int + 1, old(flow.returnBytes) as int + size as int;
        && (frame.Some? <==> 2 * items >= queueCap as int || 2 * bytes >= byteLimit as int || recvCh == [])
        && (frame.Some? ==> frame.value == S.Window(items, bytes) && flow.returnItems == 0 && flow.returnBytes == 0)
        && (frame.None? ==> flow.returnItems as int == items && flow.returnBytes as int == bytes)
        && flow.initialized == old(flow.initialized) && flow.changed == old(flow.changed)
        && flow.items == old(flow.items) && flow.bytes == old(flow.bytes)
        && flow.maxItems == old(flow.maxItems) && flow.maxBytes == old(flow.maxBytes)
      ensures Valid() && taken == old(taken) && decoded == S.Without(old(decoded), k)
      ensures (State(), frame) == S.ReturnCredit(old(State()), size as int)
    {
      ReturnKeepsBounds(End(), k);
      assert queueCap as int < TWO_TO_63 && byteLimit as int < TWO_TO_63;
      hide Bounded, S.Half, HalfOf;
      decoded := S.Without(decoded, k);
      if flow == null || recvClosed || done { return None; }
      frame := flow.Batch(size, HalfOf(queueCap), HalfOf(byteLimit), |recvCh|);
    }

    /** closeRecvLocked: recvDone is never closed twice. */
    method CloseRecv(cause: S.Cause)
      requires recvDone == recvClosed
      modifies this`recvClosed, this`recvErr, this`recvDone
      ensures recvDone && recvClosed
      ensures recvErr == if old(recvClosed) then old(recvErr) else Some(cause)
      ensures State() == S.CloseRecv(old(State()), cause)
    {
      if recvClosed { return; }
      recvClosed, recvErr := true, Some(cause);
      assert !recvDone;
      recvDone := true;
    }

    method DeliverEnd() returns (finished: bool)
      requires Valid()
      modifies this`recvClosed, this`recvErr, this`recvDone
      ensures Valid()
      ensures recvDone && recvClosed && (finished <==> sendEnded)
      ensures recvErr == if old(recvClosed) then old(recvErr) else Some(S.EOF)
      ensures (State(), finished) == S.DeliverEnd(old(State()))
    {
      CloseKeepsBounds(End(), S.EOF);
      CloseRecv(S.EOF);
      finished := sendEnded;
    }

    /** CloseSend's first critical section, guarded by closeSendOnce. */
    method BeginCloseSend()
      requires Valid() && !sendClosed
      modifies this`sendClosed, this`sendDone
      ensures Valid()
      ensures sendDone && S.SendError(State()).Some?
      ensures State() == S.BeginCloseSend(old(State()))
    {
      sendClosed := true;
      assert !sendDone;
      sendDone := true;
    }

    method RecordEnd(written: bool) returns (finished: bool)
      requires Valid()
      modifies this`sendEnded
      ensures Valid()
      ensures finished <==> recvDone
      ensures sendEnded == written
      ensures (State(), finished) == S.RecordEnd(old(State()), written)
    {
      sendEnded := written;
      finished := recvClosed;
    }

    /** The first call terminates the stream: whatever had no cause yet gets this one. Later calls
        change nothing. */
    method Finish(cause: S.Cause) returns (first: bool)
      requires Valid()
      modifies this`done, this`recvClosed, this`recvErr, this`recvDone, this`ctxCause
      ensures Valid()
      ensures first <==> !old(done)
      ensures !first ==> State() == old(State())
      ensures first ==> done && recvClosed && recvDone
      ensures first ==> recvErr == if old(recvClosed) then old(recvErr) else Some(cause)
      ensures first ==> ctxCause == if old(ctxCause).Some? then old(ctxCause) else Some(cause)
      ensures (State(), first) == S.Finish(old(State()), cause)
    {
      FinishKeepsBounds(End(), cause);
      assert recvDone == recvClosed;
      hide Bounded, S.CloseRecv, S.CancelContext;
      if done { return false; }
      done := true;
      CloseRecv(cause);
      CancelCause(cause);
      return true;
    }

    /** context.CancelCauseFunc: the first cause stays. */
    method CancelCause(cause: S.Cause)
      modifies this`ctxCause
      ensures ctxCause == if old(ctxCause).Some? then old(ctxCause) else Some(cause)
      ensures State() == S.CancelContext(old(State()), cause)
    {
      if ctxCause == None { ctxCause := Some(cause); }
    }
  }
}
