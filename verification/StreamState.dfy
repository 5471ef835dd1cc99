/**
 The lock-protected state of one Stream and the critical sections of stream.go and
 stream_flow.go as functions of it. Each function is one hold of Stream.mu.
 */
module StreamState {
  import opened Bytes

  datatype Kind = ServerKind | ClientKind | BidiKind

  /** Terminal causes; io.EOF and ErrClosed are told apart, the rest are opaque. */
  datatype Cause = EOF | Closed | Failure(code: nat)

  /** The counters of a stream_window frame. */
  datatype Window = Window(items: nat, bytes: nat)

  /** `changed` is true while the one-slot channel holds a token. */
  datatype Flow = Flow(
    initialized: bool, items: nat, bytes: nat, maxItems: nat, maxBytes: nat, changed: bool,
    returnItems: nat, returnBytes: nat)

  /** recvDone and sendDone count how often each channel has been closed: a second
      close would panic. */
  datatype Stream = Stream(
    receivesItems: bool, sendsItems: bool, queueCap: nat, byteLimit: nat,
    flow: Option<Flow>,
    queue: seq<Payload>, bufferedBytes: int,
    sendClosed: bool, sendEnded: bool, recvClosed: bool, done: bool,
    recvErr: Option<Cause>, ctxCause: Option<Cause>,
    recvDone: nat, sendDone: nat)

  const NO_CREDIT := Flow(false, 0, 0, 0, 0, false, 0, 0)

  // ------------------------------------------------------- creation

  function NewStream(queueCap: nat, byteLimit: nat): (s: Stream)
  {
    Stream(true, true, queueCap, byteLimit, None, [], 0, false, false, false, false, None, None, 0, 0)
  }

  /** Which directions carry items, by kind and role. */
  function Orient(s: Stream, kind: Kind, caller: bool): (r: Stream)
  {
    match kind
    case ServerKind =>
      var u := s.(receivesItems := caller, sendsItems := !caller);
      if caller then u.(sendClosed := true, sendEnded := true, sendDone := u.sendDone + 1)
      else u.(recvClosed := true, recvErr := Some(EOF), recvDone := u.recvDone + 1)
    case ClientKind => s.(receivesItems := !caller, sendsItems := caller)
    case BidiKind => s
  }

  function Configure(s: Stream, kind: Kind, caller: bool, flowControl: bool): (r: Stream)
  {
    if flowControl then Orient(s, kind, caller).(flow := Some(NO_CREDIT)) else Orient(s, kind, caller)
  }

  // ------------------------------------------------------- sender side

  datatype Acceptance = Accepted | Rejected

  function AcceptCredit(s: Stream, w: Window): (r: (Stream, Acceptance))
  {
    if s.done || s.sendClosed then (s, Accepted)
    else if s.flow.None? || !s.sendsItems then (s, Rejected)
    else
      var f := s.flow.value;
      if !f.initialized then
        if w.items == 0 || w.bytes == 0 then (s, Rejected)
        else (s.(flow := Some(Granted(f.(initialized := true, maxItems := w.items, maxBytes := w.bytes), w))), Accepted)
      else if w.items == 0 || w.items > f.maxItems - f.items || w.bytes > f.maxBytes - f.bytes then (s, Rejected)
      else (s.(flow := Some(Granted(f, w))), Accepted)
  }

  function Granted(f: Flow, w: Window): (r: Flow)
  {
    f.(items := f.items + w.items, bytes := f.bytes + w.bytes, changed := true)
  }

  /** The send side's reason to stop, if it has one. */
  function SendError(s: Stream): (r: Option<Cause>)
  {
    if s.ctxCause.Some? then s.ctxCause else if s.sendClosed then Some(Closed) else None
  }

  datatype Taking = Taken | TooLarge | MustWait

  /** The critical section of takeCredit's retry loop. */
  function TakeCredit(s: Stream, size: nat): (r: (Stream, Taking))
  {
    if s.flow.None? then (s, Taken)
    else
      var f := s.flow.value;
      if f.initialized && size > f.maxBytes then (s, TooLarge)
      else if f.items > 0 && size <= f.bytes then
        (s.(flow := Some(f.(items := f.items - 1, bytes := f.bytes - size))), Taken)
      else (s, MustWait)
  }

  /** Receiving from the one-slot channel. */
  function ConsumeToken(s: Stream): (r: Stream)
    requires s.flow.Some?
  {
    s.(flow := Some(s.flow.value.(changed := false)))
  }

  function BeginCloseSend(s: Stream): (r: Stream)
  {
    s.(sendClosed := true, sendDone := s.sendDone + 1)
  }

  /** CloseSend's bookkeeping after the end frame was or was not written; the flag
      tells it to finish the stream. */
  function RecordEnd(s: Stream, written: bool): (r: (Stream, bool))
  {
    (s.(sendEnded := written), s.recvClosed)
  }

  // ------------------------------------------------------- receiver side

  datatype Delivery = Dropped | Queued | Overflow

  function DeliverItem(s: Stream, p: Payload): (r: (Stream, Delivery))
  {
    if s.recvClosed || s.done then (s, Dropped)
    else if |p| <= s.byteLimit - s.bufferedBytes && |s.queue| < s.queueCap then
      (s.(queue := s.queue + [p], bufferedBytes := s.bufferedBytes + |p|), Queued)
    else (s, Overflow)
  }

  /** Receiving from recvCh. */
  function Dequeue(s: Stream): (r: (Stream, Payload))
    requires s.queue != []
  {
    (s.(queue := s.queue[1..]), s.queue[0])
  }

  function Deduct(s: Stream, size: nat): (r: Stream)
  {
    s.(bufferedBytes := s.bufferedBytes - size)
  }

  function Half(n: nat): (h: nat)
    ensures n <= 2 * h <= n + 1
  {
    (n + 1) / 2
  }

  /** The batch of credit to return, one item later: it goes out at half a window, or when no
      item is queued. */
  function Batched(f: Flow, size: nat, halfItems: nat, halfBytes: nat, queued: nat): (r: (Flow, Option<Window>))
  {
    var g := f.(returnItems := f.returnItems + 1, returnBytes := f.returnBytes + size);
    if g.returnItems < halfItems && g.returnBytes < halfBytes && queued > 0 then (g, None)
    else (g.(returnItems := 0, returnBytes := 0), Some(Window(g.returnItems, g.returnBytes)))
  }

  function ReturnCredit(s: Stream, size: nat): (r: (Stream, Option<Window>))
  {
    if s.flow.None? || s.recvClosed || s.done then (s, None)
    else
      var (f, w) := Batched(s.flow.value, size, Half(s.queueCap), Half(s.byteLimit), |s.queue|);
      (s.(flow := Some(f)), w)
  }

  function CloseRecv(s: Stream, cause: Cause): (r: Stream)
  {
    if s.recvClosed then s else s.(recvClosed := true, recvErr := Some(cause), recvDone := s.recvDone + 1)
  }

  /** deliverEnd's critical section; the flag tells it to finish the stream. */
  function DeliverEnd(s: Stream): (r: (Stream, bool))
  {
    (CloseRecv(s, EOF), s.sendEnded)
  }

  // ------------------------------------------------------- termination

  /** context.CancelCauseFunc keeps the first cause. */
  function CancelContext(s: Stream, cause: Cause): (r: Stream)
  {
    if s.ctxCause.Some? then s else s.(ctxCause := Some(cause))
  }

  /** finish: the flag is true for the one call that terminates the stream and must
      then run onDone. */
  function Finish(s: Stream, cause: Cause): (r: (Stream, bool))
  {
    if s.done then (s, false) else (CancelContext(CloseRecv(s.(done := true), cause), cause), true)
  }

  // ------------------------------------------------------- sums over payloads and windows

  function PayloadBytes(ps: seq<Payload>): (n: nat)
  {
    if ps == [] then 0 else |ps[0]| + PayloadBytes(ps[1..])
  }

  function ItemCredit(ws: seq<Window>): (n: nat)
  {
    if ws == [] then 0 else ws[0].items + ItemCredit(ws[1..])
  }

  function ByteCredit(ws: seq<Window>): (n: nat)
  {
    if ws == [] then 0 else ws[0].bytes + ByteCredit(ws[1..])
  }

  function Without<T>(xs: seq<T>, k: nat): (r: seq<T>)
    requires k < |xs|
    ensures |r| == |xs| - 1
  {
    xs[..k] + xs[k + 1..]
  }

  lemma {:induction false} BytesAppend(ps: seq<Payload>, qs: seq<Payload>)
    ensures PayloadBytes(ps + qs) == PayloadBytes(ps) + PayloadBytes(qs)
  {
    if ps == [] {
      assert ps + qs == qs;
    } else {
      BytesAppend(ps[1..], qs);
      assert (ps + qs)[1..] == ps[1..] + qs;
    }
  }

  lemma BytesWithout(ps: seq<Payload>, k: nat)
    requires k < |ps|
    ensures PayloadBytes(Without(ps, k)) == PayloadBytes(ps) - |ps[k]|
  {
    BytesAppend(ps[..k], ps[k + 1..]);
    BytesAppend(ps[..k], ps[k..]);
    assert ps == ps[..k] + ps[k..];
    assert ps[k..][1..] == ps[k + 1..];
  }

  lemma {:induction false} CreditAppend(vs: seq<Window>, ws: seq<Window>)
    ensures ItemCredit(vs + ws) == ItemCredit(vs) + ItemCredit(ws)
    ensures ByteCredit(vs + ws) == ByteCredit(vs) + ByteCredit(ws)
  {
    if vs == [] {
      assert vs + ws == ws;
    } else {
      CreditAppend(vs[1..], ws);
      assert (vs + ws)[1..] == vs[1..] + ws;
    }
  }

  lemma CreditWithout(ws: seq<Window>, k: nat)
    requires k < |ws|
    ensures ItemCredit(Without(ws, k)) == ItemCredit(ws) - ws[k].items
    ensures ByteCredit(Without(ws, k)) == ByteCredit(ws) - ws[k].bytes
  {
    CreditAppend(ws[..k], ws[k + 1..]);
    CreditAppend(ws[..k], ws[k..]);
    assert ws == ws[..k] + ws[k..];
    assert ws[k..][1..] == ws[k + 1..];
  }
}
