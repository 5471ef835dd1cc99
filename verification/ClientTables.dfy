/**
 The connection tables of a reconnecting client: pending calls, tracked requests and
 streams, with the critical sections of client.go as functions, and every interleaving of
 callers, reader, connector, connection loss and close.
 */
module ClientTables {
  import opened Bytes

  type Id = nat

  /** The cancel function of a tracked request, known by the handler it belongs to and the
      connection generation that handler was started for. */
  datatype Tracked = Tracked(generation: nat, handler: Id)

  /** The fields behind connMu, pendingMu, requestMu and streamMu. Generation 0 means no
      connection. readyCloses counts the closes of the current readiness channel. */
  datatype Client = Client(
    conn: Option<Id>, generation: nat, readyCloses: nat, closed: bool,
    pending: map<Id, Id>, requests: map<Id, Tracked>, streams: map<Id, Id>,
    nextID: nat, maxPending: nat, maxStreams: nat)

  // ------------------------------------------------------- critical sections

  /** setConn. */
  function SetConn(c: Client, conn: Id, generation: nat): (r: Client)
  {
    if c.closed then c
    else c.(conn := Some(conn), generation := generation, readyCloses := c.readyCloses + 1)
  }

  predicate IsCurrent(c: Client, conn: Id, generation: nat)
  {
    c.conn == Some(conn) && (generation == 0 || c.generation == generation)
  }

  /** connectionLostGeneration up to the table sweeps, which follow under the same lock. */
  function LoseConn(c: Client, conn: Id, generation: nat): (r: (Client, bool))
  {
    if !IsCurrent(c, conn, generation) then (c, false)
    else (c.(conn := None, generation := 0, readyCloses := 0), true)
  }

  function NextRequestID(c: Client): (r: (Client, Id))
  {
    (c.(nextID := c.nextID + 2), c.nextID + 1)
  }

  /** addPending; a limit of zero means no limit. */
  function AddPending(c: Client, id: Id, call: Id): (r: (Client, bool))
  {
    if c.closed || (c.maxPending > 0 && |c.pending| >= c.maxPending) then (c, false)
    else (c.(pending := c.pending[id := call]), true)
  }

  function RemovePending(c: Client, id: Id): (r: Client)
  {
    c.(pending := c.pending - {id})
  }

  /** complete's critical section; the call it hands back is to be delivered. */
  function TakePending(c: Client, id: Id): (r: (Client, Option<Id>))
  {
    if id in c.pending then (c.(pending := c.pending - {id}), Some(c.pending[id])) else (c, None)
  }

  function TrackRequest(c: Client, conn: Id, generation: nat, id: Id, handler: Id): (r: (Client, bool))
  {
    if c.conn != Some(conn) || c.generation != generation || c.closed then (c, false)
    else (c.(requests := c.requests[id := Tracked(generation, handler)]), true)
  }

  function UntrackRequest(c: Client, conn: Id, generation: nat, id: Id): (r: Client)
  {
    if c.conn != Some(conn) || c.generation != generation then c else c.(requests := c.requests - {id})
  }

  /** addStream; a limit of zero means no limit, and a duplicate ID is refused. */
  function AddStream(c: Client, id: Id, stream: Id): (r: (Client, bool))
  {
    if c.closed || (c.maxStreams > 0 && |c.streams| >= c.maxStreams) || id in c.streams then (c, false)
    else (c.(streams := c.streams[id := stream]), true)
  }

  function RemoveStream(c: Client, id: Id, stream: Id): (r: Client)
  {
    if id in c.streams && c.streams[id] == stream then c.(streams := c.streams - {id}) else c
  }

  /** closeWithError's connMu section. */
  function CloseConn(c: Client): (r: Client)
  {
    c.(conn := None, generation := 0, readyCloses := if c.readyCloses > 0 then c.readyCloses else 1)
  }

  /** What the fields must agree on whenever connMu is free: the generation and, until close, the
      readiness channel follow the connection, and so does every tracked request. */
  predicate Consistent(c: Client)
  {
    && (c.conn.Some? <==> c.generation > 0)
    && c.readyCloses <= 1
    && (!c.closed ==> (c.readyCloses == 1 <==> c.conn.Some?))
    && (!c.closed ==> forall id | id in c.requests :: c.conn.Some? && c.requests[id].generation == c.generation)
  }

  /** What the tables behind the other locks must agree on at any time: pending calls carry request
      IDs that were handed out, and calls and streams are within their limits. */
  predicate Orderly(c: Client)
  {
    && c.nextID % 2 == 0
    && (forall id | id in c.pending :: id % 2 == 1 && id < c.nextID)
    && (c.maxPending > 0 ==> |c.pending| <= c.maxPending)
    && (c.maxStreams > 0 ==> |c.streams| <= c.maxStreams)
  }

  // ------------------------------------------------------- every interleaving

  /** One sendRequest: the connection it got from waitConn, its request ID, whether it has
      added its entry and passed the currency check of writeToConnection, and how often the
      entry has left the table, is being delivered, and was put into the response channel. */
  datatype Call = Call(conn: Id, id: Id, added: bool, passed: bool, exits: nat, inFlight: nat, slot: nat)

  /** Who holds connMu across several steps. */
  datatype Loss =
    | Unlocked | SweepStreams(conn: Id) | SweepRequests(conn: Id) | SweepPending(conn: Id) | Delivering(batch: set<Id>)

  /** closeWithError: after the closed channel, the connection, then the tables. */
  datatype Closing = Open | MustCloseConn | MustSweep | Closed

  datatype World = World(
    c: Client, calls: seq<Call>,
    dialing: bool,               // some connectOnce holds the gate and saw no connection
    nextConn: Id, nextStream: Id, loss: Loss, closing: Closing)

  datatype Step =
    | BeginConnect | FailConnect | Publish
    | Lose(conn: Id, generation: nat) | NextSweep | DeliverBatch(call: Id) | EndLoss
    | OpenCall | AddEntry(call: Id) | CheckCurrent(call: Id) | RemoveEntry(call: Id)
    | Complete(id: Id) | Deliver(call: Id)
    | Track(conn: Id, generation: nat, id: Id, handler: Id) | Untrack(conn: Id, generation: nat, id: Id)
    | EnterStream(id: Id) | LeaveStream(id: Id, stream: Id)
    | Close | CloseNext

  predicate Enabled(w: World, step: Step)
  {
    match step
    case BeginConnect => !w.dialing && w.loss.Unlocked?
    case FailConnect => w.dialing
    case Publish => w.dialing && w.loss.Unlocked?
    case Lose(_, _) => w.loss.Unlocked?
    case NextSweep => w.loss.SweepStreams? || w.loss.SweepRequests? || w.loss.SweepPending?
    case DeliverBatch(call) =>
      w.loss.Delivering? && call in w.loss.batch && call < |w.calls| && w.calls[call].inFlight > 0
    case EndLoss => w.loss.Delivering? && w.loss.batch == {}
    case OpenCall => w.loss.Unlocked? && w.c.conn.Some?
    case AddEntry(call) => call < |w.calls| && !w.calls[call].added
    case CheckCurrent(call) => w.loss.Unlocked? && call < |w.calls| && w.calls[call].added
    case RemoveEntry(call) => call < |w.calls| && w.calls[call].added
    case Complete(_) => true
    case Deliver(call) =>
      call < |w.calls| && w.calls[call].inFlight > 0 && !(w.loss.Delivering? && call in w.loss.batch)
    case Track(_, _, _, _) => w.loss.Unlocked?
    case Untrack(_, _, _) => w.loss.Unlocked?
    case EnterStream(_) => true
    case LeaveStream(_, _) => true
    case Close => w.closing.Open?
    case CloseNext => (w.closing.MustCloseConn? && w.loss.Unlocked?) || w.closing.MustSweep?
  }

  function Apply(w: World, step: Step): (v: World)
    requires Enabled(w, step)
  {
    match step
    case BeginConnect => if w.c.closed || w.c.conn.Some? then w else w.(dialing := true)
    case FailConnect => w.(dialing := false)
    case Publish => AtPublish(w)
    case Lose(conn, generation) => AtLose(w, conn, generation)
    case NextSweep => AtSweep(w)
    case DeliverBatch(call) => AtDeliver(w, call).(loss := Delivering(w.loss.batch - {call}))
    case EndLoss => w.(loss := Unlocked)
    case OpenCall => AtOpenCall(w)
    case AddEntry(call) => AtAddEntry(w, call)
    case CheckCurrent(call) => AtCheckCurrent(w, call)
    case RemoveEntry(call) => AtRemoveEntry(w, call)
    case Complete(id) => AtComplete(w, id)
    case Deliver(call) => AtDeliver(w, call)
    case Track(conn, generation, id, handler) => w.(c := TrackRequest(w.c, conn, generation, id, handler).0)
    case Untrack(conn, generation, id) => w.(c := UntrackRequest(w.c, conn, generation, id))
    case EnterStream(id) => w.(c := AddStream(w.c, id, w.nextStream).0, nextStream := w.nextStream + 1)
    case LeaveStream(id, stream) => w.(c := RemoveStream(w.c, id, stream))
    case Close => w.(c := w.c.(closed := true), closing := MustCloseConn)
    case CloseNext => AtCloseNext(w)
  }

  /** A generation is as fresh as its connection, so it carries the same number. */
  function AtPublish(w: World): (v: World)
  {
    w.(dialing := false, nextConn := w.nextConn + 1, c := SetConn(w.c, w.nextConn, w.nextConn))
  }

  function AtLose(w: World, conn: Id, generation: nat): (v: World)
  {
    var (c, lost) := LoseConn(w.c, conn, generation);
    if lost then w.(c := c, loss := SweepStreams(conn)) else w
  }

  /** failStreams, cancelRequests and failPending in turn, connMu being held. */
  function AtSweep(w: World): (v: World)
  {
    match w.loss
    case SweepStreams(conn) => w.(c := w.c.(streams := map[]), loss := SweepRequests(conn))
    case SweepRequests(conn) => w.(c := w.c.(requests := map[]), loss := SweepPending(conn))
    case SweepPending(_) => AllTaken(w).(loss := Delivering(w.c.pending.Values))
    case _ => w
  }

  /** failPending's critical section: every entry leaves the table. */
  function AllTaken(w: World): (v: World)
  {
    w.(c := w.c.(pending := map[]),
       calls := seq(|w.calls|, i requires 0 <= i < |w.calls| =>
                  if InTable(w, i) then w.calls[i].(exits := w.calls[i].exits + 1, inFlight := w.calls[i].inFlight + 1)
                  else w.calls[i]))
  }

  predicate InTable(w: World, i: Id)
  {
    i < |w.calls| && w.calls[i].id in w.c.pending && w.c.pending[w.calls[i].id] == i
  }

  function AtDeliver(w: World, call: Id): (v: World)
    requires call < |w.calls| && w.calls[call].inFlight > 0
  {
    w.(calls := w.calls[call := w.calls[call].(inFlight := w.calls[call].inFlight - 1, slot := w.calls[call].slot + 1)])
  }

  function AtOpenCall(w: World): (v: World)
    requires w.c.conn.Some?
  {
    var (c, id) := NextRequestID(w.c);
    w.(c := c, calls := w.calls + [Call(w.c.conn.value, id, false, false, 0, 0, 0)])
  }

  function AtAddEntry(w: World, call: Id): (v: World)
    requires call < |w.calls|
  {
    var (c, ok) := AddPending(w.c, w.calls[call].id, call);
    if ok then w.(c := c, calls := w.calls[call := w.calls[call].(added := true)]) else w
  }

  function AtCheckCurrent(w: World, call: Id): (v: World)
    requires call < |w.calls|
  {
    if IsCurrent(w.c, w.calls[call].conn, 0) then w.(calls := w.calls[call := w.calls[call].(passed := true)]) else w
  }

  function Exited(w: World, id: Id): (calls: seq<Call>)
  {
    if id in w.c.pending && w.c.pending[id] < |w.calls| then
      var i := w.c.pending[id];
      w.calls[i := w.calls[i].(exits := w.calls[i].exits + 1)]
    else w.calls
  }

  function AtRemoveEntry(w: World, call: Id): (v: World)
    requires call < |w.calls|
  {
    w.(c := RemovePending(w.c, w.calls[call].id), calls := Exited(w, w.calls[call].id))
  }

  function AtComplete(w: World, id: Id): (v: World)
  {
    var (c, taken) := TakePending(w.c, id);
    var calls := Exited(w, id);
    if taken.Some? && taken.value < |calls| then
      w.(c := c, calls := calls[taken.value := calls[taken.value].(inFlight := calls[taken.value].inFlight + 1)])
    else w.(c := c, calls := calls)
  }

  function AtCloseNext(w: World): (v: World)
  {
    if w.closing.MustCloseConn? then w.(c := CloseConn(w.c), closing := MustSweep)
    else AllTaken(w.(c := w.c.(streams := map[], requests := map[]))).(closing := Closed)
  }

  function NewWorld(maxPending: nat, maxStreams: nat): (w: World)
  {
    World(Client(None, 0, 0, false, map[], map[], map[], 0, maxPending, maxStreams), [], false, 1, 0, Unlocked, Open)
  }

  // ------------------------------------------------------- invariant

  predicate Connection(w: World)
  {
    && w.nextConn > 0
    && (w.c.conn.Some? ==> w.c.conn.value < w.nextConn && w.c.generation == w.c.conn.value && w.c.generation > 0)
    && (w.c.conn.None? ==> w.c.generation == 0)
    && (w.dialing && !w.c.closed ==> w.c.conn.None?)
    && w.c.readyCloses <= 1
    && (w.closing.Open? || w.closing.MustCloseConn? ==> (w.c.readyCloses == 1 <==> w.c.conn.Some?))
    && (w.closing.MustSweep? || w.closing.Closed? ==> w.c.conn.None?)
    && (w.c.closed <==> !w.closing.Open?)
    && (!w.loss.Unlocked? ==> w.c.conn.None?)
  }

  predicate Requests(w: World)
  {
    w.loss.Unlocked? || w.loss.SweepPending? || w.loss.Delivering? ==>
      || w.closing.MustSweep?
      || forall id | id in w.c.requests :: w.c.conn.Some? && w.c.requests[id].generation == w.c.generation
  }

  /** A call's place: at most one of in the table, being delivered, delivered. */
  predicate Placed(w: World, i: Id)
    requires i < |w.calls|
  {
    var k := w.calls[i];
    && k.id == 2 * i + 1
    && k.exits + (if InTable(w, i) then 1 else 0) == (if k.added then 1 else 0)
    && k.inFlight + k.slot <= k.exits
    && (k.passed ==> k.added)
    && k.conn < w.nextConn
  }

  predicate Pending(w: World)
  {
    && w.c.nextID == 2 * |w.calls|
    && (forall id | id in w.c.pending :: w.c.pending[id] < |w.calls| && w.calls[w.c.pending[id]].id == id)
    && (forall i | 0 <= i < |w.calls| :: Placed(w, i))
    && (w.loss.Delivering? ==> forall i | i in w.loss.batch :: i < |w.calls| && w.calls[i].inFlight == 1)
    && (w.closing.Closed? ==> w.c.pending == map[] && w.c.streams == map[])
  }

  /** An entry that passed its currency check belongs to the connection in use, or to the one
      whose loss is about to sweep the table. */
  predicate Current(w: World)
  {
    forall i | 0 <= i < |w.calls| && InTable(w, i) && w.calls[i].passed ::
      || w.c.conn == Some(w.calls[i].conn)
      || w.closing.MustSweep?
      || w.loss == SweepStreams(w.calls[i].conn) || w.loss == SweepRequests(w.calls[i].conn)
      || w.loss == SweepPending(w.calls[i].conn)
  }

  /** Every stream was entered once, under one ID, and within the limit. */
  predicate Streams(w: World)
  {
    StreamTable(w.c.streams, w.nextStream, w.c.maxStreams)
  }

  predicate Limited(w: World)
  {
    w.c.maxPending > 0 ==> |w.c.pending| <= w.c.maxPending
  }

  predicate StreamTable(streams: map<Id, Id>, next: Id, max: nat)
  {
    && (forall id | id in streams :: streams[id] < next)
    && (forall a, b | a in streams && b in streams && streams[a] == streams[b] :: a == b)
    && (max > 0 ==> |streams| <= max)
  }

  predicate Inv(w: World)
  {
    Connection(w) && Requests(w) && Pending(w) && Current(w) && Streams(w) && Limited(w)
  }

  // ------------------------------------------------------- preservation

  lemma PublishKeeps(w: World)
    requires Inv(w) && Enabled(w, Publish)
    ensures Inv(AtPublish(w))
  {
    var v := AtPublish(w);
    forall i | 0 <= i < |v.calls| ensures Placed(v, i) {
      assert Placed(w, i);
    }
  }

  lemma LoseKeeps(w: World, conn: Id, generation: nat)
    requires Inv(w) && w.loss.Unlocked?
    ensures Inv(AtLose(w, conn, generation))
  {
    var v := AtLose(w, conn, generation);
    forall i | 0 <= i < |v.calls| ensures Placed(v, i) {
      assert Placed(w, i);
    }
  }

  lemma TakenKeeps(w: World)
    requires Pending(w)
    ensures Pending(AllTaken(w).(loss := Unlocked))
    ensures forall i | i in w.c.pending.Values :: i < |w.calls| && AllTaken(w).calls[i].inFlight == 1
    ensures forall i | 0 <= i < |w.calls| :: !InTable(AllTaken(w), i)
  {
    var v := AllTaken(w).(loss := Unlocked);
    forall i | 0 <= i < |v.calls| ensures Placed(v, i) {
      assert Placed(w, i);
    }
    forall i | i in w.c.pending.Values ensures i < |w.calls| && v.calls[i].inFlight == 1 {
      var id :| id in w.c.pending && w.c.pending[id] == i;
      assert Placed(w, i);
    }
  }

  lemma SweepKeeps(w: World)
    requires Inv(w) && Enabled(w, NextSweep)
    ensures Inv(AtSweep(w))
  {
    if w.loss.SweepPending? {
      TakenKeeps(w);
      var v := AtSweep(w);
      forall i | 0 <= i < |v.calls| ensures Placed(v, i) {
        assert Placed(AllTaken(w).(loss := Unlocked), i);
      }
    } else {
      var v := AtSweep(w);
      forall i | 0 <= i < |v.calls| ensures Placed(v, i) {
        assert Placed(w, i);
      }
    }
  }

  lemma DeliverKeeps(w: World, call: Id)
    requires Inv(w) && call < |w.calls| && w.calls[call].inFlight > 0
    ensures w.loss.Delivering? && call in w.loss.batch ==>
      Inv(AtDeliver(w, call).(loss := Delivering(w.loss.batch - {call})))
    ensures !(w.loss.Delivering? && call in w.loss.batch) ==> Inv(AtDeliver(w, call))
  {
    var v := if w.loss.Delivering? && call in w.loss.batch
             then AtDeliver(w, call).(loss := Delivering(w.loss.batch - {call})) else AtDeliver(w, call);
    assert Placed(w, call);
    forall i | 0 <= i < |v.calls| ensures Placed(v, i) {
      assert Placed(w, i);
    }
  }

  lemma OpenCallKeeps(w: World)
    requires Inv(w) && Enabled(w, OpenCall)
    ensures Inv(AtOpenCall(w))
  {
    var v := AtOpenCall(w);
    forall i | 0 <= i < |v.calls| ensures Placed(v, i) {
      if i < |w.calls| { assert Placed(w, i); }
    }
  }

  lemma AddKeeps(w: World, call: Id)
    requires Inv(w) && call < |w.calls| && !w.calls[call].added
    ensures Inv(AtAddEntry(w, call))
  {
    var v := AtAddEntry(w, call);
    assert Placed(w, call);
    forall i | 0 <= i < |v.calls| ensures Placed(v, i) {
      assert Placed(w, i);
    }
  }

  lemma CheckKeeps(w: World, call: Id)
    requires Inv(w) && call < |w.calls| && w.calls[call].added
    ensures Inv(AtCheckCurrent(w, call))
  {
    var v := AtCheckCurrent(w, call);
    forall i | 0 <= i < |v.calls| ensures Placed(v, i) {
      assert Placed(w, i);
    }
  }

  lemma RemoveKeeps(w: World, call: Id)
    requires Inv(w) && call < |w.calls|
    ensures Inv(AtRemoveEntry(w, call))
  {
    var v := AtRemoveEntry(w, call);
    forall i | 0 <= i < |v.calls| ensures Placed(v, i) {
      assert Placed(w, i);
    }
  }

  lemma CompleteKeeps(w: World, id: Id)
    requires Inv(w)
    ensures Inv(AtComplete(w, id))
  {
    hide StreamTable;
    if id !in w.c.pending {
      assert AtComplete(w, id) == w;
    } else {
      TakenOneKeeps(w, id);
    }
  }

  /** complete on an entry that is there. */
  function OneTaken(w: World, id: Id): (v: World)
    requires id in w.c.pending && w.c.pending[id] < |w.calls|
  {
    var i := w.c.pending[id];
    var k := w.calls[i];
    w.(c := w.c.(pending := w.c.pending - {id}),
       calls := w.calls[i := k.(exits := k.exits + 1, inFlight := k.inFlight + 1)])
  }

  lemma TakenOneKeeps(w: World, id: Id)
    requires Inv(w) && id in w.c.pending
    ensures Inv(AtComplete(w, id))
  {
    hide StreamTable, Connection, Requests;
    assert w.c.pending[id] < |w.calls| && AtComplete(w, id) == OneTaken(w, id);
    hide AtComplete;
    OneTakenPending(w, id);
    Shrinks(w.c.pending, id);
    assert Current(OneTaken(w, id)) by { OneTakenCurrent(w, id); }
    assert Connection(OneTaken(w, id)) && Requests(OneTaken(w, id)) by { OneTakenFrame(w, id); }
  }

  lemma OneTakenPending(w: World, id: Id)
    requires Pending(w) && id in w.c.pending
    ensures Pending(OneTaken(w, id))
  {
    var v := OneTaken(w, id);
    assert Placed(w, w.c.pending[id]) && InTable(w, w.c.pending[id]);
    forall j | 0 <= j < |v.calls| ensures Placed(v, j) {
      assert Placed(w, j);
    }
  }

  lemma OneTakenCurrent(w: World, id: Id)
    requires Current(w) && id in w.c.pending && w.c.pending[id] < |w.calls|
    ensures Current(OneTaken(w, id))
  {
    var v := OneTaken(w, id);
    forall i: Id | InTable(v, i)
      ensures InTable(w, i) && v.calls[i].passed == w.calls[i].passed && v.calls[i].conn == w.calls[i].conn
    {
    }
  }

  lemma OneTakenFrame(w: World, id: Id)
    requires Connection(w) && Requests(w) && id in w.c.pending && w.c.pending[id] < |w.calls|
    ensures Connection(OneTaken(w, id)) && Requests(OneTaken(w, id))
  {
  }

  lemma CloseNextKeeps(w: World)
    requires Inv(w) && Enabled(w, CloseNext)
    ensures Inv(AtCloseNext(w))
  {
    var v := AtCloseNext(w);
    if w.closing.MustSweep? {
      var u := w.(c := w.c.(streams := map[], requests := map[]));
      forall i | 0 <= i < |u.calls| ensures Placed(u, i) { assert Placed(w, i); }
      assert Pending(u);
      TakenKeeps(u);
      forall i | 0 <= i < |v.calls| ensures Placed(v, i) { assert Placed(AllTaken(u).(loss := Unlocked), i); }
    } else {
      forall i | 0 <= i < |v.calls| ensures Placed(v, i) { assert Placed(w, i); }
    }
  }

  /** Steps that leave the calls and their table alone. */
  lemma PendingFrame(w: World, v: World)
    requires Pending(w) && v.calls == w.calls && v.c.pending == w.c.pending && v.c.nextID == w.c.nextID
    requires v.nextConn == w.nextConn && (v.loss == w.loss || v.loss.Unlocked?)
    requires v.closing.Closed? ==> w.closing.Closed? && v.c.streams == w.c.streams
    ensures Pending(v)
  {
    forall i | 0 <= i < |v.calls| ensures Placed(v, i) {
      assert Placed(w, i);
    }
  }

  /** Steps that leave calls and streams and their tables alone. */
  lemma InvFrame(w: World, v: World)
    requires Inv(w) && Connection(v) && Requests(v) && Current(v) && v.calls == w.calls
    requires v.c.pending == w.c.pending && v.c.streams == w.c.streams && v.c.nextID == w.c.nextID
    requires v.c.maxPending == w.c.maxPending && v.c.maxStreams == w.c.maxStreams
    requires v.nextConn == w.nextConn && v.nextStream == w.nextStream && (v.loss == w.loss || v.loss.Unlocked?)
    requires v.closing.Closed? ==> w.closing.Closed?
    ensures Inv(v)
  {
    hide StreamTable, Connection, Requests, Current, Pending;
    PendingFrame(w, v);
  }

  lemma TableKeeps(w: World, step: Step)
    requires Inv(w) && Enabled(w, step)
    requires step.BeginConnect? || step.FailConnect? || step.EndLoss? || step.Track? || step.Untrack? || step.Close?
    ensures Inv(Apply(w, step))
  {
    assert Connection(w) && Requests(w) && Current(w);
    hide Inv, Current, Requests, Connection, AtDeliver, AtPublish, AtLose, AtSweep, AtOpenCall, AtAddEntry,
         AtCheckCurrent, AtRemoveEntry, AtComplete, AtCloseNext;
    if step.Track? || step.Untrack? {
      TrackKeeps(w, step);
    } else {
      GateKeeps(w, step);
    }
    InvFrame(w, Apply(w, step));
  }

  lemma TrackKeeps(w: World, step: Step)
    requires Connection(w) && Requests(w) && Current(w) && Enabled(w, step) && (step.Track? || step.Untrack?)
    ensures var v := Apply(w, step); Connection(v) && Requests(v) && Current(v)
  {
    assert forall i: Id :: InTable(Apply(w, step), i) <==> InTable(w, i);
  }

  lemma GateKeeps(w: World, step: Step)
    requires Connection(w) && Requests(w) && Current(w) && Enabled(w, step)
    requires step.BeginConnect? || step.FailConnect? || step.EndLoss? || step.Close?
    ensures var v := Apply(w, step); Connection(v) && Requests(v) && Current(v)
  {
    assert forall i: Id :: InTable(Apply(w, step), i) <==> InTable(w, i);
  }

  /** A step on the stream table alone. */
  lemma StreamFrame(w: World, v: World)
    requires Inv(w) && v == w.(c := w.c.(streams := v.c.streams), nextStream := v.nextStream) && Streams(v)
    requires w.closing.Closed? ==> v.c.streams == w.c.streams
    ensures Inv(v)
  {
    hide StreamTable;
    PendingFrame(w, v);
    hide Pending;
  }

  lemma EnterKeeps(w: World, id: Id)
    requires Inv(w)
    ensures Inv(Apply(w, EnterStream(id)))
  {
    hide StreamTable, Requests, Pending, Current;
    if AddStream(w.c, id, w.nextStream).1 {
      StreamAdded(w.c.streams, id, w.nextStream, w.c.maxStreams);
    } else {
      StreamCreated(w.c.streams, w.nextStream, w.c.maxStreams);
    }
    StreamFrame(w, Apply(w, EnterStream(id)));
  }

  lemma LeaveKeeps(w: World, id: Id, stream: Id)
    requires Inv(w)
    ensures Inv(Apply(w, LeaveStream(id, stream)))
  {
    hide StreamTable, Connection, Requests, Current;
    StreamRemoved(w.c.streams, id, w.nextStream, w.c.maxStreams);
    StreamFrame(w, Apply(w, LeaveStream(id, stream)));
  }

  lemma StreamCreated(streams: map<Id, Id>, next: Id, max: nat)
    requires StreamTable(streams, next, max)
    ensures StreamTable(streams, next + 1, max)
  {
  }

  lemma StreamAdded(streams: map<Id, Id>, id: Id, next: Id, max: nat)
    requires StreamTable(streams, next, max) && id !in streams && (max > 0 ==> |streams| < max)
    ensures StreamTable(streams[id := next], next + 1, max)
  {
    KeyCount(streams);
    KeyCount(streams[id := next]);
    assert streams[id := next].Keys == streams.Keys + {id};
  }

  lemma StreamRemoved(streams: map<Id, Id>, id: Id, next: Id, max: nat)
    requires StreamTable(streams, next, max)
    ensures StreamTable(streams - {id}, next, max)
  {
    KeyCount(streams);
    KeyCount(streams - {id});
    assert (streams - {id}).Keys == streams.Keys - {id};
  }

  lemma Shrinks(m: map<Id, Id>, id: Id)
    ensures |m - {id}| <= |m|
  {
    KeyCount(m);
    KeyCount(m - {id});
    assert (m - {id}).Keys == m.Keys - {id};
  }

  lemma KeyCount(m: map<Id, Id>)
    ensures |m| == |m.Keys|
  {
  }

  lemma StepKeeps(w: World, step: Step)
    requires Inv(w) && Enabled(w, step)
    ensures Inv(Apply(w, step))
  {
    hide Inv, AtPublish, AtLose, AtSweep, AtDeliver, AtOpenCall, AtAddEntry, AtCheckCurrent, AtRemoveEntry, AtComplete,
         AtCloseNext, TrackRequest, UntrackRequest, AddStream, RemoveStream;
    match step
    case Publish => PublishKeeps(w);
    case Lose(conn, generation) => LoseKeeps(w, conn, generation);
    case NextSweep => SweepKeeps(w);
    case DeliverBatch(call) => DeliverKeeps(w, call);
    case OpenCall => OpenCallKeeps(w);
    case AddEntry(call) => AddKeeps(w, call);
    case CheckCurrent(call) => CheckKeeps(w, call);
    case RemoveEntry(call) => RemoveKeeps(w, call);
    case Complete(id) => CompleteKeeps(w, id);
    case Deliver(call) => DeliverKeeps(w, call);
    case CloseNext => CloseNextKeeps(w);
    case EnterStream(id) => EnterKeeps(w, id);
    case LeaveStream(id, stream) => LeaveKeeps(w, id, stream);
    case _ => TableKeeps(w, step);
  }

  predicate IsRun(w: World, steps: seq<Step>)
    decreases |steps|
  {
    steps == [] || (Enabled(w, steps[0]) && IsRun(Apply(w, steps[0]), steps[1..]))
  }

  function After(w: World, steps: seq<Step>): (v: World)
    requires IsRun(w, steps)
    decreases |steps|
  {
    if steps == [] then w else After(Apply(w, steps[0]), steps[1..])
  }

  lemma {:induction false} RunKeeps(w: World, steps: seq<Step>)
    requires Inv(w) && IsRun(w, steps)
    ensures Inv(After(w, steps))
    decreases |steps|
  {
    hide Inv, Apply, Enabled;
    if steps != [] {
      StepKeeps(w, steps[0]);
      RunKeeps(Apply(w, steps[0]), steps[1..]);
    }
  }

  lemma RunInv(maxPending: nat, maxStreams: nat, steps: seq<Step>)
    requires IsRun(NewWorld(maxPending, maxStreams), steps)
    ensures Inv(After(NewWorld(maxPending, maxStreams), steps))
  {
    assert Inv(NewWorld(maxPending, maxStreams));
    hide Inv, NewWorld;
    RunKeeps(NewWorld(maxPending, maxStreams), steps);
  }

  // ------------------------------------------------------- main results

  /** A call's entry is in the table or has left it exactly once, and its response is sent at
      most once, so the send into its one-slot channel finds the slot empty. */
  lemma EntryLeavesOnce(maxPending: nat, maxStreams: nat, steps: seq<Step>, i: Id)
    requires IsRun(NewWorld(maxPending, maxStreams), steps)
    requires i < |After(NewWorld(maxPending, maxStreams), steps).calls|
    ensures var w := After(NewWorld(maxPending, maxStreams), steps); var k := w.calls[i];
      && (k.added ==> k.exits == if InTable(w, i) then 0 else 1)
      && k.inFlight + k.slot <= 1 && (InTable(w, i) ==> k.inFlight == 0 && k.slot == 0)
      && (k.inFlight > 0 ==> k.slot == 0)
  {
    RunInv(maxPending, maxStreams, steps);
    assert Placed(After(NewWorld(maxPending, maxStreams), steps), i);
  }

  /** When a replacement connection is published no pending entry has passed its currency check
      on an earlier one; and while a connection is in use only its own entries have. */
  lemma NoStaleEntryAtPublish(maxPending: nat, maxStreams: nat, steps: seq<Step>, i: Id)
    requires IsRun(NewWorld(maxPending, maxStreams), steps)
    requires var w := After(NewWorld(maxPending, maxStreams), steps);
      w.loss.Unlocked? && !w.c.closed && InTable(w, i) && w.calls[i].passed
    ensures var w := After(NewWorld(maxPending, maxStreams), steps);
      w.c.conn == Some(w.calls[i].conn) && !Enabled(w, Publish)
  {
    RunInv(maxPending, maxStreams, steps);
  }

  /** Until close, whenever connMu is free every tracked request belongs to the generation in
      use, and the readiness channel is closed, once, exactly while a connection is published. */
  lemma TablesFollowConnection(maxPending: nat, maxStreams: nat, steps: seq<Step>)
    requires IsRun(NewWorld(maxPending, maxStreams), steps)
    ensures var w := After(NewWorld(maxPending, maxStreams), steps);
      && w.c.readyCloses <= 1
      && (!w.c.closed ==> (w.c.readyCloses == 1 <==> w.c.conn.Some?))
      && (!w.c.closed && w.loss.Unlocked? ==>
            forall id | id in w.c.requests :: w.c.conn.Some? && w.c.requests[id].generation == w.c.generation)
  {
    RunInv(maxPending, maxStreams, steps);
  }

  lemma InvIsOrderly(w: World)
    requires Inv(w)
    ensures Orderly(w.c)
  {
    hide Connection, Requests, Current;
    forall id | id in w.c.pending ensures id % 2 == 1 && id < w.c.nextID {
      assert Placed(w, w.c.pending[id]);
    }
  }

  lemma InvIsConsistent(w: World)
    requires Inv(w) && w.loss.Unlocked?
    ensures Consistent(w.c)
  {
    hide Pending, Current, StreamTable;
  }

  /** In every run the tables are in order at any time, and the fields agree with each other
      whenever connMu is free. */
  lemma FieldsAreConsistent(maxPending: nat, maxStreams: nat, steps: seq<Step>)
    requires IsRun(NewWorld(maxPending, maxStreams), steps)
    ensures var w := After(NewWorld(maxPending, maxStreams), steps);
      Orderly(w.c) && (w.loss.Unlocked? ==> Consistent(w.c))
  {
    hide Inv, Orderly, Consistent;
    RunInv(maxPending, maxStreams, steps);
    var w := After(NewWorld(maxPending, maxStreams), steps);
    InvIsOrderly(w);
    if w.loss.Unlocked? { InvIsConsistent(w); }
  }

  /** Once close has swept the tables no call and no stream is left, and none is admitted. */
  lemma ClosedTableIsEmpty(maxPending: nat, maxStreams: nat, steps: seq<Step>)
    requires IsRun(NewWorld(maxPending, maxStreams), steps)
    requires After(NewWorld(maxPending, maxStreams), steps).closing.Closed?
    ensures var w := After(NewWorld(maxPending, maxStreams), steps);
      && w.c.pending == map[] && w.c.streams == map[]
      && forall id, call :: !AddPending(w.c, id, call).1 && !AddStream(w.c, id, call).1
  {
    RunInv(maxPending, maxStreams, steps);
  }

  // ------------------------------------------------------- cleanup spares newer entries

  /** The connection of this generation was published once and is not, or no longer, in use. */
  predicate Past(w: World, generation: nat)
  {
    0 < generation < w.nextConn && (w.c.conn.Some? ==> w.c.conn.value > generation)
  }

  lemma PastStep(w: World, step: Step, generation: nat)
    requires Past(w, generation) && Enabled(w, step)
    ensures Past(Apply(w, step), generation)
  {
  }

  /** No run brings a past generation back. */
  lemma {:induction false} PastStays(w: World, steps: seq<Step>, generation: nat)
    requires Past(w, generation) && IsRun(w, steps)
    ensures Past(After(w, steps), generation)
    decreases |steps|
  {
    hide Past, Apply, Enabled;
    if steps != [] {
      PastStep(w, steps[0], generation);
      PastStays(Apply(w, steps[0]), steps[1..], generation);
    }
  }

  lemma {:induction false} RunsCompose(w: World, first: seq<Step>, second: seq<Step>)
    requires IsRun(w, first) && IsRun(After(w, first), second)
    ensures IsRun(w, first + second) && After(w, first + second) == After(After(w, first), second)
    decreases |first|
  {
    hide Enabled, Apply;
    if first == [] {
      assert first + second == second;
    } else {
      RunsCompose(Apply(w, first[0]), first[1..], second);
      assert (first + second)[1..] == first[1..] + second;
    }
  }

  /** Whenever a handler of a connection that has been lost gets round to its cleanup, in whatever
      state the client then is, it changes nothing; and until close every request tracked by then
      is a newer one. */
  lemma UntrackSparesNewer(maxPending: nat, maxStreams: nat, before: seq<Step>, later: seq<Step>, generation: nat,
                           id: Id)
    requires IsRun(NewWorld(maxPending, maxStreams), before)
    requires Past(After(NewWorld(maxPending, maxStreams), before), generation)
    requires IsRun(After(NewWorld(maxPending, maxStreams), before), later)
    requires Enabled(After(After(NewWorld(maxPending, maxStreams), before), later), Untrack(generation, generation, id))
    ensures var w := After(After(NewWorld(maxPending, maxStreams), before), later);
      && Apply(w, Untrack(generation, generation, id)) == w
      && (!w.c.closed ==> forall other | other in w.c.requests :: w.c.requests[other].generation > generation)
  {
    var start := NewWorld(maxPending, maxStreams);
    hide NewWorld;
    RunsCompose(start, before, later);
    RunInv(maxPending, maxStreams, before + later);
    PastStays(After(start, before), later, generation);
  }

  /** Which cleanup removes a tracked request, in every state of every run: that of its own
      generation while its connection is in use, under its own ID, and no other. */
  lemma UntrackIsExact(maxPending: nat, maxStreams: nat, steps: seq<Step>, conn: Id, generation: nat, id: Id, other: Id)
    requires IsRun(NewWorld(maxPending, maxStreams), steps)
    requires var w := After(NewWorld(maxPending, maxStreams), steps);
      Enabled(w, Untrack(conn, generation, id)) && other in w.c.requests
    ensures var w := After(NewWorld(maxPending, maxStreams), steps); var v := Apply(w, Untrack(conn, generation, id));
      && (other !in v.c.requests <==>
            other == id && w.c.conn == Some(conn) && w.c.requests[other].generation == generation)
      && (other in v.c.requests ==> v.c.requests[other] == w.c.requests[other])
  {
    RunInv(maxPending, maxStreams, steps);
  }

  /** A loss of the connection in use is acted on, with its generation or with 0, and any other
      changes nothing. */
  lemma LossStarts(maxPending: nat, maxStreams: nat, steps: seq<Step>, conn: Id, generation: nat)
    requires IsRun(NewWorld(maxPending, maxStreams), steps)
    requires Enabled(After(NewWorld(maxPending, maxStreams), steps), Lose(conn, generation))
    ensures var w := After(NewWorld(maxPending, maxStreams), steps); var v := Apply(w, Lose(conn, generation));
      if w.c.conn == Some(conn) && generation in {0, w.c.generation}
      then v.loss == SweepStreams(conn) && v.c.conn.None? && v.c.generation == 0 && v.c.readyCloses == 0
      else v == w
  {
    RunInv(maxPending, maxStreams, steps);
  }

  /** A call gets its entry exactly when the client is open and the table has room. */
  lemma CallIsAdmitted(maxPending: nat, maxStreams: nat, steps: seq<Step>, call: Id)
    requires IsRun(NewWorld(maxPending, maxStreams), steps)
    requires Enabled(After(NewWorld(maxPending, maxStreams), steps), AddEntry(call))
    ensures var w := After(NewWorld(maxPending, maxStreams), steps); var v := Apply(w, AddEntry(call));
      if !w.c.closed && (w.c.maxPending == 0 || |w.c.pending| < w.c.maxPending)
      then v.calls[call].added && InTable(v, call)
      else v == w
  {
  }

  /** Completing a pending call takes it out and puts its response into the empty slot. */
  lemma CompletedCallIsDelivered(maxPending: nat, maxStreams: nat, steps: seq<Step>, i: Id)
    requires IsRun(NewWorld(maxPending, maxStreams), steps)
    requires var w := After(NewWorld(maxPending, maxStreams), steps); InTable(w, i) && !w.loss.Delivering?
    ensures var w := After(NewWorld(maxPending, maxStreams), steps); var v := Apply(w, Complete(w.calls[i].id));
      && !InTable(v, i) && w.calls[i].slot == 0
      && Enabled(v, Deliver(i)) && Apply(v, Deliver(i)).calls[i].slot == 1
  {
    RunInv(maxPending, maxStreams, steps);
    assert Placed(After(NewWorld(maxPending, maxStreams), steps), i);
  }

  /** An open client without a connection can connect, and publishing makes it ready on a
      generation that was never used before. */
  lemma PublishConnects(maxPending: nat, maxStreams: nat, steps: seq<Step>)
    requires IsRun(NewWorld(maxPending, maxStreams), steps)
    requires var w := After(NewWorld(maxPending, maxStreams), steps);
      w.loss.Unlocked? && !w.c.closed && w.c.conn.None?
    ensures var w := After(NewWorld(maxPending, maxStreams), steps);
      var u := if w.dialing then w else Apply(w, BeginConnect);
      && (!w.dialing ==> Enabled(w, BeginConnect)) && Enabled(u, Publish)
      && var v := Apply(u, Publish);
         v.c.conn == Some(w.nextConn) && v.c.generation == w.nextConn && v.c.readyCloses == 1 && v.nextConn > w.nextConn
  {
    RunInv(maxPending, maxStreams, steps);
  }

  /** A call's write passes its currency check exactly when the call's connection is in use. */
  lemma CurrentCallPasses(maxPending: nat, maxStreams: nat, steps: seq<Step>, call: Id)
    requires IsRun(NewWorld(maxPending, maxStreams), steps)
    requires Enabled(After(NewWorld(maxPending, maxStreams), steps), CheckCurrent(call))
    ensures var w := After(NewWorld(maxPending, maxStreams), steps); var v := Apply(w, CheckCurrent(call));
      v.calls[call].passed <==> w.calls[call].passed || w.c.conn == Some(w.calls[call].conn)
  {
  }

  /** A connection that is lost is past from then on. */
  lemma LostIsPast(maxPending: nat, maxStreams: nat, steps: seq<Step>, conn: Id, generation: nat)
    requires IsRun(NewWorld(maxPending, maxStreams), steps)
    requires var w := After(NewWorld(maxPending, maxStreams), steps);
      Enabled(w, Lose(conn, generation)) && IsCurrent(w.c, conn, generation)
    ensures var w := After(NewWorld(maxPending, maxStreams), steps);
      Past(Apply(w, Lose(conn, generation)), w.c.generation)
  {
    RunInv(maxPending, maxStreams, steps);
  }

  /** The stream was created and is not in the table. */
  predicate Gone(w: World, stream: Id)
  {
    stream < w.nextStream && forall id | id in w.c.streams :: w.c.streams[id] != stream
  }

  lemma GoneStep(w: World, step: Step, stream: Id)
    requires Gone(w, stream) && Enabled(w, step)
    ensures Gone(Apply(w, step), stream)
  {
  }

  lemma {:induction false} GoneStays(w: World, steps: seq<Step>, stream: Id)
    requires Gone(w, stream) && IsRun(w, steps)
    ensures Gone(After(w, steps), stream)
    decreases |steps|
  {
    hide Gone, Apply, Enabled;
    if steps != [] {
      GoneStep(w, steps[0], stream);
      GoneStays(Apply(w, steps[0]), steps[1..], stream);
    }
  }

  /** Whenever a stream that has left the table, swept by a loss or by itself, gets round to its
      cleanup it changes nothing, whoever has taken its ID. A stream still in the table takes out
      its own entry and no other. */
  lemma RemoveStreamSparesNewer(maxPending: nat, maxStreams: nat, before: seq<Step>, later: seq<Step>, id: Id,
                                stream: Id)
    requires IsRun(NewWorld(maxPending, maxStreams), before)
    requires IsRun(After(NewWorld(maxPending, maxStreams), before), later)
    ensures var u := After(NewWorld(maxPending, maxStreams), before); var w := After(u, later);
      var v := Apply(w, LeaveStream(id, stream));
      && (Gone(u, stream) ==> v == w)
      && (forall other | other in w.c.streams && w.c.streams[other] != stream ::
            other in v.c.streams && v.c.streams[other] == w.c.streams[other])
      && (id in w.c.streams && w.c.streams[id] == stream ==> Gone(v, stream))
  {
    var start := NewWorld(maxPending, maxStreams);
    hide NewWorld;
    RunsCompose(start, before, later);
    RunInv(maxPending, maxStreams, before + later);
    var u := After(start, before);
    if Gone(u, stream) { GoneStays(u, later, stream); }
  }

  // ------------------------------------------------------- connection loss ends

  /** The steps of the goroutine that holds connMu after a loss. */
  predicate LossStep(step: Step)
  {
    step.NextSweep? || step.DeliverBatch? || step.EndLoss?
  }

  function LossPhase(w: World): (n: nat)
  {
    match w.loss
    case SweepStreams(_) => 4
    case SweepRequests(_) => 3
    case SweepPending(_) => 2
    case Delivering(_) => 1
    case Unlocked => 0
  }

  function LossBatch(w: World): (n: nat)
  {
    if w.loss.Delivering? then |w.loss.batch| else 0
  }

  /** Each of its steps gets it further, and nobody else's step sets it back. */
  lemma LossStepLowers(w: World, step: Step)
    requires Inv(w) && !w.loss.Unlocked? && Enabled(w, step)
    ensures LossStep(step) ==>
      var v := Apply(w, step);
      LossPhase(v) < LossPhase(w) || (LossPhase(v) == LossPhase(w) && LossBatch(v) < LossBatch(w))
    ensures !LossStep(step) ==> Apply(w, step).loss == w.loss
  {
  }

  /** It always has a step to take, and its deliveries find an empty slot. */
  lemma LossNeverBlocks(w: World) returns (step: Step)
    requires Inv(w) && !w.loss.Unlocked?
    ensures LossStep(step) && Enabled(w, step)
    ensures w.loss.Delivering? ==> forall i | i in w.loss.batch :: Enabled(w, DeliverBatch(i)) && w.calls[i].slot == 0
  {
    if w.loss.Delivering? {
      forall i | i in w.loss.batch ensures w.calls[i].slot == 0 {
        assert Placed(w, i);
      }
      if w.loss.batch == {} {
        step := EndLoss;
      } else {
        var i :| i in w.loss.batch;
        step := DeliverBatch(i);
      }
    } else {
      step := NextSweep;
    }
  }

  predicate AllLossSteps(steps: seq<Step>)
  {
    forall i | 0 <= i < |steps| :: LossStep(steps[i])
  }

  /** From every state in which it holds the lock, its own steps alone release it. */
  lemma {:induction false} LockIsReleased(w: World) returns (steps: seq<Step>)
    requires Inv(w)
    ensures IsRun(w, steps) && AllLossSteps(steps) && After(w, steps).loss.Unlocked?
    decreases LossPhase(w), LossBatch(w)
  {
    hide Inv, Apply, Enabled;
    if w.loss.Unlocked? {
      steps := [];
    } else {
      var step := LossNeverBlocks(w);
      StepKeeps(w, step);
      LossStepLowers(w, step);
      var rest := LockIsReleased(Apply(w, step));
      steps := [step] + rest;
      assert steps[1..] == rest;
    }
  }

  /** So in every run a lost connection ends up with connMu free and every swept call answered. */
  lemma LossEnds(maxPending: nat, maxStreams: nat, steps: seq<Step>) returns (more: seq<Step>)
    requires IsRun(NewWorld(maxPending, maxStreams), steps)
    ensures var w := After(NewWorld(maxPending, maxStreams), steps);
      && IsRun(w, more) && AllLossSteps(more) && After(w, more).loss.Unlocked?
      && |After(w, more).calls| == |w.calls|
      && (w.loss.Delivering? ==> forall i | i in w.loss.batch :: i < |w.calls| && After(w, more).calls[i].slot == 1)
      && (Sweeping(w) ==> forall i: Id | InTable(w, i) :: After(w, more).calls[i].slot == 1)
      && (Sweeping(w) ==> After(w, more).c.pending == map[])
      && (w.loss.SweepStreams? ==> After(w, more).c.streams == map[] && After(w, more).c.requests == map[])
  {
    RunInv(maxPending, maxStreams, steps);
    var w := After(NewWorld(maxPending, maxStreams), steps);
    hide NewWorld, Apply, Enabled;
    more := LockIsReleased(w);
    if w.loss.Delivering? {
      BatchIsAnswered(w, more);
    } else if Sweeping(w) {
      TableIsAnswered(w, more);
    } else {
      NoLossStepUnlocked(w, more);
    }
  }

  /** A loss has not yet taken the pending calls. */
  predicate Sweeping(w: World)
  {
    w.loss.SweepStreams? || w.loss.SweepRequests? || w.loss.SweepPending?
  }

  lemma NoLossStepUnlocked(w: World, steps: seq<Step>)
    requires w.loss.Unlocked? && IsRun(w, steps) && AllLossSteps(steps)
    ensures steps == []
  {
  }

  /** Steps of the loss alone answer each call that is in the table when they begin. */
  lemma {:induction false} TableIsAnswered(w: World, steps: seq<Step>)
    requires Inv(w) && Sweeping(w) && IsRun(w, steps) && AllLossSteps(steps) && After(w, steps).loss.Unlocked?
    ensures |After(w, steps).calls| == |w.calls|
    ensures forall i: Id | InTable(w, i) :: After(w, steps).calls[i].slot == 1
    ensures After(w, steps).c.pending == map[]
    ensures After(w, steps).c.streams == if w.loss.SweepStreams? then map[] else w.c.streams
    ensures After(w, steps).c.requests == if w.loss.SweepPending? then w.c.requests else map[]
    decreases |steps|
  {
    hide Inv;
    assert LossStep(steps[0]);
    var v := Apply(w, steps[0]);
    StepKeeps(w, steps[0]);
    assert forall i | 0 <= i < |steps[1..]| :: steps[1..][i] == steps[i + 1];
    if w.loss.SweepPending? {
      BatchIsAnswered(v, steps[1..]);
      forall i: Id | InTable(w, i) ensures After(w, steps).calls[i].slot == 1 {
        assert w.c.pending[w.calls[i].id] in w.c.pending.Values;
      }
    } else {
      TableIsAnswered(v, steps[1..]);
      assert forall i: Id | InTable(w, i) :: InTable(v, i);
    }
  }

  /** Steps of the loss alone answer each call of its batch before the lock is free. */
  lemma {:induction false} BatchIsAnswered(w: World, steps: seq<Step>)
    requires Inv(w) && w.loss.Delivering? && IsRun(w, steps) && AllLossSteps(steps) && After(w, steps).loss.Unlocked?
    ensures |After(w, steps).calls| == |w.calls|
    ensures forall i | i in w.loss.batch :: i < |w.calls| && After(w, steps).calls[i].slot == 1
    ensures forall i | 0 <= i < |w.calls| && i !in w.loss.batch :: After(w, steps).calls[i] == w.calls[i]
    ensures After(w, steps).c == w.c
    decreases |steps|
  {
    hide StreamTable, Current, Requests, Connection,
         AtPublish, AtLose, AtSweep, AtOpenCall, AtAddEntry, AtCheckCurrent, AtRemoveEntry, AtComplete, AtCloseNext;
    var v := Apply(w, steps[0]);
    StepKeeps(w, steps[0]);
    assert forall i | 0 <= i < |steps[1..]| :: steps[1..][i] == steps[i + 1];
    if !steps[0].EndLoss? {
      BatchIsAnswered(v, steps[1..]);
      assert Placed(w, steps[0].call);
    }
  }
}
