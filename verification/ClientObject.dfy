/**
 The Client object: its maps and connection fields updated in place. Each method keeps the
 fields consistent, does to them what its critical section says, and states what that means
 for the entries of the tables.
 */
module ClientObject {
  import opened Bytes
  import T = ClientTables

  class Client {
    var conn: Option<T.Id>
    var connectionGeneration: nat
    var readyClosed: bool
    var closed: bool
    var pending: map<T.Id, T.Id>
    var requests: map<T.Id, T.Tracked>
    var streams: map<T.Id, T.Id>
    var nextID: nat
    const maxPendingCalls: nat
    const maxActiveStreams: nat

    ghost function State(): (c: T.Client)
      reads this
    {
      T.Client(conn, connectionGeneration, if readyClosed then 1 else 0, closed, pending, requests, streams,
               nextID, maxPendingCalls, maxActiveStreams)
    }

    /** What holds at any time, also while a loss is sweeping under connMu. */
    ghost predicate Orderly()
      reads this
    {
      T.Orderly(State())
    }

    /** What holds whenever connMu is free. */
    ghost predicate Valid()
      reads this
    {
      T.Consistent(State()) && Orderly()
    }

    constructor (maxPendingCalls: nat, maxActiveStreams: nat)
      ensures Valid() && State() == T.NewWorld(maxPendingCalls, maxActiveStreams).c
    {
      conn, connectionGeneration, readyClosed, closed := None, 0, false, false;
      pending, requests, streams, nextID := map[], map[], map[], 0;
      this.maxPendingCalls, this.maxActiveStreams := maxPendingCalls, maxActiveStreams;
    }

    /** setConn runs under the connect gate, which found no connection; so the readiness channel
        is open, and no request of an earlier connection is still tracked. */
    method SetConn(newConn: T.Id, generation: nat) returns (ok: bool)
      requires Valid() && generation > 0 && (!closed ==> conn.None?)
      modifies this`conn, this`connectionGeneration, this`readyClosed
      ensures Valid()
      ensures ok <==> !closed
      ensures ok ==> conn == Some(newConn) && connectionGeneration == generation && readyClosed && requests == map[]
      ensures !ok ==> State() == old(State())
      ensures State() == T.SetConn(old(State()), newConn, generation)
    {
      if closed { return false; }
      conn, connectionGeneration := Some(newConn), generation;
      assert !readyClosed;
      readyClosed := true;
      return true;
    }

    /** An ID that no pending call has and none before it had. */
    method NextRequestID() returns (id: T.Id)
      requires Orderly()
      modifies this`nextID
      ensures Orderly() && (old(Valid()) ==> Valid())
      ensures id % 2 == 1 && id == old(nextID) + 1 && nextID == id + 1 && id !in pending
      ensures (State(), id) == T.NextRequestID(old(State()))
    {
      nextID := nextID + 2;
      id := nextID - 1;
    }

    /** addPending, by the caller that was handed the ID. */
    method AddPending(id: T.Id, call: T.Id) returns (ok: bool)
      requires Orderly() && id % 2 == 1 && id < nextID && id !in pending
      modifies this`pending
      ensures Orderly() && (old(Valid()) ==> Valid())
      ensures ok <==> !closed && (maxPendingCalls == 0 || |old(pending)| < maxPendingCalls)
      ensures ok ==> id in pending && pending[id] == call && pending - {id} == old(pending)
      ensures !ok ==> pending == old(pending)
      ensures (State(), ok) == T.AddPending(old(State()), id, call)
    {
      if closed { return false; }
      if maxPendingCalls > 0 && |pending| >= maxPendingCalls { return false; }
      Grows(pending, id, call);
      pending := pending[id := call];
      return true;
    }

    method RemovePending(id: T.Id)
      requires Orderly()
      modifies this`pending
      ensures Orderly() && (old(Valid()) ==> Valid())
      ensures id !in pending
      ensures forall other | other in old(pending) && other != id ::
        other in pending && pending[other] == old(pending)[other]
      ensures State() == T.RemovePending(old(State()), id)
    {
      T.Shrinks(pending, id);
      pending := pending - {id};
    }

    /** complete; the call handed back is sent its response outside the lock. Whoever takes an
        entry first is the only one to get it. */
    method Complete(id: T.Id) returns (call: Option<T.Id>)
      requires Orderly()
      modifies this`pending
      ensures Orderly() && (old(Valid()) ==> Valid())
      ensures call.Some? <==> id in old(pending)
      ensures id !in pending && old(pending) == if call.Some? then pending[id := call.value] else pending
      ensures (State(), call) == T.TakePending(old(State()), id)
    {
      if id !in pending { return None; }
      T.Shrinks(pending, id);
      call := Some(pending[id]);
      pending := pending - {id};
    }

    /** failPending's first loop: every entry moves, once, from the table to the result. */
    method TakeAllPending() returns (taken: map<T.Id, T.Id>)
      modifies this`pending
      ensures taken == old(pending) && State() == old(State()).(pending := map[])
    {
      taken := map[];
      var left := pending.Keys;
      while left != {}
        invariant left <= old(pending).Keys
        invariant pending.Keys == left && taken.Keys == old(pending).Keys - left
        invariant forall id | id in pending :: pending[id] == old(pending)[id]
        invariant forall id | id in taken :: taken[id] == old(pending)[id]
        decreases left
      {
        var id :| id in left;
        taken := taken[id := pending[id]];
        pending := pending - {id};
        left := left - {id};
      }
    }

    /** failStreams' first loop: every stream moves, once, from the table to the result. */
    method TakeAllStreams() returns (taken: set<T.Id>)
      modifies this`streams
      ensures taken == old(streams).Values && State() == old(State()).(streams := map[])
    {
      taken := {};
      var left := streams.Keys;
      while left != {}
        invariant left <= old(streams).Keys && streams.Keys == left
        invariant forall id | id in streams :: streams[id] == old(streams)[id]
        invariant forall id | id in old(streams) && id !in left :: old(streams)[id] in taken
        invariant taken <= old(streams).Values
        decreases left
      {
        var id :| id in left;
        taken := taken + {streams[id]};
        streams := streams - {id};
        left := left - {id};
      }
    }

    /** trackRequest: only for the connection in use, so what is tracked follows the connection. */
    method TrackRequest(on: T.Id, generation: nat, id: T.Id, handler: T.Id) returns (ok: bool)
      requires Valid()
      modifies this`requests
      ensures Valid()
      ensures ok <==> !closed && conn == Some(on) && connectionGeneration == generation
      ensures ok ==> requests == old(requests)[id := T.Tracked(connectionGeneration, handler)]
      ensures !ok ==> requests == old(requests)
      ensures (State(), ok) == T.TrackRequest(old(State()), on, generation, id, handler)
    {
      if conn != Some(on) || connectionGeneration != generation { return false; }
      if closed { return false; }
      requests := requests[id := T.Tracked(generation, handler)];
      return true;
    }

    /** untrackRequest: until close an entry leaves exactly when it is the handler's own ID, tracked
        for the handler's own generation, on the connection in use. */
    method UntrackRequest(on: T.Id, generation: nat, id: T.Id)
      requires Valid()
      modifies this`requests
      ensures Valid()
      ensures !closed ==> forall other | other in old(requests) ::
        other !in requests <==> other == id && conn == Some(on) && old(requests)[other].generation == generation
      ensures forall other | other in requests :: other in old(requests) && requests[other] == old(requests)[other]
      ensures State() == T.UntrackRequest(old(State()), on, generation, id)
    {
      if conn != Some(on) || connectionGeneration != generation { return; }
      requests := requests - {id};
    }

    /** addStream: refused by a closed client, at the limit, and for an ID in use, which keeps its
        stream. */
    method AddStream(id: T.Id, stream: T.Id) returns (ok: bool)
      requires Orderly()
      modifies this`streams
      ensures Orderly() && (old(Valid()) ==> Valid())
      ensures ok <==> !closed && (maxActiveStreams == 0 || |old(streams)| < maxActiveStreams) && id !in old(streams)
      ensures ok ==> id in streams && streams[id] == stream && streams - {id} == old(streams)
      ensures !ok ==> streams == old(streams)
      ensures (State(), ok) == T.AddStream(old(State()), id, stream)
    {
      if closed { return false; }
      if maxActiveStreams > 0 && |streams| >= maxActiveStreams { return false; }
      if id in streams { return false; }
      Grows(streams, id, stream);
      streams := streams[id := stream];
      return true;
    }

    /** removeStream: afterwards the ID is not the stream's, and every other stream is in place. */
    method RemoveStream(id: T.Id, stream: T.Id)
      requires Orderly()
      modifies this`streams
      ensures Orderly() && (old(Valid()) ==> Valid())
      ensures id in streams ==> streams[id] != stream
      ensures forall other | other in old(streams) && old(streams)[other] != stream ::
        other in streams && streams[other] == old(streams)[other]
      ensures State() == T.RemoveStream(old(State()), id, stream)
    {
      T.Shrinks(streams, id);
      if id in streams && streams[id] == stream { streams := streams - {id}; }
    }

    /** connectionLostGeneration: everything it does while holding connMu. It acts for the connection
        in use alone, whose generation it is told or, with 0, is not. The results are the streams to
        fail and the calls to answer. */
    method ConnectionLost(lost: T.Id, generation: nat) returns (failed: set<T.Id>, taken: map<T.Id, T.Id>)
      requires Valid()
      modifies this`conn, this`connectionGeneration, this`readyClosed, this`pending, this`requests, this`streams
      ensures Valid()
      ensures old(conn) == Some(lost) && (generation == 0 || generation == old(connectionGeneration)) ==>
        && conn.None? && connectionGeneration == 0 && !readyClosed
        && pending == map[] && streams == map[] && requests == map[]
        && failed == old(streams).Values && taken == old(pending)
      ensures !(old(conn) == Some(lost) && (generation == 0 || generation == old(connectionGeneration))) ==>
        State() == old(State()) && failed == {} && taken == map[]
      ensures T.LoseConn(old(State()), lost, generation).1 <==>
        old(conn) == Some(lost) && (generation == 0 || generation == old(connectionGeneration))
      ensures T.LoseConn(old(State()), lost, generation).1 ==>
        State() == T.LoseConn(old(State()), lost, generation).0.(streams := map[], requests := map[], pending := map[])
    {
      if conn != Some(lost) || (generation != 0 && connectionGeneration != generation) { return {}, map[]; }
      conn, connectionGeneration, readyClosed := None, 0, false;
      failed := TakeAllStreams();
      requests := map[];
      taken := TakeAllPending();
    }

    /** closeWithError's connMu section, once the client is marked closed: the readiness channel is
        closed, unless it already was, to release everyone who waits for a connection. */
    method CloseConn()
      requires Valid() && closed
      modifies this`conn, this`connectionGeneration, this`readyClosed
      ensures Valid()
      ensures conn.None? && connectionGeneration == 0 && readyClosed
      ensures State() == T.CloseConn(old(State()))
    {
      conn, connectionGeneration := None, 0;
      if !readyClosed { readyClosed := true; }
    }

    /** closeWithError as its caller sees it: the first call closes, drops the connection, hands
        over every stream and every call, and leaves nothing behind; later calls do nothing. */
    method CloseWithError() returns (failed: set<T.Id>, taken: map<T.Id, T.Id>)
      requires Valid()
      modifies this`closed, this`conn, this`connectionGeneration, this`readyClosed,
               this`pending, this`requests, this`streams
      ensures Valid() && closed
      ensures !old(closed) ==>
        && conn.None? && readyClosed && pending == map[] && streams == map[] && requests == map[]
        && failed == old(streams).Values && taken == old(pending)
      ensures old(closed) ==> State() == old(State()) && failed == {} && taken == map[]
    {
      if closed { return {}, map[]; }
      closed := true;
      CloseConn();
      failed := TakeAllStreams();
      requests := map[];
      taken := TakeAllPending();
    }
  }

  lemma Grows(m: map<T.Id, T.Id>, id: T.Id, value: T.Id)
    requires id !in m
    ensures |m[id := value]| == |m| + 1 && m[id := value] - {id} == m
  {
    T.KeyCount(m);
    T.KeyCount(m[id := value]);
    assert m[id := value].Keys == m.Keys + {id};
  }
}
