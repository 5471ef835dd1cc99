/**
 The Peer object: its methods update the fields in place under the lock, each proved
 against its critical section, and the channels they close are never closed twice.
 */
module PeerObject {
  import opened Bytes
  import P = PeerState

  class Peer {
    var active: Option<P.Link>
    var readyClosed: bool
    var dialConfig: Option<string>
    var dialing: bool
    var dialCancel: Option<P.Id>
    var dialDone: Option<P.Id>
    var lastDialErr: Option<P.Error>
    var leases: nat
    var closed: bool

    ghost function State(): (p: P.Peer)
      reads this
    {
      P.Peer(active, if readyClosed then 1 else 0, dialConfig, dialing, dialCancel, dialDone,
             lastDialErr, leases, closed)
    }

    ghost predicate Valid()
      reads this
    {
      P.Coherent(State())
    }

    constructor ()
      ensures Valid() && State() == P.NEW_PEER
    {
      active, readyClosed, dialConfig, dialing := None, false, None, false;
      dialCancel, dialDone, lastDialErr, leases, closed := None, None, None, 0, false;
    }

    method Acquire(config: string) returns (err: Option<P.Error>)
      requires Valid()
      modifies this`dialConfig, this`leases, this`lastDialErr
      ensures Valid()
      ensures err == Some(P.ErrClosed) <==> closed
      ensures err == Some(P.ErrPeerConfiguration) <==>
        !closed && old(leases) > 0 && old(dialConfig).Some? && old(dialConfig).value != config
      ensures err.None? ==> leases == old(leases) + 1 && dialConfig == Some(config) && lastDialErr.None?
      ensures err.None? || err == Some(P.ErrClosed) || err == Some(P.ErrPeerConfiguration)
      ensures err.Some? ==> State() == old(State())
      ensures (State(), err) == P.Acquire(old(State()), config)
    {
      if closed { return Some(P.ErrClosed); }
      if dialConfig.Some? && dialConfig.value != config {
        if leases > 0 { return Some(P.ErrPeerConfiguration); }
        dialConfig := Some(config);
      }
      if dialConfig.None? { dialConfig := Some(config); }
      leases := leases + 1;
      lastDialErr := None;
      return None;
    }

    method Release() returns (cancel: Option<P.Id>, closeClient: Option<P.Id>)
      requires Valid()
      modifies this`leases, this`active, this`readyClosed
      ensures Valid()
      ensures leases == if old(leases) > 0 then old(leases) - 1 else 0
      ensures cancel == if leases == 0 then dialCancel else None
      ensures closeClient.Some? <==> leases == 0 && old(active).Some? && old(active).value.Outbound?
      ensures closeClient.Some? ==>
        old(active) == Some(P.Outbound(closeClient.value)) && active.None? && !readyClosed
      ensures closeClient.None? ==> active == old(active) && readyClosed == old(readyClosed)
      ensures (State(), cancel, closeClient) == P.Release(old(State()))
    {
      cancel, closeClient := None, None;
      if leases > 0 { leases := leases - 1; }
      if leases == 0 {
        cancel := dialCancel;
        if active.Some? && active.value.Outbound? {
          closeClient := Some(active.value.client);
          active, readyClosed := None, false;
        }
      }
    }

    method EnsureDial(dial: P.Id) returns (started: bool)
      requires Valid()
      modifies this`dialing, this`dialCancel, this`dialDone, this`lastDialErr
      ensures Valid()
      ensures started <==> !closed && leases > 0 && dialConfig.Some? && active.None? && !old(dialing)
      ensures started ==> dialing && dialCancel == dialDone == Some(dial) && lastDialErr.None?
      ensures !started ==> State() == old(State())
      ensures (State(), started) == P.EnsureDial(old(State()), dial)
    {
      if closed || leases == 0 || dialConfig.None? || active.Some? || dialing { return false; }
      dialing, dialCancel, dialDone, lastDialErr := true, Some(dial), Some(dial), None;
      return true;
    }

    /** The critical section at the end of runDial. */
    method EndDial(dial: P.Id, err: Option<P.Error>) returns (keepClient: bool)
      requires Valid()
      modifies this`active, this`readyClosed, this`dialing, this`dialCancel, this`dialDone, this`lastDialErr
      ensures Valid()
      ensures keepClient <==>
        old(dialDone) == Some(dial) && err.None? && !closed && leases > 0 && old(active).None?
      ensures keepClient ==> active == Some(P.Outbound(dial)) && readyClosed && lastDialErr.None?
      ensures !keepClient ==> active == old(active) && readyClosed == old(readyClosed)
      ensures old(dialDone) == Some(dial) ==> !dialing && dialCancel.None? && dialDone.None?
      ensures old(dialDone) != Some(dial) ==> State() == old(State())
      ensures old(dialDone) == Some(dial) && !keepClient ==>
        lastDialErr == if err.Some? && P.Reported(err.value).Some? then err else old(lastDialErr)
      ensures (State(), keepClient) == P.EndDial(old(State()), dial, err)
    {
      keepClient := false;
      if dialDone == Some(dial) {
        dialing, dialCancel, dialDone := false, None, None;
        if err.None? && !closed && leases > 0 && active.None? {
          active := Some(P.Outbound(dial));
          assert !readyClosed;
          readyClosed := true;
          keepClient := true;
          lastDialErr := None;
        } else if err.Some? && !err.value.ErrCanceled? && !err.value.ErrPeerConnected? {
          lastDialErr := err;
        }
      }
    }

    method AcceptInbound(conn: P.Id, clientReady: bool, prefer: bool)
      returns (err: Option<P.Error>, cancel: Option<P.Id>, closeClient: Option<P.Id>)
      requires Valid()
      modifies this`active, this`readyClosed, this`lastDialErr
      ensures Valid()
      ensures err.None? <==>
        && !closed
        && (|| P.IsInbound(old(active), conn)
            || ((old(active).None? || (old(active).value.Outbound? && !clientReady)) && !(old(dialing) && prefer)))
      ensures err.Some? ==> err.value == if closed then P.ErrClosed else P.ErrPeerConnected
      ensures err.None? ==> P.IsInbound(active, conn)
      ensures err.None? && !P.IsInbound(old(active), conn) ==>
        && active == Some(P.Inbound(conn, false)) && !readyClosed && lastDialErr.None?
        && cancel == old(dialCancel)
        && closeClient == if old(active).Some? then Some(old(active).value.client) else None
      ensures err.Some? || P.IsInbound(old(active), conn) ==>
        State() == old(State()) && cancel.None? && closeClient.None?
      ensures P.Admission(State(), err, cancel, closeClient) == P.AcceptInbound(old(State()), conn, clientReady, prefer)
    {
      err, cancel, closeClient := None, None, None;
      if closed { return Some(P.ErrClosed), None, None; }
      if active.Some? {
        if active.value.Inbound? && active.value.conn == conn { return None, None, None; }
        if active.value.Outbound? && !clientReady {
          closeClient := Some(active.value.client);
          active, readyClosed := None, false;
        } else {
          return Some(P.ErrPeerConnected), None, None;
        }
      }
      // A stale outbound link excludes a dial, so its client is always handed back to be closed.
      assert closeClient.Some? ==> !dialing;
      if dialing && prefer { return Some(P.ErrPeerConnected), None, None; }
      cancel := dialCancel;
      active, lastDialErr := Some(P.Inbound(conn, false)), None;
    }

    method Connected(conn: P.Id) returns (err: Option<P.Error>)
      requires Valid()
      modifies this`active, this`readyClosed
      ensures Valid()
      ensures err.None? <==> !closed && P.IsInbound(old(active), conn)
      ensures err.None? ==> active == Some(P.Inbound(conn, true)) && readyClosed
      ensures err.Some? ==> err.value == (if closed then P.ErrClosed else P.ErrPeerConnected) && State() == old(State())
      ensures (State(), err) == P.Connected(old(State()), conn)
    {
      if closed { return Some(P.ErrClosed); }
      if active.None? || active.value.Outbound? || active.value.conn != conn { return Some(P.ErrPeerConnected); }
      if !active.value.ready {
        active := Some(P.Inbound(conn, true));
        assert !readyClosed;
        readyClosed := true;
      }
      return None;
    }

    method Disconnected(conn: P.Id) returns (shouldDial: bool)
      requires Valid()
      modifies this`active, this`readyClosed
      ensures Valid()
      ensures P.IsInbound(old(active), conn) ==> active.None? && !readyClosed
      ensures !P.IsInbound(old(active), conn) ==> State() == old(State())
      ensures shouldDial <==> P.IsInbound(old(active), conn) && !closed && leases > 0 && dialConfig.Some?
      ensures (State(), shouldDial) == P.Disconnected(old(State()), conn)
    {
      if active.None? || active.value.Outbound? || active.value.conn != conn { return false; }
      active, readyClosed := None, false;
      return !closed && leases > 0 && dialConfig.Some?;
    }

    method Close() returns (cancel: Option<P.Id>, link: Option<P.Link>)
      requires Valid()
      modifies this`closed, this`active
      ensures Valid()
      ensures closed && active.None?
      ensures !old(closed) ==> cancel == dialCancel && link == old(active)
      ensures old(closed) ==> cancel.None? && link.None?
      ensures (State(), cancel, link) == P.ClosePeer(old(State()))
    {
      if closed { return None, None; }
      closed := true;
      cancel, link := dialCancel, active;
      active := None;
    }
  }
}
