/**
 One logical peer relationship: the fields that Peer.mu protects, each critical section of
 peer.go as a function of them, and the invariant of every interleaving.
 */
module PeerState {
  import opened Bytes

  /** Clients, accepted connections, dials and leases are known by number. A dial's client
      carries the dial's number. */
  type Id = nat

  datatype Link = Outbound(client: Id) | Inbound(conn: Id, ready: bool)

  datatype Error = ErrClosed | ErrPeerConnected | ErrPeerConfiguration | ErrCanceled | ErrOther

  /** readyCloses counts the closes of the current readiness channel: a second one would panic. */
  datatype Peer = Peer(
    active: Option<Link>, readyCloses: nat,
    dialConfig: Option<string>,
    dialing: bool, dialCancel: Option<Id>, dialDone: Option<Id>,
    lastDialErr: Option<Error>, leases: nat, closed: bool)

  const NEW_PEER := Peer(None, 0, None, false, None, None, None, 0, false)

  predicate LinkReady(l: Link) { l.Outbound? || l.ready }

  /** The active link is that accepted connection, ready or not. */
  predicate IsInbound(l: Option<Link>, conn: Id)
  {
    l.Some? && l.value.Inbound? && l.value.conn == conn
  }

  // ------------------------------------------------------- critical sections

  function Acquire(p: Peer, config: string): (r: (Peer, Option<Error>))
  {
    if p.closed then (p, Some(ErrClosed))
    else if p.dialConfig.Some? && p.dialConfig.value != config && p.leases > 0 then (p, Some(ErrPeerConfiguration))
    else (p.(dialConfig := Some(config), leases := p.leases + 1, lastDialErr := None), None)
  }

  /** release; the results are the dial to cancel and the client to close. */
  function Release(p: Peer): (r: (Peer, Option<Id>, Option<Id>))
  {
    var q := if p.leases > 0 then p.(leases := p.leases - 1) else p;
    if q.leases > 0 then (q, None, None)
    else if q.active.Some? && q.active.value.Outbound? then
      (q.(active := None, readyCloses := 0), q.dialCancel, Some(q.active.value.client))
    else (q, q.dialCancel, None)
  }

  /** ensureDial; `dial` is the number a new dial would take. */
  function EnsureDial(p: Peer, dial: Id): (r: (Peer, bool))
  {
    if p.closed || p.leases == 0 || p.dialConfig.None? || p.active.Some? || p.dialing then (p, false)
    else (p.(dialing := true, dialCancel := Some(dial), dialDone := Some(dial), lastDialErr := None), true)
  }

  /** The end of runDial; the flag says the new client is kept. */
  function EndDial(p: Peer, dial: Id, err: Option<Error>): (r: (Peer, bool))
  {
    if p.dialDone != Some(dial) then (p, false)
    else
      var q := p.(dialing := false, dialCancel := None, dialDone := None);
      if err.None? && !q.closed && q.leases > 0 && q.active.None? then
        (q.(active := Some(Outbound(dial)), readyCloses := q.readyCloses + 1, lastDialErr := None), true)
      else if err.Some? && !err.value.ErrCanceled? && !err.value.ErrPeerConnected? then
        (q.(lastDialErr := err), false)
      else (q, false)
  }

  datatype Admission = Admission(peer: Peer, err: Option<Error>, cancel: Option<Id>, closeClient: Option<Id>)

  /** acceptInbound; clientReady tells whether the active outbound client still has a
      connection, prefer whether this side's own dial wins a tie. */
  function AcceptInbound(p: Peer, conn: Id, clientReady: bool, prefer: bool): (r: Admission)
  {
    if p.closed then Admission(p, Some(ErrClosed), None, None)
    else if p.active == Some(Inbound(conn, true)) || p.active == Some(Inbound(conn, false))
    then Admission(p, None, None, None)
    else if p.active.Some? && (p.active.value.Inbound? || clientReady)
    then Admission(p, Some(ErrPeerConnected), None, None)
    else
      var stale := if p.active.Some? then Some(p.active.value.client) else None;
      var q := if p.active.Some? then p.(active := None, readyCloses := 0) else p;
      if q.dialing && prefer then Admission(q, Some(ErrPeerConnected), None, None)
      else Admission(q.(active := Some(Inbound(conn, false)), lastDialErr := None), None, q.dialCancel, stale)
  }

  function Connected(p: Peer, conn: Id): (r: (Peer, Option<Error>))
  {
    if p.closed then (p, Some(ErrClosed))
    else if p.active == Some(Inbound(conn, true)) then (p, None)
    else if p.active == Some(Inbound(conn, false)) then
      (p.(active := Some(Inbound(conn, true)), readyCloses := p.readyCloses + 1), None)
    else (p, Some(ErrPeerConnected))
  }

  /** disconnected; the flag says whether ensureDial follows. */
  function Disconnected(p: Peer, conn: Id): (r: (Peer, bool))
  {
    if p.active.Some? && p.active.value.Inbound? && p.active.value.conn == conn then
      (p.(active := None, readyCloses := 0), !p.closed && p.leases > 0 && p.dialConfig.Some?)
    else (p, false)
  }

  /** close; the results are the dial to cancel, the client and the connection to close. */
  function ClosePeer(p: Peer): (r: (Peer, Option<Id>, Option<Link>))
  {
    if p.closed then (p, None, None) else (p.(closed := true, active := None), p.dialCancel, p.active)
  }

  // ------------------------------------------------------- every interleaving

  /** What has become of a dialled client. */
  datatype Fate = Dialling | Kept | MustClose | Shut

  /** The peer with its goroutines: the leases held, the fate of the client of every dial so
      far, and the calls of ensureDial still to come. MustClose means that Close is still to be
      called, the lock being dropped. `lapse` is the error that ended a dial when no ensureDial
      was to come, until acquire or disconnected calls for the next one. */
  datatype World = World(p: Peer, held: set<Id>, nextLease: Id, fates: seq<Fate>, owed: nat, lapse: Option<Error>)

  datatype Step =
    | AcquireLease(config: string) | CloseLease(lease: Id) | StartDial | FinishDial(dial: Id, err: Option<Error>)
    | Accept(conn: Id, clientReady: bool, prefer: bool) | Activate(conn: Id) | Lose(conn: Id)
    | CloseAll | CloseClient(client: Id)

  predicate Enabled(w: World, step: Step)
  {
    match step
    case StartDial => w.owed > 0
    case FinishDial(dial, _) => dial < |w.fates| && w.fates[dial].Dialling?
    case CloseClient(client) => client < |w.fates| && w.fates[client].MustClose?
    case _ => true
  }

  function Doomed(fates: seq<Fate>, client: Option<Id>): (r: seq<Fate>)
  {
    if client.Some? && client.value < |fates| then fates[client.value := MustClose] else fates
  }

  function Apply(w: World, step: Step): (v: World)
    requires Enabled(w, step)
  {
    match step
    case AcquireLease(config) => AtAcquire(w, config)
    case CloseLease(lease) => AtCloseLease(w, lease)
    case StartDial => AtStartDial(w)
    case FinishDial(dial, err) => AtFinishDial(w, dial, err)
    case Accept(conn, clientReady, prefer) => AtAccept(w, conn, clientReady, prefer)
    case Activate(conn) => w.(p := Connected(w.p, conn).0)
    case Lose(conn) => AtLose(w, conn)
    case CloseAll => AtCloseAll(w)
    case CloseClient(client) => w.(fates := w.fates[client := Shut])
  }

  function AtAcquire(w: World, config: string): (v: World)
  {
    var (p, err) := Acquire(w.p, config);
    if err.Some? then w else Triggered(w.(p := p, held := w.held + {w.nextLease}, nextLease := w.nextLease + 1))
  }

  /** The lock is dropped and ensureDial is to be called. */
  function Triggered(w: World): (v: World)
  {
    w.(owed := w.owed + 1, lapse := None)
  }

  /** PeerClient.Close: only the first call swaps the flag and releases. */
  function AtCloseLease(w: World, lease: Id): (v: World)
  {
    if lease !in w.held then w
    else
      var (p, _, client) := Release(w.p);
      w.(p := p, held := w.held - {lease}, fates := Doomed(w.fates, client))
  }

  function AtStartDial(w: World): (v: World)
    requires w.owed > 0
  {
    var (p, started) := EnsureDial(w.p, |w.fates|);
    w.(p := p, owed := w.owed - 1, fates := if started then w.fates + [Dialling] else w.fates)
  }

  function AtFinishDial(w: World, dial: Id, err: Option<Error>): (v: World)
    requires dial < |w.fates|
  {
    var (p, keep) := EndDial(w.p, dial, err);
    w.(p := p, fates := w.fates[dial := if keep then Kept else MustClose],
       lapse := if err.Some? && w.owed == 0 then err else w.lapse)
  }

  function AtAccept(w: World, conn: Id, clientReady: bool, prefer: bool): (v: World)
  {
    var a := AcceptInbound(w.p, conn, clientReady, prefer);
    w.(p := a.peer, fates := Doomed(w.fates, a.closeClient))
  }

  function AtLose(w: World, conn: Id): (v: World)
  {
    var (p, shouldDial) := Disconnected(w.p, conn);
    if shouldDial then Triggered(w.(p := p)) else w.(p := p)
  }

  function AtCloseAll(w: World): (v: World)
  {
    var (p, _, link) := ClosePeer(w.p);
    var client := if link.Some? && link.value.Outbound? then Some(link.value.client) else None;
    w.(p := p, fates := Doomed(w.fates, client))
  }

  const NEW_WORLD := World(NEW_PEER, {}, 0, [], 0, None)

  /** Fields that must agree with each other at the end of every critical section. */
  predicate Coherent(p: Peer)
  {
    && (p.dialing <==> p.dialDone.Some?) && p.dialCancel == p.dialDone
    && (p.closed ==> p.active.None? && p.readyCloses <= 1)
    && (!p.closed ==> p.readyCloses == if p.active.Some? && LinkReady(p.active.value) then 1 else 0)
    && (p.active.Some? && p.active.value.Outbound? ==> !p.dialing && p.leases > 0)
  }

  predicate Leased(w: World)
  {
    w.p.leases == |w.held| && forall l | l in w.held :: l < w.nextLease
  }

  predicate Tracked(w: World)
  {
    && (w.p.dialDone.Some? ==> w.p.dialDone.value < |w.fates|)
    && (w.p.active.Some? && w.p.active.value.Outbound? ==> w.p.active.value.client < |w.fates|)
    && forall d | 0 <= d < |w.fates| ::
         && (w.fates[d].Dialling? <==> w.p.dialDone == Some(d))
         && (w.fates[d].Kept? <==> w.p.active == Some(Outbound(d)))
  }

  /** An open peer that is leased and has no link. */
  predicate Wanting(w: World)
  {
    !w.p.closed && w.p.leases > 0 && w.p.active.None?
  }

  /** A dial is under way, or ensureDial is still to be called. */
  predicate Served(w: World)
  {
    w.p.dialing || w.owed > 0
  }

  /** What runDial records of an error for WaitReady to return. */
  function Reported(e: Error): (r: Option<Error>)
  {
    if e.ErrCanceled? || e.ErrPeerConnected? then None else Some(e)
  }

  predicate Redialled(w: World)
  {
    && (w.p.leases > 0 ==> w.p.dialConfig.Some?)
    && (w.p.dialing ==> w.p.lastDialErr.None?)
    && (w.lapse.Some? ==> !Served(w))
    && (Wanting(w) && !Served(w) ==> w.lapse.Some? && w.p.lastDialErr == Reported(w.lapse.value))
  }

  predicate Inv(w: World)
  {
    Coherent(w.p) && Leased(w) && Tracked(w) && Redialled(w)
  }

  predicate IsRun(w: World, steps: seq<Step>)
    decreases |steps|
  {
    steps == [] || (Enabled(w, steps[0]) && IsRun(Apply(w, steps[0]), steps[1..]))
  }

  function After(w: World, steps: seq<Step>): (v: World)
    requires IsRun(w, steps)
    decreases |steps|
  {
    if steps == [] then w else After(Apply(w, steps[0]), steps[1..])
  }

  lemma AcquireKeeps(w: World, config: string)
    requires Inv(w)
    ensures Inv(AtAcquire(w, config))
  {
  }

  lemma CloseLeaseKeeps(w: World, lease: Id)
    requires Inv(w)
    ensures Inv(AtCloseLease(w, lease))
  {
    if lease in w.held {
      assert w.held == (w.held - {lease}) + {lease};
    }
  }

  lemma DialKeeps(w: World, dial: Id, err: Option<Error>)
    requires Inv(w)
    ensures w.owed > 0 ==> Inv(AtStartDial(w))
    ensures dial < |w.fates| && w.fates[dial].Dialling? ==> Inv(AtFinishDial(w, dial, err))
  {
  }

  lemma AcceptKeeps(w: World, conn: Id, clientReady: bool, prefer: bool)
    requires Inv(w)
    ensures Inv(AtAccept(w, conn, clientReady, prefer))
  {
  }

  lemma ConnectedKeeps(w: World, conn: Id)
    requires Inv(w)
    ensures Inv(w.(p := Connected(w.p, conn).0))
  {
  }

  lemma LoseKeeps(w: World, conn: Id)
    requires Inv(w)
    ensures Inv(AtLose(w, conn))
  {
  }

  lemma CloseKeeps(w: World, client: Id)
    requires Inv(w)
    ensures Inv(AtCloseAll(w))
    ensures client < |w.fates| && w.fates[client].MustClose? ==> Inv(w.(fates := w.fates[client := Shut]))
  {
  }

  /** Every critical section, in any order, keeps the invariant. */
  lemma StepKeeps(w: World, step: Step)
    requires Inv(w) && Enabled(w, step)
    ensures Inv(Apply(w, step))
  {
    hide Inv, AtAcquire, AtCloseLease, AtStartDial, AtFinishDial, AtAccept, AtLose, AtCloseAll, Connected;
    match step
    case AcquireLease(config) => AcquireKeeps(w, config);
    case CloseLease(lease) => CloseLeaseKeeps(w, lease);
    case StartDial => DialKeeps(w, 0, None);
    case FinishDial(dial, err) => DialKeeps(w, dial, err);
    case Accept(conn, clientReady, prefer) => AcceptKeeps(w, conn, clientReady, prefer);
    case Activate(conn) => ConnectedKeeps(w, conn);
    case Lose(conn) => LoseKeeps(w, conn);
    case CloseAll => CloseKeeps(w, 0);
    case CloseClient(client) => CloseKeeps(w, client);
  }

  lemma {:induction false} RunKeeps(w: World, steps: seq<Step>)
    requires Inv(w) && IsRun(w, steps)
    ensures Inv(After(w, steps))
    decreases |steps|
  {
    hide Inv, Apply, Enabled;
    if steps != [] {
      StepKeeps(w, steps[0]);
      RunKeeps(Apply(w, steps[0]), steps[1..]);
    }
  }

  /** In every run: the readiness channel is closed once exactly while a ready link is active
      (and never twice even after close), at most one dial is under way, an active outbound
      link excludes a dial and is leased, and the lease count is the number of unreleased
      acquires. */
  lemma PeerStaysCoherent(steps: seq<Step>)
    requires IsRun(NEW_WORLD, steps)
    ensures var w := After(NEW_WORLD, steps);
      && w.p.readyCloses <= 1
      && (!w.p.closed ==> (w.p.readyCloses == 1 <==> w.p.active.Some? && LinkReady(w.p.active.value)))
      && (forall d, e | 0 <= d < |w.fates| && 0 <= e < |w.fates| ::
            w.fates[d].Dialling? && w.fates[e].Dialling? ==> d == e)
      && (w.p.active.Some? && w.p.active.value.Outbound? ==> !w.p.dialing && w.p.leases > 0)
      && w.p.leases == |w.held|
  {
    assert Inv(NEW_WORLD);
    RunKeeps(NEW_WORLD, steps);
  }

  /** No client is dropped: one that is neither the dial under way nor the active link has
      been closed or is about to be. */
  lemma NoClientIsDropped(steps: seq<Step>, client: Id)
    requires IsRun(NEW_WORLD, steps) && client < |After(NEW_WORLD, steps).fates|
    ensures var w := After(NEW_WORLD, steps);
      w.p.dialDone != Some(client) && w.p.active != Some(Outbound(client))
      <==> w.fates[client].MustClose? || w.fates[client].Shut?
  {
    assert Inv(NEW_WORLD);
    RunKeeps(NEW_WORLD, steps);
  }

  // ------------------------------------------------------- when a linkless peer dials

  /** In every run an open, leased, linkless peer is dialling, or about to be asked to, exactly
      when no dial has ended in an error behind the last ensureDial. Otherwise nothing dials
      until another acquire or disconnected, and WaitReady reports the error unless it was a
      cancellation or a refusal by the tie-break: then it waits in silence. */
  lemma LinklessPeerDials(steps: seq<Step>)
    requires IsRun(NEW_WORLD, steps) && Wanting(After(NEW_WORLD, steps))
    ensures var w := After(NEW_WORLD, steps);
      && (Served(w) <==> w.lapse.None?)
      && (!Served(w) ==> !Enabled(w, StartDial) && w.p.lastDialErr == Reported(w.lapse.value))
  {
    assert Inv(NEW_WORLD);
    RunKeeps(NEW_WORLD, steps);
  }

  /** The one step that leaves such a peer idle: a dial ends in an error, whichever it is, and
      no ensureDial is to come. */
  lemma OnlyFailedDialIdles(steps: seq<Step>, step: Step)
    requires IsRun(NEW_WORLD, steps) && Enabled(After(NEW_WORLD, steps), step)
    requires var w := After(NEW_WORLD, steps); Wanting(w) && Served(w) && Wanting(Apply(w, step))
    ensures var w := After(NEW_WORLD, steps);
      !Served(Apply(w, step)) <==> step.FinishDial? && step.err.Some? && w.owed == 0
  {
    assert Inv(NEW_WORLD);
    RunKeeps(NEW_WORLD, steps);
    OnlyFailedDialIdlesOnce(After(NEW_WORLD, steps), step);
  }

  lemma OnlyFailedDialIdlesOnce(w: World, step: Step)
    requires Inv(w) && Enabled(w, step) && Wanting(w) && Served(w) && Wanting(Apply(w, step))
    ensures !Served(Apply(w, step)) <==> step.FinishDial? && step.err.Some? && w.owed == 0
  {
  }

  /** Steps that neither call for a dial nor end the wish for one. */
  predicate Quiet(steps: seq<Step>)
  {
    forall i | 0 <= i < |steps| ::
      !steps[i].AcquireLease? && !steps[i].Accept? && !steps[i].CloseLease? && !steps[i].CloseAll?
  }

  /** An idle peer stays idle for as long as nobody acquires it and no inbound link comes. */
  lemma {:induction false} IdleStaysIdle(w: World, steps: seq<Step>)
    requires Inv(w) && Wanting(w) && !Served(w) && IsRun(w, steps) && Quiet(steps)
    ensures Wanting(After(w, steps)) && !Served(After(w, steps)) && After(w, steps).lapse == w.lapse
    decreases |steps|
  {
    hide Inv;
    if steps != [] {
      StepKeeps(w, steps[0]);
      IdleStaysIdleOnce(w, steps[0]);
      assert forall i | 0 <= i < |steps[1..]| :: steps[1..][i] == steps[i + 1];
      IdleStaysIdle(Apply(w, steps[0]), steps[1..]);
    }
  }

  lemma IdleStaysIdleOnce(w: World, step: Step)
    requires Inv(w) && Wanting(w) && !Served(w) && Enabled(w, step)
    requires !step.AcquireLease? && !step.Accept? && !step.CloseLease? && !step.CloseAll?
    ensures var v := Apply(w, step); Wanting(v) && !Served(v) && v.lapse == w.lapse
  {
  }

  /** Such an idle peer is reachable: the last lease is closed while its dial is under way, a new
      lease finds the cancelled dial still counted as one, and that dial then ends. */
  lemma CancelledDialIsNotRetried() returns (steps: seq<Step>)
    ensures IsRun(NEW_WORLD, steps)
    ensures var w := After(NEW_WORLD, steps);
      Wanting(w) && w.held == {1} && !Served(w) && !Enabled(w, StartDial) && w.p.lastDialErr.None?
  {
    hide IsRun, After;
    var dialling := Peer(None, 0, Some("a"), true, Some(0), Some(0), None, 1, false);
    var w2 := World(dialling, {0}, 1, [Dialling], 0, None);
    var w4 := World(dialling, {1}, 2, [Dialling], 1, None);
    var ended := dialling.(dialing := false, dialCancel := None, dialDone := None);
    var w6 := World(ended, {1}, 2, [MustClose], 0, Some(ErrCanceled));
    var tail := LeasedAgain(w4, w6);
    var middle := Reopened(w2, w4);
    var head := FirstDial(w2);
    RunsCompose(w2, middle, tail);
    RunsCompose(NEW_WORLD, head, middle + tail);
    steps := head + (middle + tail);
  }

  lemma FirstDial(w2: World) returns (steps: seq<Step>)
    requires w2 == World(Peer(None, 0, Some("a"), true, Some(0), Some(0), None, 1, false), {0}, 1, [Dialling], 0, None)
    ensures IsRun(NEW_WORLD, steps) && After(NEW_WORLD, steps) == w2
  {
    var w1 := World(NEW_PEER.(dialConfig := Some("a"), leases := 1), {0}, 1, [], 1, None);
    assert AtAcquire(NEW_WORLD, "a") == w1;
    assert AtStartDial(w1) == w2;
    steps := TwoSteps(NEW_WORLD, AcquireLease("a"), w1, StartDial, w2);
  }

  lemma Reopened(w2: World, w4: World) returns (steps: seq<Step>)
    requires w2.p == Peer(None, 0, Some("a"), true, Some(0), Some(0), None, 1, false)
    requires w2.held == {0} && w2.nextLease == 1 && w2.owed == 0 && w2.lapse.None?
    requires w4 == w2.(held := {1}, nextLease := 2, owed := 1)
    ensures IsRun(w2, steps) && After(w2, steps) == w4
  {
    var w3 := w2.(p := w2.p.(leases := 0), held := {});
    assert AtCloseLease(w2, 0) == w3 by { assert {0} - {0} == {}; }
    assert AtAcquire(w3, "a") == w4 by { assert {} + {1} == {1}; }
    steps := TwoSteps(w2, CloseLease(0), w3, AcquireLease("a"), w4);
  }

  lemma LeasedAgain(w4: World, w6: World) returns (steps: seq<Step>)
    requires w4 == World(Peer(None, 0, Some("a"), true, Some(0), Some(0), None, 1, false), {1}, 2, [Dialling], 1, None)
    requires w6.p == w4.p.(dialing := false, dialCancel := None, dialDone := None)
    requires w6 == World(w6.p, {1}, 2, [MustClose], 0, Some(ErrCanceled))
    ensures IsRun(w4, steps) && After(w4, steps) == w6
  {
    var w5 := w4.(owed := 0);
    assert AtStartDial(w4) == w5;
    assert AtFinishDial(w5, 0, Some(ErrCanceled)) == w6;
    steps := TwoSteps(w4, StartDial, w5, FinishDial(0, Some(ErrCanceled)), w6);
  }

  lemma TwoSteps(w: World, first: Step, u: World, second: Step, v: World) returns (steps: seq<Step>)
    requires Enabled(w, first) && Apply(w, first) == u && Enabled(u, second) && Apply(u, second) == v
    ensures IsRun(w, steps) && After(w, steps) == v
  {
    hide Enabled, Apply;
    steps := [first, second];
    assert steps[1..] == [second] && [second][1..] == [];
    assert IsRun(v, []);
    assert IsRun(u, [second]) && After(u, [second]) == v;
  }

  lemma {:induction false} RunsCompose(w: World, first: seq<Step>, second: seq<Step>)
    requires IsRun(w, first) && IsRun(After(w, first), second)
    ensures IsRun(w, first + second) && After(w, first + second) == After(After(w, first), second)
    decreases |first|
  {
    hide Enabled, Apply;
    if first == [] {
      assert first + second == second;
    } else {
      RunsCompose(Apply(w, first[0]), first[1..], second);
      assert (first + second)[1..] == first[1..] + second;
    }
  }
}
