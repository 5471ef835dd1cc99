/**
 Two peers that may dial each other at the same moment. The name-based tie-break of
 peer.go must leave both sides on the same socket.
 */
module PeerNames {

  predicate IsSpace(c: char)
  {
    c == ' ' || '\t' <= c <= '\r'
  }

  function TrimLeft(s: string): (r: string)
    ensures r == [] || !IsSpace(r[0])
  {
    if s != [] && IsSpace(s[0]) then TrimLeft(s[1..]) else s
  }

  function TrimRight(s: string): (r: string)
    ensures r <= s
    ensures r == [] || !IsSpace(r[|r| - 1])
  {
    if s != [] && IsSpace(s[|s| - 1]) then TrimRight(s[..|s| - 1]) else s
  }

  function LowerChar(c: char): (r: char)
  {
    if 'A' <= c <= 'Z' then ((c as int) + 32) as char else c
  }

  function Lower(s: string): (r: string)
    ensures |r| == |s| && forall i | 0 <= i < |s| :: r[i] == LowerChar(s[i])
  {
    seq(|s|, i requires 0 <= i < |s| => LowerChar(s[i]))
  }

  /** normalizePeerName, for ASCII names. */
  function Normalize(name: string): (r: string)
  {
    Lower(TrimRight(TrimLeft(name)))
  }

  /** Go's order on strings. */
  predicate Less(a: string, b: string)
  {
    if a == [] || b == [] then |a| < |b|
    else a[0] < b[0] || (a[0] == b[0] && Less(a[1..], b[1..]))
  }

  predicate PreferOutbound(localName: string, peerName: string)
  {
    Less(Normalize(localName), Normalize(peerName))
  }

  lemma {:induction false} LessIsTotal(a: string, b: string)
    ensures a != b ==> (Less(a, b) <==> !Less(b, a))
    ensures a == b ==> !Less(a, b)
  {
    if a != [] && b != [] {
      LessIsTotal(a[1..], b[1..]);
      assert a == [a[0]] + a[1..] && b == [b[0]] + b[1..];
    }
  }

  lemma TrimmedStays(s: string)
    requires s == [] || (!IsSpace(s[0]) && !IsSpace(s[|s| - 1]))
    ensures TrimRight(TrimLeft(s)) == s
  {
  }

  /** A normalized name is its own normal form, so both sides compare the same strings
      however the names were spelled. */
  lemma NormalizeIsStable(name: string)
    ensures Normalize(Normalize(name)) == Normalize(name)
  {
    var t := TrimRight(TrimLeft(name));
    assert t != [] ==> t[0] == TrimLeft(name)[0];
    TrimmedStays(Normalize(name));
  }

  /** White space around a name does not matter, nor does the case of its letters. */
  lemma SpaceIsIgnored(name: string, c: char)
    requires c as int in {9, 10, 11, 12, 13, 32}
    ensures Normalize([c] + name) == Normalize(name) == Normalize(name + [c])
  {
    assert ([c] + name)[1..] == name;
    TrimAppended(name, c);
  }

  /** The same letter, perhaps in another case. */
  predicate SameLetter(c: char, d: char)
  {
    || c == d
    || ('A' <= c <= 'Z' && d as int == c as int + 32)
    || ('A' <= d <= 'Z' && c as int == d as int + 32)
  }

  lemma CaseIsIgnored(a: string, b: string)
    requires |a| == |b| && forall i | 0 <= i < |a| :: SameLetter(a[i], b[i])
    ensures Normalize(a) == Normalize(b)
  {
    assert Lower(a) == Lower(b);
    LowerTrims(a);
    LowerTrims(b);
  }

  /** Apart from that a name is what it is. */
  lemma PlainNameStays(name: string)
    requires name != [] ==> !IsSpace(name[0]) && !IsSpace(name[|name| - 1])
    requires forall c | c in name :: !('A' <= c <= 'Z')
    ensures Normalize(name) == name
  {
    TrimmedStays(name);
    forall i | 0 <= i < |name| ensures Lower(name)[i] == name[i] {
      assert name[i] in name;
    }
  }

  lemma {:induction false} TrimAppended(name: string, c: char)
    requires IsSpace(c)
    ensures TrimRight(TrimLeft(name + [c])) == TrimRight(TrimLeft(name))
  {
    if name != [] && IsSpace(name[0]) {
      assert (name + [c])[1..] == name[1..] + [c];
      TrimAppended(name[1..], c);
    } else if name == [] {
      assert name + [c] == [c] && [c][1..] == [];
    } else {
      assert (name + [c])[..|name|] == name;
    }
  }

  lemma LowerSpace(c: char)
    ensures IsSpace(LowerChar(c)) <==> IsSpace(c)
    ensures LowerChar(LowerChar(c)) == LowerChar(c)
  {
  }

  lemma {:induction false} LowerTrimsLeft(s: string)
    ensures TrimLeft(Lower(s)) == Lower(TrimLeft(s))
  {
    if s != [] && IsSpace(s[0]) {
      assert Lower(s)[1..] == Lower(s[1..]);
      LowerTrimsLeft(s[1..]);
    } else if s != [] {
      LowerSpace(s[0]);
    }
  }

  lemma {:induction false} LowerTrimsRight(s: string)
    ensures TrimRight(Lower(s)) == Lower(TrimRight(s))
  {
    if s != [] && IsSpace(s[|s| - 1]) {
      assert Lower(s)[..|s| - 1] == Lower(s[..|s| - 1]);
      LowerTrimsRight(s[..|s| - 1]);
    } else if s != [] {
      LowerSpace(s[|s| - 1]);
    }
  }

  lemma LowerTrims(name: string)
    ensures Normalize(Lower(name)) == Normalize(name)
  {
    LowerTrimsLeft(name);
    LowerTrimsRight(TrimLeft(name));
    var t := TrimRight(TrimLeft(name));
    forall i | 0 <= i < |t| ensures Lower(Lower(t))[i] == Lower(t)[i] {
      LowerSpace(t[i]);
    }
  }

  /** Where two strings first differ, the one that ends there or has the smaller character. */
  predicate FirstDifference(a: string, b: string, k: nat)
  {
    && k <= |a| && k < |b| && a[..k] == b[..k]
    && (k == |a| || a[k] < b[k])
  }

  /** The order is the lexicographic one. */
  lemma {:induction false} LessIsLexicographic(a: string, b: string)
    ensures Less(a, b) <==> exists k: nat :: FirstDifference(a, b, k)
  {
    if a == [] || b == [] {
      assert Less(a, b) ==> FirstDifference(a, b, 0);
    } else if a[0] != b[0] {
      assert a[0] < b[0] ==> FirstDifference(a, b, 0);
      if k: nat :| FirstDifference(a, b, k) {
        assert k > 0 ==> a[..k][0] == b[..k][0];
      }
    } else {
      LessIsLexicographic(a[1..], b[1..]);
      if k: nat :| FirstDifference(a[1..], b[1..], k) {
        assert a[..k + 1] == [a[0]] + a[1..][..k] && b[..k + 1] == [b[0]] + b[1..][..k];
        assert FirstDifference(a, b, k + 1);
      }
      if k: nat :| FirstDifference(a, b, k) {
        assert a[1..][..k - 1] == a[..k][1..] && b[1..][..k - 1] == b[..k][1..];
        assert FirstDifference(a[1..], b[1..], k - 1);
      }
    }
  }

  /** The side with the smaller name prefers its own dial. */
  lemma SmallerNamePrefers(a: string, b: string)
    ensures PreferOutbound(a, b) <==> exists k: nat :: FirstDifference(Normalize(a), Normalize(b), k)
  {
    LessIsLexicographic(Normalize(a), Normalize(b));
  }

  /** For two peers with distinct normalized names exactly one side prefers its own dial. */
  lemma ExactlyOneSidePrefers(a: string, b: string)
    requires Normalize(a) != Normalize(b)
    ensures PreferOutbound(a, b) <==> !PreferOutbound(b, a)
  {
    LessIsTotal(Normalize(a), Normalize(b));
  }
}

module PeerNetwork {
  import opened Bytes
  import opened PeerState
  import opened PeerNames

  /** How far a dial has come on the dialling side. */
  datatype Phase = Connecting | HelloSent | Answered(ok: bool)

  datatype Dial = NoDial | Dial(id: Id, phase: Phase, cancelled: bool)

  /** One peer, its dial, the hellos on their way to it and the answers on their way back.
      A socket is known by the number of the dial that opened it. */
  datatype Side = Side(peer: Peer, dial: Dial, hellos: set<Id>, answers: map<Id, bool>)

  /** `winner` is the side whose own dial wins a tie. `lost` records a client closed although
      the other side had accepted its socket. */
  datatype Net = Net(winnerName: string, loserName: string, winner: Side, loser: Side, next: Id, lost: bool)

  datatype Who = Winner | Loser

  datatype Step =
    | Lease(who: Who, config: string) | StartDial(who: Who) | SendHello(who: Who) | ConnectFails(who: Who)
    | AnswerHello(who: Who, id: Id) | HearAnswer(who: Who) | EndOfDial(who: Who) | EndCancelled(who: Who)
    | Confirm(who: Who, id: Id)

  function At(n: Net, who: Who): (s: Side)
  {
    if who.Winner? then n.winner else n.loser
  }

  function Across(n: Net, who: Who): (s: Side)
  {
    if who.Winner? then n.loser else n.winner
  }

  function Put(n: Net, who: Who, s: Side, other: Side): (m: Net)
  {
    if who.Winner? then n.(winner := s, loser := other) else n.(loser := s, winner := other)
  }

  predicate Prefers(n: Net, who: Who)
  {
    if who.Winner? then PreferOutbound(n.winnerName, n.loserName) else PreferOutbound(n.loserName, n.winnerName)
  }

  predicate Enabled(n: Net, step: Step)
  {
    var s := At(n, step.who);
    match step
    case Lease(_, _) => true
    case StartDial(_) => true
    case SendHello(_) => s.dial.Dial? && s.dial.phase.Connecting? && !s.dial.cancelled
    case ConnectFails(_) => s.dial.Dial? && s.dial.phase.Connecting?
    case AnswerHello(_, id) => id in s.hellos
    case HearAnswer(_) => s.dial.Dial? && s.dial.phase.HelloSent? && s.dial.id in s.answers
    case EndOfDial(_) => s.dial.Dial? && s.dial.phase.Answered?
    case EndCancelled(_) => s.dial.Dial? && s.dial.cancelled
    case Confirm(_, _) => true
  }

  function Apply(n: Net, step: Step): (m: Net)
    requires Enabled(n, step)
  {
    match step
    case Lease(who, config) => AtLease(n, who, config)
    case StartDial(who) => AtStartDial(n, who)
    case SendHello(who) => AtSendHello(n, who)
    case ConnectFails(who) => AtEndDial(n, who, Some(ErrOther))
    case AnswerHello(who, id) => AtAnswer(n, who, id)
    case HearAnswer(who) => AtHear(n, who)
    case EndOfDial(who) => AtEndDial(n, who, if At(n, who).dial.phase.ok then None else Some(ErrPeerConnected))
    case EndCancelled(who) => AtEndDial(n, who, Some(ErrCanceled))
    case Confirm(who, id) => AtConfirm(n, who, id)
  }

  function AtLease(n: Net, who: Who, config: string): (m: Net)
  {
    Put(n, who, At(n, who).(peer := Acquire(At(n, who).peer, config).0), Across(n, who))
  }

  function AtStartDial(n: Net, who: Who): (m: Net)
  {
    var s := At(n, who);
    var (peer, started) := EnsureDial(s.peer, n.next);
    if !started then n
    else Put(n.(next := n.next + 1), who, s.(peer := peer, dial := Dial(n.next, Connecting, false)), Across(n, who))
  }

  function AtSendHello(n: Net, who: Who): (m: Net)
    requires At(n, who).dial.Dial?
  {
    var s, t := At(n, who), Across(n, who);
    Put(n, who, s.(dial := s.dial.(phase := HelloSent)), t.(hellos := t.hellos + {s.dial.id}))
  }

  /** The accepting side decides; its own dial is cancelled if acceptInbound says so. */
  function AtAnswer(n: Net, who: Who, id: Id): (m: Net)
  {
    var s, t := At(n, who), Across(n, who);
    var a := AcceptInbound(s.peer, id, true, Prefers(n, who));
    var dial := if a.cancel.Some? && s.dial.Dial? then s.dial.(cancelled := true) else s.dial;
    Put(n, who, s.(peer := a.peer, dial := dial, hellos := s.hellos - {id}),
        t.(answers := t.answers[id := a.err.None?]))
  }

  function AtHear(n: Net, who: Who): (m: Net)
    requires At(n, who).dial.Dial? && At(n, who).dial.id in At(n, who).answers
  {
    var s := At(n, who);
    Put(n, who, s.(dial := s.dial.(phase := Answered(s.answers[s.dial.id]))), Across(n, who))
  }

  function AtEndDial(n: Net, who: Who, err: Option<Error>): (m: Net)
    requires At(n, who).dial.Dial?
  {
    var s := At(n, who);
    var (peer, keep) := EndDial(s.peer, s.dial.id, err);
    Put(n.(lost := n.lost || (Accepted(s, s.dial.id) && !keep)), who, s.(peer := peer, dial := NoDial), Across(n, who))
  }

  function AtConfirm(n: Net, who: Who, id: Id): (m: Net)
  {
    Put(n, who, At(n, who).(peer := Connected(At(n, who).peer, id).0), Across(n, who))
  }

  const NEW_SIDE := Side(NEW_PEER, NoDial, {}, map[])

  /** Two peers named a and b before anything has happened. */
  function Start(a: string, b: string): (n: Net)
  {
    if PreferOutbound(a, b) then Net(a, b, NEW_SIDE, NEW_SIDE, 0, false) else Net(b, a, NEW_SIDE, NEW_SIDE, 0, false)
  }

  // ------------------------------------------------------- invariant

  predicate HoldsIn(s: Side, id: Id)
  {
    s.peer.active == Some(Inbound(id, true)) || s.peer.active == Some(Inbound(id, false))
  }

  predicate HoldsAnyIn(s: Side)
  {
    s.peer.active.Some? && s.peer.active.value.Inbound?
  }

  predicate HoldsOut(s: Side, id: Id)
  {
    s.peer.active == Some(Outbound(id))
  }

  /** The side's current dial has been accepted across, whether it has heard so or not. */
  predicate Accepted(s: Side, id: Id)
  {
    && s.dial.Dial? && s.dial.id == id
    && match s.dial.phase
       case Connecting => false
       case HelloSent => id in s.answers && s.answers[id]
       case Answered(ok) => ok
  }

  predicate Sound(s: Side, next: Id)
  {
    && Coherent(s.peer) && !s.peer.closed
    && (s.dial.Dial? <==> s.peer.dialing)
    && (s.dial.Dial? ==> s.peer.dialDone == Some(s.dial.id) && s.dial.id < next && s.peer.leases > 0)
    && (forall id | id in s.hellos :: id < next)
    && (forall id | id in s.answers :: id < next)
    && (s.dial.Dial? && s.dial.phase.Connecting? ==> s.dial.id !in s.answers)
    && (s.peer.active.Some? ==>
          match s.peer.active.value case Outbound(id) => id < next case Inbound(id, _) => id < next)
  }

  predicate WinnerInv(w: Side, l: Side)
  {
    && (w.dial.Dial? ==> !w.dial.cancelled)
    && (HoldsAnyIn(w) ==> w.dial.NoDial?)
    && (HoldsAnyIn(w) ==> (HoldsOut(l, w.peer.active.value.conn)
                           || (l.peer.active.None? && Accepted(l, w.peer.active.value.conn) && !l.dial.cancelled)))
    && (forall id | id in l.hellos :: w.dial.Dial? && w.dial.id == id && w.dial.phase.HelloSent? && id !in w.answers)
    && (w.dial.Dial? && w.dial.phase.HelloSent? ==>
          w.dial.id in l.hellos || (Accepted(w, w.dial.id) && HoldsIn(l, w.dial.id)))
    && (w.dial.Dial? && w.dial.phase.Answered? ==> w.dial.phase.ok && HoldsIn(l, w.dial.id))
    && (forall id | id in w.answers :: w.answers[id])
    && (w.peer.active.Some? && w.peer.active.value.Outbound? ==> HoldsIn(l, w.peer.active.value.client))
  }

  predicate LoserInv(w: Side, l: Side)
  {
    && (HoldsAnyIn(l) ==> (HoldsOut(w, l.peer.active.value.conn)
                           || (w.peer.active.None? && Accepted(w, l.peer.active.value.conn))))
    && (l.peer.active.Some? && l.peer.active.value.Outbound? ==> HoldsIn(w, l.peer.active.value.client))
    && (forall id | id in w.hellos :: id !in l.answers && (l.dial == Dial(id, HelloSent, false) || HoldsAnyIn(l)))
    && (l.dial.Dial? && l.dial.phase.Connecting? ==> l.dial.id !in w.hellos)
    && (l.dial.Dial? && l.dial.phase.HelloSent? ==> l.dial.id in w.hellos || l.dial.id in l.answers)
    && (l.dial.Dial? && Accepted(l, l.dial.id) ==> HoldsIn(w, l.dial.id))
    && (l.dial.Dial? && l.dial.cancelled ==> HoldsAnyIn(l))
  }

  predicate Inv(n: Net)
  {
    && Prefers(n, Winner) && !Prefers(n, Loser)
    && Sound(n.winner, n.next) && Sound(n.loser, n.next)
    && WinnerInv(n.winner, n.loser) && LoserInv(n.winner, n.loser)
    && !n.lost
  }

  lemma LeaseKeeps(n: Net, who: Who, config: string)
    requires Inv(n)
    ensures Inv(AtLease(n, who, config))
  {
    hide PreferOutbound;
  }

  lemma StartDialKeeps(n: Net, who: Who)
    requires Inv(n)
    ensures Inv(AtStartDial(n, who))
  {
    hide PreferOutbound;
  }

  lemma SendHelloKeeps(n: Net, who: Who)
    requires Inv(n) && Enabled(n, SendHello(who))
    ensures Inv(AtSendHello(n, who))
  {
    hide PreferOutbound;
  }

  lemma WinnerAnswers(n: Net, id: Id)
    requires Inv(n) && id in n.winner.hellos
    ensures Inv(AtAnswer(n, Winner, id))
  {
    hide PreferOutbound;
  }

  lemma LoserAnswers(n: Net, id: Id)
    requires Inv(n) && id in n.loser.hellos
    ensures Inv(AtAnswer(n, Loser, id))
  {
    hide PreferOutbound;
  }

  lemma HearKeeps(n: Net, who: Who)
    requires Inv(n) && Enabled(n, HearAnswer(who))
    ensures Inv(AtHear(n, who))
  {
    hide PreferOutbound;
  }

  lemma ConnectFailsKeeps(n: Net, who: Who)
    requires Inv(n) && Enabled(n, ConnectFails(who))
    ensures Inv(AtEndDial(n, who, Some(ErrOther)))
  {
    hide PreferOutbound;
  }

  lemma EndOfDialKeeps(n: Net, who: Who)
    requires Inv(n) && Enabled(n, EndOfDial(who))
    ensures Inv(AtEndDial(n, who, if At(n, who).dial.phase.ok then None else Some(ErrPeerConnected)))
  {
    hide PreferOutbound;
  }

  /** A dial that lost the tie was never accepted across, so cancelling it drops no link. */
  lemma EndCancelledKeeps(n: Net, who: Who)
    requires Inv(n) && Enabled(n, EndCancelled(who))
    ensures Inv(AtEndDial(n, who, Some(ErrCanceled)))
  {
    hide PreferOutbound;
  }

  lemma ConfirmKeeps(n: Net, who: Who, id: Id)
    requires Inv(n)
    ensures Inv(AtConfirm(n, who, id))
  {
    hide PreferOutbound;
  }

  lemma StepKeeps(n: Net, step: Step)
    requires Inv(n) && Enabled(n, step)
    ensures Inv(Apply(n, step))
  {
    hide Inv, PreferOutbound, AtLease, AtStartDial, AtSendHello, AtAnswer, AtHear, AtEndDial, AtConfirm;
    match step
    case Lease(who, config) => LeaseKeeps(n, who, config);
    case StartDial(who) => StartDialKeeps(n, who);
    case SendHello(who) => SendHelloKeeps(n, who);
    case ConnectFails(who) => ConnectFailsKeeps(n, who);
    case AnswerHello(who, id) => if who.Winner? { WinnerAnswers(n, id); } else { LoserAnswers(n, id); }
    case HearAnswer(who) => HearKeeps(n, who);
    case EndOfDial(who) => EndOfDialKeeps(n, who);
    case EndCancelled(who) => EndCancelledKeeps(n, who);
    case Confirm(who, id) => ConfirmKeeps(n, who, id);
  }

  predicate IsRun(n: Net, steps: seq<Step>)
    decreases |steps|
  {
    steps == [] || (Enabled(n, steps[0]) && IsRun(Apply(n, steps[0]), steps[1..]))
  }

  function After(n: Net, steps: seq<Step>): (m: Net)
    requires IsRun(n, steps)
    decreases |steps|
  {
    if steps == [] then n else After(Apply(n, steps[0]), steps[1..])
  }

  lemma {:induction false} RunKeeps(n: Net, steps: seq<Step>)
    requires Inv(n) && IsRun(n, steps)
    ensures Inv(After(n, steps))
    decreases |steps|
  {
    hide Inv, Apply, Enabled;
    if steps != [] {
      StepKeeps(n, steps[0]);
      RunKeeps(Apply(n, steps[0]), steps[1..]);
    }
  }

  // ------------------------------------------------------- main results

  function Socket(l: Link): (id: Id)
  {
    match l case Outbound(client) => client case Inbound(conn, _) => conn
  }

  lemma StartInv(a: string, b: string)
    requires Normalize(a) != Normalize(b)
    ensures Inv(Start(a, b))
  {
    hide PreferOutbound;
    ExactlyOneSidePrefers(a, b);
  }

  lemma RunInv(a: string, b: string, steps: seq<Step>)
    requires Normalize(a) != Normalize(b) && IsRun(Start(a, b), steps)
    ensures Inv(After(Start(a, b), steps))
  {
    hide Inv, Start;
    StartInv(a, b);
    RunKeeps(Start(a, b), steps);
  }

  /** In every run without link loss, release or close the two sides never hold links to
      different sockets, and the two ends of the shared one face each other. */
  lemma SidesAgree(a: string, b: string, steps: seq<Step>)
    requires Normalize(a) != Normalize(b) && IsRun(Start(a, b), steps)
    ensures var n := After(Start(a, b), steps);
      n.winner.peer.active.Some? && n.loser.peer.active.Some? ==>
        && Socket(n.winner.peer.active.value) == Socket(n.loser.peer.active.value)
        && (n.winner.peer.active.value.Outbound? <==> n.loser.peer.active.value.Inbound?)
  {
    hide PreferOutbound, Start;
    RunInv(a, b, steps);
  }

  /** The winner's dial is never rejected, so two crossing dials are never both rejected; and
      no client is closed under a link the other side has accepted. */
  lemma WinnerIsNeverRejected(a: string, b: string, steps: seq<Step>)
    requires Normalize(a) != Normalize(b) && IsRun(Start(a, b), steps)
    ensures var n := After(Start(a, b), steps);
      && (forall id | id in n.winner.answers :: n.winner.answers[id])
      && (n.winner.dial.Dial? ==> n.winner.dial.phase != Answered(false))
      && !n.lost
  {
    hide PreferOutbound, Start;
    RunInv(a, b, steps);
  }

  /** Once nothing is under way, one side has a link exactly when the other has. */
  lemma QuietSidesMatch(a: string, b: string, steps: seq<Step>)
    requires Normalize(a) != Normalize(b) && IsRun(Start(a, b), steps)
    requires var n := After(Start(a, b), steps); n.winner.dial.NoDial? && n.loser.dial.NoDial?
    ensures var n := After(Start(a, b), steps); n.winner.peer.active.Some? <==> n.loser.peer.active.Some?
  {
    hide PreferOutbound, Start;
    RunInv(a, b, steps);
  }

  /** The other side's dial ends with the socket as its active link. */
  predicate EndsLinked(n: Net, who: Who, id: Id)
  {
    Enabled(n, EndOfDial(who)) && HoldsOut(At(Apply(n, EndOfDial(who)), who), id)
  }

  function Other(who: Who): (r: Who)
  {
    if who.Winner? then Loser else Winner
  }

  /** A link that either side has accepted is the dialler's link already, or becomes it: the
      dialler still has the answer to hear or its dial to end, and then keeps the client. Until
      it does, its dial is not cancelled. */
  lemma AcceptedDialBecomesLink(a: string, b: string, steps: seq<Step>, who: Who, id: Id)
    requires Normalize(a) != Normalize(b) && IsRun(Start(a, b), steps)
    requires HoldsIn(At(After(Start(a, b), steps), Other(who)), id)
    ensures var n := After(Start(a, b), steps);
      || HoldsOut(At(n, who), id)
      || (!Enabled(n, EndCancelled(who))
          && (EndsLinked(n, who, id)
              || (Enabled(n, HearAnswer(who)) && EndsLinked(Apply(n, HearAnswer(who)), who, id))))
  {
    hide PreferOutbound, Start;
    RunInv(a, b, steps);
  }

  /** A side with neither link nor dial accepts the hello it answers, whichever side it is. */
  lemma LoneHelloIsAccepted(a: string, b: string, steps: seq<Step>, who: Who, id: Id)
    requires Normalize(a) != Normalize(b) && IsRun(Start(a, b), steps)
    requires var s := At(After(Start(a, b), steps), who); id in s.hellos && s.peer.active.None? && s.dial.NoDial?
    ensures var n := After(Start(a, b), steps); var m := Apply(n, AnswerHello(who, id));
      && HoldsIn(At(m, who), id)
      && Across(n, who).dial == Dial(id, HelloSent, false) && Accepted(Across(m, who), id)
  {
    hide PreferOutbound, Start;
    RunInv(a, b, steps);
    LoneHello(After(Start(a, b), steps), who, id);
  }

  lemma LoneHello(n: Net, who: Who, id: Id)
    requires Inv(n) && id in At(n, who).hellos && At(n, who).peer.active.None? && At(n, who).dial.NoDial?
    ensures HoldsIn(At(AtAnswer(n, who, id), who), id)
    ensures Across(n, who).dial == Dial(id, HelloSent, false) == Across(AtAnswer(n, who, id), who).dial
    ensures Accepted(Across(AtAnswer(n, who, id), who), id)
  {
    hide PreferOutbound;
  }

  /** A side that dials while the other has neither link nor dial ends linked to it: four steps of
      its dial, none of which can be refused, leave both on its socket. */
  lemma LoneDiallerLinks(a: string, b: string, steps: seq<Step>, who: Who) returns (more: seq<Step>)
    requires Normalize(a) != Normalize(b) && IsRun(Start(a, b), steps)
    requires var n := After(Start(a, b), steps);
      && At(n, who).dial.Dial? && At(n, who).dial.phase.Connecting? && !At(n, who).dial.cancelled
      && Across(n, who).peer.active.None? && Across(n, who).dial.NoDial?
    ensures var n := After(Start(a, b), steps); var id := At(n, who).dial.id;
      && more == [SendHello(who), AnswerHello(Other(who), id), HearAnswer(who), EndOfDial(who)]
      && IsRun(n, more)
      && HoldsOut(At(After(n, more), who), id) && HoldsIn(Across(After(n, more), who), id)
  {
    hide PreferOutbound, Start, Inv, AtSendHello, AtAnswer, AtHear, AtEndDial;
    RunInv(a, b, steps);
    var n := After(Start(a, b), steps);
    var id := At(n, who).dial.id;
    more := [SendHello(who), AnswerHello(Other(who), id), HearAnswer(who), EndOfDial(who)];
    var n1 := AtSendHello(n, who);
    SendHelloKeeps(n, who);
    Helloed(n, who);
    var n2 := AtAnswer(n1, Other(who), id);
    StepKeeps(n1, AnswerHello(Other(who), id));
    LoneHello(n1, Other(who), id);
    var n4 := AnsweredDialEnds(n2, who, id);
    assert more[1..][1..] == [HearAnswer(who), EndOfDial(who)];
  }

  lemma Helloed(n: Net, who: Who)
    requires Inv(n) && Enabled(n, SendHello(who)) && Across(n, who).peer.active.None? && Across(n, who).dial.NoDial?
    ensures var m := AtSendHello(n, who); var o := At(m, Other(who));
      At(n, who).dial.id in o.hellos && o.peer.active.None? && o.dial.NoDial?
  {
    hide PreferOutbound;
  }

  /** An accepted dial whose answer is on its way ends with the link on both sides. */
  lemma AnsweredDialEnds(n: Net, who: Who, id: Id) returns (m: Net)
    requires Inv(n) && HoldsIn(Across(n, who), id) && At(n, who).dial == Dial(id, HelloSent, false)
    requires Accepted(At(n, who), id)
    ensures IsRun(n, [HearAnswer(who), EndOfDial(who)]) && After(n, [HearAnswer(who), EndOfDial(who)]) == m
    ensures HoldsOut(At(m, who), id) && HoldsIn(Across(m, who), id)
  {
    hide PreferOutbound;
    var heard := Apply(n, HearAnswer(who));
    m := Apply(heard, EndOfDial(who));
    assert [HearAnswer(who), EndOfDial(who)][1..] == [EndOfDial(who)] && [EndOfDial(who)][1..] == [];
    assert IsRun(m, []);
    assert IsRun(heard, [EndOfDial(who)]) && After(heard, [EndOfDial(who)]) == m;
  }
}
