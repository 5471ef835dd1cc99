/**
 The signed transcript of auth.go and the two handshake scripts that must leave both ends
 with the same compressor and the same view of stream flow control.
 */
module Handshake {
  import opened Bytes

  /** Strings as their octets. */
  type Text = seq<Byte>

  // ------------------------------------------------------- the signed transcript

  const AUTH_LABEL: Text := [103, 111, 114, 112, 99, 45, 97, 117, 116, 104, 45, 118, 49]   // gorpc-auth-v1

  /** Go's conversion to uint32. */
  function Low32(n: nat): (m: nat)
    ensures m < 0x1_0000_0000 && (n < 0x1_0000_0000 ==> m == n)
  {
    n % 0x1_0000_0000
  }

  /** writeAuthString: the length is truncated to 32 bits. */
  function AuthString(value: Text): (b: seq<Byte>)
    ensures |b| == 4 + |value|
  {
    PutUint(Low32(|value|), 4) + value
  }

  function AuthStrings(values: seq<Text>): (b: seq<Byte>)
  {
    if values == [] then [] else AuthString(values[0]) + AuthStrings(values[1..])
  }

  function LegacyTranscript(challenge: seq<Byte>, version: nat, codec: Text, name: Text): (b: seq<Byte>)
  {
    AUTH_LABEL + PutUint(version, 2) + AuthString(codec) + AuthString(name) + challenge
  }

  function Transcript(challenge: seq<Byte>, version: nat, codec: Text, name: Text,
                      capabilities: seq<Text>): (b: seq<Byte>)
  {
    LegacyTranscript(challenge, version, codec, name) + AuthStrings(capabilities)
  }

  lemma {:induction false} AuthStringsAppend(values: seq<Text>, value: Text)
    ensures AuthStrings(values + [value]) == AuthStrings(values) + AuthString(value)
  {
    if values == [] {
      assert values + [value] == [value] && [value][1..] == [];
    } else {
      AuthStringsAppend(values[1..], value);
      assert (values + [value])[1..] == values[1..] + [value];
    }
  }

  /** What sign feeds to the keyed hash, piece by piece. */
  method Sign(challenge: seq<Byte>, version: nat, codec: Text, name: Text,
              capabilities: seq<Text>) returns (hashed: seq<Byte>)
    ensures hashed == Transcript(challenge, version, codec, name, capabilities)
  {
    hide AuthString, PutUint;
    hashed := AUTH_LABEL;
    hashed := hashed + PutUint(version, 2);
    hashed := hashed + AuthString(codec);
    hashed := hashed + AuthString(name);
    hashed := hashed + challenge;
    ghost var legacy := hashed;
    assert legacy == LegacyTranscript(challenge, version, codec, name);
    hide LegacyTranscript;
    for i := 0 to |capabilities|
      invariant hashed == legacy + AuthStrings(capabilities[..i])
    {
      AuthStringsAppend(capabilities[..i], capabilities[i]);
      assert capabilities[..i + 1] == capabilities[..i] + [capabilities[i]];
      hashed := hashed + AuthString(capabilities[i]);
    }
    assert capabilities[..|capabilities|] == capabilities;
  }

  predicate Short(value: Text)
  {
    |value| < 0x1_0000_0000
  }

  lemma SameSplit(p: seq<Byte>, q: seq<Byte>, x: seq<Byte>, y: seq<Byte>)
    requires |p| == |q| && p + x == q + y
    ensures p == q && x == y
  {
    assert p == (p + x)[..|p|] && q == (q + y)[..|q|];
    assert x == (p + x)[|p|..] && y == (q + y)[|q|..];
  }

  lemma AuthStringSplits(a: Text, x: seq<Byte>)
    requires Short(a)
    ensures AuthString(a) + x == PutUint(|a|, 4) + (a + x)
  {
    hide PutUint, Low32;
    var m := PutUint(|a|, 4);
    assert AuthString(a) == m + a;
    hide AuthString;
    Regroup(m, a, x);
  }

  lemma Regroup(p: seq<Byte>, q: seq<Byte>, x: seq<Byte>)
    ensures (p + q) + x == p + (q + x)
  {
  }

  /** A length-prefixed string can be read off the front in one way only. */
  lemma AuthStringIsPrefixFree(a: Text, b: Text, x: seq<Byte>, y: seq<Byte>)
    requires Short(a) && Short(b) && AuthString(a) + x == AuthString(b) + y
    ensures a == b && x == y
  {
    hide PutUint, AuthString, Uint, Pow256;
    AuthStringSplits(a, x);
    AuthStringSplits(b, y);
    SameSplit(PutUint(|a|, 4), PutUint(|b|, 4), a + x, b + y);
    Widths();
    UintOfPut(|a|, 4);
    UintOfPut(|b|, 4);
    SameSplit(a, b, x, y);
  }

  lemma {:induction false} AuthStringsInjective(a: seq<Text>, b: seq<Text>)
    requires (forall v | v in a :: Short(v)) && (forall v | v in b :: Short(v)) && AuthStrings(a) == AuthStrings(b)
    ensures a == b
  {
    if a != [] && b != [] {
      AuthStringIsPrefixFree(a[0], b[0], AuthStrings(a[1..]), AuthStrings(b[1..]));
      AuthStringsInjective(a[1..], b[1..]);
      assert a == [a[0]] + a[1..] && b == [b[0]] + b[1..];
    }
  }

  /** Equal transcripts sign equal statements: the same version, codec, name, challenge and
      capability list. In particular no list of capabilities signs like the legacy transcript. */
  lemma TranscriptIsInjective(challenge: seq<Byte>, version: nat, codec: Text, name: Text, capabilities: seq<Text>,
                              challenge': seq<Byte>, version': nat, codec': Text, name': Text, capabilities': seq<Text>)
    requires |challenge| == |challenge'| == 32 && version < 0x1_0000 && version' < 0x1_0000
    requires Short(codec) && Short(codec') && Short(name) && Short(name')
    requires (forall v | v in capabilities :: Short(v)) && (forall v | v in capabilities' :: Short(v))
    requires Transcript(challenge, version, codec, name, capabilities)
             == Transcript(challenge', version', codec', name', capabilities')
    ensures challenge == challenge' && version == version' && codec == codec' && name == name'
    ensures capabilities == capabilities'
  {
    hide AuthString, PutUint, AuthStrings;
    var u, v := challenge + AuthStrings(capabilities), challenge' + AuthStrings(capabilities');
    var x, y := AuthString(name) + u, AuthString(name') + v;
    var p, q := PutUint(version, 2), PutUint(version', 2);
    assert Transcript(challenge, version, codec, name, capabilities) == AUTH_LABEL + (p + (AuthString(codec) + x));
    assert Transcript(challenge', version', codec', name', capabilities')
        == AUTH_LABEL + (q + (AuthString(codec') + y));
    hide Transcript;
    SameSplit(AUTH_LABEL, AUTH_LABEL, p + (AuthString(codec) + x), q + (AuthString(codec') + y));
    SameSplit(p, q, AuthString(codec) + x, AuthString(codec') + y);
    Widths();
    UintOfPut(version, 2);
    UintOfPut(version', 2);
    AuthStringIsPrefixFree(codec, codec', x, y);
    AuthStringIsPrefixFree(name, name', u, v);
    SameSplit(challenge, challenge', AuthStrings(capabilities), AuthStrings(capabilities'));
    AuthStringsInjective(capabilities, capabilities');
  }

  // ------------------------------------------------------- reading a transcript back

  /** What a transcript states. */
  datatype Statement = Statement(version: nat, codec: Text, name: Text, challenge: seq<Byte>, capabilities: seq<Text>)

  function TakeString(b: seq<Byte>): (r: Option<(Text, seq<Byte>)>)
    ensures r.Some? ==> |r.value.1| < |b|
  {
    if |b| < 4 || |b| - 4 < Uint(b[..4]) then None
    else Some((b[4..][..Uint(b[..4])], b[4..][Uint(b[..4])..]))
  }

  function TakeStrings(b: seq<Byte>): (r: Option<seq<Text>>)
    decreases |b|
  {
    if b == [] then Some([])
    else match TakeString(b)
      case None => None
      case Some((value, rest)) =>
        match TakeStrings(rest)
        case None => None
        case Some(values) => Some([value] + values)
  }

  /** The label, the version, the codec, the name, 32 octets of challenge, then the capabilities. */
  function ReadTranscript(b: seq<Byte>): (r: Option<Statement>)
  {
    if |b| < 15 || b[..13] != AUTH_LABEL then None
    else match TakeString(b[15..])
      case None => None
      case Some((codec, named)) =>
        match TakeString(named)
        case None => None
        case Some((name, rest)) =>
          if |rest| < 32 then None
          else match TakeStrings(rest[32..])
            case None => None
            case Some(capabilities) => Some(Statement(Uint(b[13..15]), codec, name, rest[..32], capabilities))
  }

  lemma TakesOwnString(a: Text, x: seq<Byte>)
    requires Short(a)
    ensures TakeString(AuthString(a) + x) == Some((a, x))
  {
    hide PutUint, AuthString, Uint, Pow256;
    AuthStringSplits(a, x);
    Widths();
    UintOfPut(|a|, 4);
    var b := PutUint(|a|, 4) + (a + x);
    assert b[..4] == PutUint(|a|, 4) && b[4..] == a + x;
    assert (a + x)[..|a|] == a && (a + x)[|a|..] == x;
  }

  lemma {:induction false} TakesOwnStrings(values: seq<Text>)
    requires forall v | v in values :: Short(v)
    ensures TakeStrings(AuthStrings(values)) == Some(values)
  {
    hide AuthString, TakeString;
    if values != [] {
      TakesOwnString(values[0], AuthStrings(values[1..]));
      TakesOwnStrings(values[1..]);
      assert values == [values[0]] + values[1..];
    }
  }

  /** Every transcript reads back as what was signed, field by field in the order of the format. */
  lemma TranscriptReadsBack(challenge: seq<Byte>, version: nat, codec: Text, name: Text, capabilities: seq<Text>)
    requires |challenge| == 32 && version < 0x1_0000 && Short(codec) && Short(name)
    requires forall v | v in capabilities :: Short(v)
    ensures ReadTranscript(Transcript(challenge, version, codec, name, capabilities))
            == Some(Statement(version, codec, name, challenge, capabilities))
  {
    hide AuthString, PutUint, AuthStrings, TakeString, TakeStrings, Uint, Pow256;
    var u := challenge + AuthStrings(capabilities);
    var x := AuthString(name) + u;
    var y := AuthString(codec) + x;
    var t := Transcript(challenge, version, codec, name, capabilities);
    assert t == AUTH_LABEL + (PutUint(version, 2) + y);
    assert t[..13] == AUTH_LABEL && t[13..15] == PutUint(version, 2) && t[15..] == y;
    Widths();
    UintOfPut(version, 2);
    TakesOwnString(codec, x);
    TakesOwnString(name, u);
    assert u[..32] == challenge && u[32..] == AuthStrings(capabilities);
    TakesOwnStrings(capabilities);
  }

  predicate Spells(t: Text, s: string)
  {
    |t| == |s| && forall i | 0 <= i < |t| :: t[i] == s[i] as int
  }

  /** The constants of the protocol, as text. */
  lemma NamesAreSpelled()
    ensures Spells(AUTH_LABEL, "gorpc-auth-v1") && Spells(STREAM_CREDIT, "stream-credit-v1")
    ensures Spells(HMAC_SHA256, "hmac-sha256") && PROTOCOL_VERSION == 1
  {
  }

  // ------------------------------------------------------- the two scripts

  const PROTOCOL_VERSION: nat := 1
  // stream-credit-v1
  const STREAM_CREDIT: Text := [115, 116, 114, 101, 97, 109, 45, 99, 114, 101, 100, 105, 116, 45, 118, 49]
  const HMAC_SHA256: Text := [104, 109, 97, 99, 45, 115, 104, 97, 50, 53, 54]   // hmac-sha256

  /** A configured end; a compressor is known by its name, which is never empty. */
  datatype End = End(codec: Text, name: Text, compressor: Option<Text>, secret: Option<seq<Byte>>)

  datatype Hello = Hello(version: nat, codec: Text, name: Text, compression: Text, authMethod: Text,
                         capabilities: seq<Text>)

  datatype Ack = Ack(version: nat, codec: Text, compression: Text, authRequired: bool, authMethod: Text,
                     challenge: seq<Byte>, capabilities: seq<Text>)

  datatype Error = ErrProtocol | ErrAuthentication | ErrRejected

  datatype Result<+T> = Ok(value: T) | Err(error: Error)

  /** What an end holds after a successful handshake. */
  datatype View = View(compressor: Option<Text>, flowControl: bool)

  function Name(compressor: Option<Text>): (t: Text)
  {
    if compressor.Some? then compressor.value else []
  }

  function Method(end: End): (t: Text)
  {
    if end.secret.Some? then HMAC_SHA256 else []
  }

  function ClientHello(client: End): (h: Hello)
  {
    Hello(PROTOCOL_VERSION, client.codec, client.name, Name(client.compressor), Method(client), [STREAM_CREDIT])
  }

  predicate Supports(name: Text, compressor: Option<Text>)
  {
    name == [] || compressor == Some(name)
  }

  /** serverHandshake up to its acknowledgement. */
  function ServerAck(server: End, hello: Hello, challenge: seq<Byte>): (r: Result<(Ack, View)>)
  {
    if hello.version != PROTOCOL_VERSION || hello.codec != server.codec then Err(ErrProtocol)
    else if !Supports(hello.compression, server.compressor) then Err(ErrProtocol)
    else
      var capabilities := if STREAM_CREDIT in hello.capabilities then [STREAM_CREDIT] else [];
      var ack := Ack(PROTOCOL_VERSION, server.codec, hello.compression, server.secret.Some?, Method(server),
                     if server.secret.Some? then challenge else [], capabilities);
      Ok((ack, View(if hello.compression != [] then server.compressor else None, capabilities != [])))
  }

  /** clientHandshake's checks of the acknowledgement, and clientAuth's before it signs. */
  function ClientAccepts(client: End, ack: Ack): (r: Result<View>)
  {
    if ack.version != PROTOCOL_VERSION || ack.codec != client.codec then Err(ErrProtocol)
    else if !Supports(ack.compression, client.compressor) then Err(ErrProtocol)
    else if client.compressor.Some? && ack.compression != client.compressor.value then Err(ErrProtocol)
    else if exists c | c in ack.capabilities :: c != STREAM_CREDIT then Err(ErrProtocol)
    else if ack.authRequired && (client.secret.None? || ack.authMethod != Method(client) || ack.challenge == [])
    then Err(ErrAuthentication)
    else Ok(View(client.compressor, ack.capabilities != []))
  }

  /** readAuth: the server recomputes the signature from its own view of the hello. */
  function ServerVerifies(server: End, hello: Hello, ack: Ack, method_: Text, signature: seq<Byte>,
                          hmac: (seq<Byte>, seq<Byte>) -> seq<Byte>): (r: Result<()>)
    requires server.secret.Some?
  {
    if method_ != Method(server) then Err(ErrAuthentication)
    else if hmac(server.secret.value,
                 Transcript(ack.challenge, hello.version, hello.codec, hello.name, ack.capabilities)) != signature
    then Err(ErrAuthentication)
    else Ok(())
  }

  function ClientSignature(client: End, ack: Ack, hmac: (seq<Byte>, seq<Byte>) -> seq<Byte>): (s: seq<Byte>)
    requires client.secret.Some?
  {
    hmac(client.secret.value, Transcript(ack.challenge, ack.version, ack.codec, client.name, ack.capabilities))
  }

  /** What each end makes of one complete exchange. `admitted` is the verdict of the peer
      manager's accept callback. The client ends last: it waits for the server's final word. */
  function Exchange(client: End, server: End, challenge: seq<Byte>, admitted: bool,
                    hmac: (seq<Byte>, seq<Byte>) -> seq<Byte>): (r: (Result<View>, Result<View>))
  {
    var hello := ClientHello(client);
    match ServerAck(server, hello, challenge)
    case Err(e) => (Err(ErrRejected), Err(e))
    case Ok((ack, serverView)) =>
      if server.secret.None? then
        if !admitted then (Err(ErrRejected), Err(ErrRejected))
        else (ClientAccepts(client, ack), Ok(serverView))
      else match ClientAccepts(client, ack)
        case Err(e) => (Err(e), Err(ErrAuthentication))
        case Ok(clientView) =>
          match ServerVerifies(server, hello, ack, Method(client), ClientSignature(client, ack, hmac), hmac)
          case Err(e) => (Err(ErrAuthentication), Err(e))
          case Ok(_) => if !admitted then (Err(ErrRejected), Err(ErrRejected)) else (Ok(clientView), Ok(serverView))
  }

  /** The server answers any hello of its own version and codec that asks for no compression or for
      its own, and no other; the answer grants stream credit exactly if asked, and a challenge
      exactly if the server has a secret. */
  lemma ServerAckIsExact(server: End, hello: Hello, challenge: seq<Byte>)
    requires Configured(server)
    ensures ServerAck(server, hello, challenge).Ok? <==>
      && hello.version == 1 && hello.codec == server.codec
      && (hello.compression == [] || server.compressor == Some(hello.compression))
    ensures ServerAck(server, hello, challenge).Err? ==> ServerAck(server, hello, challenge).error == ErrProtocol
    ensures ServerAck(server, hello, challenge).Ok? ==>
      var (ack, view) := ServerAck(server, hello, challenge).value;
      && ack.version == 1 && ack.codec == server.codec && ack.compression == hello.compression
      && (ack.authRequired <==> server.secret.Some?)
      && (server.secret.Some? ==> ack.authMethod == HMAC_SHA256 && ack.challenge == challenge)
      && (server.secret.None? ==> ack.authMethod == [] && ack.challenge == [])
      && ack.capabilities == (if STREAM_CREDIT in hello.capabilities then [STREAM_CREDIT] else [])
      && view == View(if hello.compression == [] then None else Some(hello.compression), ack.capabilities != [])
  {
  }

  /** The client takes any answer of its own version and codec that names exactly its compressor and
      no capability but stream credit, and if asked to authenticate, only for a challenge that it
      can sign by its own method. */
  lemma ClientAcceptsIsExact(client: End, ack: Ack)
    requires Configured(client)
    ensures ClientAccepts(client, ack).Ok? <==>
      && ack.version == 1 && ack.codec == client.codec
      && ack.compression == (if client.compressor.Some? then client.compressor.value else [])
      && (forall c | c in ack.capabilities :: c == STREAM_CREDIT)
      && (ack.authRequired ==> client.secret.Some? && ack.authMethod == HMAC_SHA256 && ack.challenge != [])
    ensures ClientAccepts(client, ack).Ok? ==>
      ClientAccepts(client, ack).value == View(client.compressor, ack.capabilities != [])
  {
  }

  /** The server admits exactly the method it asked for with the signature it computes itself. */
  lemma ServerVerifiesIsExact(server: End, hello: Hello, ack: Ack, method_: Text, signature: seq<Byte>,
                              hmac: (seq<Byte>, seq<Byte>) -> seq<Byte>)
    requires server.secret.Some?
    ensures ServerVerifies(server, hello, ack, method_, signature, hmac).Ok? <==>
      && method_ == HMAC_SHA256
      && signature == hmac(server.secret.value,
                           Transcript(ack.challenge, hello.version, hello.codec, hello.name, ack.capabilities))
  {
    hide Transcript;
  }

  predicate Configured(end: End)
  {
    end.compressor != Some([])
  }

  /** A client whose handshake succeeds shares the server's view: the same compressor and the
      same flow-control flag, and the server has succeeded too. */
  lemma EndsAgree(client: End, server: End, challenge: seq<Byte>, admitted: bool,
                  hmac: (seq<Byte>, seq<Byte>) -> seq<Byte>)
    requires Configured(client) && Configured(server)
    requires Exchange(client, server, challenge, admitted, hmac).0.Ok?
    ensures Exchange(client, server, challenge, admitted, hmac).1
            == Exchange(client, server, challenge, admitted, hmac).0
    ensures Exchange(client, server, challenge, admitted, hmac).0.value == View(client.compressor, true)
  {
    assert STREAM_CREDIT in [STREAM_CREDIT];
  }

  /** Exactly when it succeeds: the codecs match, the server has the client's compressor if it
      has one, the caller is admitted, and, when the server asks, the client can prove the key. */
  lemma SuccessIsExact(client: End, server: End, challenge: seq<Byte>, admitted: bool,
                       hmac: (seq<Byte>, seq<Byte>) -> seq<Byte>)
    requires Configured(client) && Configured(server) && |challenge| == 32
    ensures Exchange(client, server, challenge, admitted, hmac).0.Ok? <==>
      && admitted
      && client.codec == server.codec
      && (client.compressor.Some? ==> server.compressor == client.compressor)
      && (server.secret.Some? ==>
            && client.secret.Some?
            && var t := Transcript(challenge, PROTOCOL_VERSION, client.codec, client.name, [STREAM_CREDIT]);
               hmac(client.secret.value, t) == hmac(server.secret.value, t))
  {
    hide Transcript;
    assert STREAM_CREDIT in [STREAM_CREDIT];
    assert forall c | c in [STREAM_CREDIT] :: c == STREAM_CREDIT;
  }

  /** Against any hello, including an older client's, server and client read the same flag off
      the acknowledgement; it is set exactly when the hello offered stream credit. */
  lemma FlowControlIsNegotiated(client: End, server: End, hello: Hello, challenge: seq<Byte>)
    requires ServerAck(server, hello, challenge).Ok?
    requires ClientAccepts(client, ServerAck(server, hello, challenge).value.0).Ok?
    ensures var (ack, view) := ServerAck(server, hello, challenge).value;
      && ClientAccepts(client, ack).value.flowControl == view.flowControl
      && (view.flowControl <==> STREAM_CREDIT in hello.capabilities)
      && (!view.flowControl ==>
            Transcript(ack.challenge, ack.version, ack.codec, client.name, ack.capabilities)
            == LegacyTranscript(ack.challenge, ack.version, ack.codec, client.name))
  {
    var (ack, view) := ServerAck(server, hello, challenge).value;
    var legacy := LegacyTranscript(ack.challenge, ack.version, ack.codec, client.name);
    hide LegacyTranscript;
    assert legacy + [] == legacy;
  }
}
