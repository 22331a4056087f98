/**
One daemon connection: frame reassembly, the handshake, and request dispatch. What a stream of bytes
does is a function of the whole stream; the loops over chunks and buffers are proved to compute it.
*/
module Daemon {
  import opened Prelude

  type Byte = bv8
  const NEWLINE: Byte := 10

  datatype Version = Version(major: int, minor: int)
  datatype ClientContext = ClientContext(clientId: string, scopes: seq<string>)

  datatype Handshake = Handshake(
    protocol: Version, schema: int, context: ClientContext, capabilities: seq<string>, credential: Option<string>)

  datatype Request = Request(id: string, name: string, params: string, protocol: Version, schema: int)

  /** What the codec makes of one frame. */
  datatype Decoded = Invalid(message: string) | Hello(handshake: Handshake) | Call(request: Request) | OtherFrame

  datatype Negotiated = Negotiated(context: ClientContext, capabilities: seq<string>, protocol: Version, schema: int)

  datatype Message =
    | Accepted(capabilities: seq<string>)
    | Refused(code: string)
    | Result(requestId: string, body: string)
    | Failed(requestId: string, code: string)

  /** Everything observable on a connection, in order. */
  datatype Event =
    | Opened(handshake: Handshake, negotiated: Negotiated)
    | Handled(context: ClientContext, request: Request)
    | Sent(message: Message)

  /**
  The daemon around a connection. `handle` is the service with its own state; `delivered` says
  whether the n-th message of the connection can be sent.
  */
  datatype Server<!S> = Server(
    maxFrame: nat,
    protocol: Version,
    schema: int,
    capabilities: seq<string>,
    credentials: map<string, string>,
    fingerprint: string -> string,
    decode: seq<Byte> -> Decoded,
    capabilityOf: string -> string,
    handle: (S, ClientContext, Request) -> (S, Message),
    delivered: nat -> bool)

  datatype Session<S> = Session(service: S, connection: Option<Negotiated>, events: seq<Event>, sends: nat, open: bool)

  function Start<S>(service: S): Session<S> {
    Session(service, None, [], 0, true)
  }

  // ------------------------------------------------------------------
  // One frame
  // ------------------------------------------------------------------

  /** Send a message; the connection stays open only if the caller keeps it and the message went out. */
  function Send<S>(server: Server<S>, s: Session<S>, m: Message, keep: bool): Session<S> {
    s.(events := s.events + [Sent(m)], sends := s.sends + 1, open := keep && server.delivered(s.sends))
  }

  /** `_send_protocol_error`, after which the connection closes. */
  function ProtocolError<S>(server: Server<S>, s: Session<S>, code: string): Session<S> {
    Send(server, s, if s.connection.None? then Refused(code) else Failed("invalid", code), false)
  }

  /** The server's capabilities that the client wants, in the server's order. */
  function Shared(offered: seq<string>, wanted: seq<string>): (both: seq<string>)
    ensures forall c :: c in both <==> c in offered && c in wanted
    ensures IsFiltered(offered, both, c => c in wanted)
  {
    FilterPicks(offered, c => c in wanted);
    Filter(offered, c => c in wanted)
  }

  predicate CredentialOk<S>(server: Server<S>, h: Handshake) {
    |server.credentials| == 0
    || (h.context.clientId in server.credentials
        && server.credentials[h.context.clientId]
           == if h.credential.Some? then "sha256:" + server.fingerprint(h.credential.value) else "")
  }

  /** `_negotiate`: the refusal code, or the negotiated connection. */
  function Negotiate<S>(server: Server<S>, h: Handshake): (r: (Option<Negotiated>, string)) {
    if h.protocol.major != server.protocol.major then (None, "incompatible_protocol_major")
    else if h.protocol.minor > server.protocol.minor then (None, "incompatible_protocol_minor")
    else if h.schema != server.schema then (None, "incompatible_schema")
    else if !CredentialOk(server, h) then (None, "invalid_client_credentials")
    else (Some(Negotiated(h.context, Shared(server.capabilities, h.capabilities), h.protocol, h.schema)), "")
  }

  function RequestIncompatibility(n: Negotiated, r: Request): Option<string> {
    if r.protocol != n.protocol then Some("connection_protocol_changed")
    else if r.schema != n.schema then Some("connection_schema_changed")
    else None
  }

  /** `_handle_frame`. */
  function HandleFrame<S>(server: Server<S>, s: Session<S>, frame: seq<Byte>): Session<S> {
    var decoded := server.decode(frame);
    if decoded.Invalid? then ProtocolError(server, s, "invalid_frame")
    else if s.connection.None? then
      if !decoded.Hello? then Send(server, s, Refused("handshake_required"), false)
      else
        var (negotiated, code) := Negotiate(server, decoded.handshake);
        if negotiated.None? then Send(server, s, Refused(code), false)
        else
          var joined := s.(connection := negotiated,
            events := s.events + [Opened(decoded.handshake, negotiated.value)]);
          Send(server, joined, Accepted(negotiated.value.capabilities), true)
    else if !decoded.Call? then ProtocolError(server, s, "request_required")
    else
      var n, r := s.connection.value, decoded.request;
      var clash := RequestIncompatibility(n, r);
      if clash.Some? then Send(server, s, Failed(r.id, clash.value), false)
      else if server.capabilityOf(r.name) !in n.capabilities then
        Send(server, s, Failed(r.id, "capability_not_negotiated"), true).(open := true)
      else
        var (service, answer) := server.handle(s.service, n.context, r);
        Send(server, s.(service := service, events := s.events + [Handled(n.context, r)]), answer, true)
  }

  /** The server keeps no credentials, or the client's is on file as the fingerprint of what it sent. */
  ghost predicate Trusted<S>(server: Server<S>, h: Handshake) {
    server.credentials.Keys != {} ==>
      && h.context.clientId in server.credentials
      && (h.credential.Some? ==>
            server.credentials[h.context.clientId] == "sha256:" + server.fingerprint(h.credential.value))
      && (h.credential.None? ==> server.credentials[h.context.clientId] == "")
  }

  /** The refusal names the first thing on which client and server disagree. */
  ghost predicate Objects<S>(server: Server<S>, h: Handshake, code: string) {
    if h.protocol.major != server.protocol.major then code == "incompatible_protocol_major"
    else if server.protocol.minor < h.protocol.minor then code == "incompatible_protocol_minor"
    else if h.schema != server.schema then code == "incompatible_schema"
    else !Trusted(server, h) && code == "invalid_client_credentials"
  }

  /** The reply went out, or the connection is over. */
  ghost predicate Replied<S>(server: Server<S>, s: Session<S>, t: Session<S>, events: seq<Event>, keep: bool) {
    t.events == s.events + events && t.sends == s.sends + 1 && (t.open <==> keep && server.delivered(s.sends))
  }

  /**
  A handshake opens the connection if and only if major version, minor version, schema and
  credential agree. The reply lists the shared capabilities in the server's order, or says what the
  first disagreement is, and then the connection closes.
  */
  lemma HandshakeIsAnswered<S>(server: Server<S>, s: Session<S>, frame: seq<Byte>)
    requires s.connection.None? && server.decode(frame).Hello?
    ensures var h, t := server.decode(frame).handshake, HandleFrame(server, s, frame);
      && t.service == s.service
      && (t.connection.Some? <==>
            && h.protocol.major == server.protocol.major && h.protocol.minor <= server.protocol.minor
            && h.schema == server.schema && Trusted(server, h))
      && (t.connection.Some? ==>
            var n := t.connection.value;
            && n.context == h.context && n.protocol == h.protocol && n.schema == h.schema
            && IsFiltered(server.capabilities, n.capabilities, c => c in h.capabilities)
            && Replied(server, s, t, [Opened(h, n), Sent(Accepted(n.capabilities))], true))
      && (t.connection.None? ==>
            exists code :: Objects(server, h, code) && Replied(server, s, t, [Sent(Refused(code))], false))
  {
    var h, t := server.decode(frame).handshake, HandleFrame(server, s, frame);
    var (negotiated, code) := Negotiate(server, h);
    assert |server.credentials| == 0 <==> server.credentials.Keys == {};
    if negotiated.None? {
      assert Objects(server, h, code) && Replied(server, s, t, [Sent(Refused(code))], false);
    } else {
      var n := negotiated.value;
      assert s.events + [Opened(h, n)] + [Sent(Accepted(n.capabilities))]
        == s.events + [Opened(h, n), Sent(Accepted(n.capabilities))];
    }
  }

  /**
  On an open connection a request on its protocol and schema is handled, and answered by what the
  service says, if and only if its capability was negotiated. Without the capability the connection
  stays open even if the reply does not go out; a changed protocol or schema closes it.
  */
  lemma RequestIsAnswered<S>(server: Server<S>, s: Session<S>, frame: seq<Byte>)
    requires s.connection.Some? && server.decode(frame).Call?
    ensures var n, r, t := s.connection.value, server.decode(frame).request, HandleFrame(server, s, frame);
      && t.connection == s.connection
      && if r.protocol != n.protocol || r.schema != n.schema then
           && t.service == s.service
           && Replied(server, s, t, [Sent(Failed(r.id, if r.protocol == n.protocol then "connection_schema_changed"
                                                       else "connection_protocol_changed"))], false)
         else if server.capabilityOf(r.name) in n.capabilities then
           var (service, answer) := server.handle(s.service, n.context, r);
           t.service == service && Replied(server, s, t, [Handled(n.context, r), Sent(answer)], true)
         else
           && t.service == s.service && t.open && t.sends == s.sends + 1
           && t.events == s.events + [Sent(Failed(r.id, "capability_not_negotiated"))]
  {
    var n, r := s.connection.value, server.decode(frame).request;
    var (service, answer) := server.handle(s.service, n.context, r);
    assert s.events + [Handled(n.context, r)] + [Sent(answer)] == s.events + [Handled(n.context, r), Sent(answer)];
  }

  /**
  Any other frame is answered by an error, which a client without a handshake gets as a refusal, and ends the
  connection.
  */
  lemma StrayFrameEnds<S>(server: Server<S>, s: Session<S>, frame: seq<Byte>)
    requires var decoded := server.decode(frame);
      if s.connection.None? then !decoded.Hello? else !decoded.Call?
    ensures var t := HandleFrame(server, s, frame);
      && t.service == s.service && t.connection == s.connection
      && Replied(server, s, t,
           [Sent(if s.connection.None? then
                   Refused(if server.decode(frame).Invalid? then "invalid_frame" else "handshake_required")
                 else Failed("invalid",
                   if server.decode(frame).Invalid? then "invalid_frame" else "request_required"))],
           false)
  {
  }

  // ------------------------------------------------------------------
  // The byte stream as a whole
  // ------------------------------------------------------------------

  /** The first newline. */
  function FindNewline(bytes: seq<Byte>): (at: Option<nat>)
    ensures at.Some? ==> at.value < |bytes| && bytes[at.value] == NEWLINE && forall i :: 0 <= i < at.value ==>
      bytes[i] != NEWLINE
    ensures at.None? ==> forall i :: 0 <= i < |bytes| ==> bytes[i] != NEWLINE
  {
    if bytes == [] then None
    else if bytes[0] == NEWLINE then Some(0)
    else match FindNewline(bytes[1..]) case None => None case Some(i) => Some(i + 1)
  }

  /** What the connection does with a whole stream, cut at its newlines. */
  function ServeStream<S>(server: Server<S>, s: Session<S>, bytes: seq<Byte>): Session<S>
    decreases |bytes|
  {
    if !s.open then s
    else
      match FindNewline(bytes)
      case None => if |bytes| > server.maxFrame then ProtocolError(server, s, "frame_too_large") else s
      case Some(i) =>
        if i > server.maxFrame then ProtocolError(server, s, "frame_too_large")
        else ServeStream(server, HandleFrame(server, s, bytes[..i]), bytes[i + 1..])
  }

  /** The bytes received: `recv` ends the stream with an empty chunk. */
  function Received(chunks: seq<seq<Byte>>): seq<Byte> {
    if chunks == [] || chunks[0] == [] then [] else chunks[0] + Received(chunks[1..])
  }

  lemma FindInPrefix(bytes: seq<Byte>, rest: seq<Byte>)
    ensures FindNewline(bytes).Some? ==> FindNewline(bytes + rest) == FindNewline(bytes)
    ensures FindNewline(bytes).None? ==> FindNewline(bytes + rest).None? || FindNewline(bytes + rest).value >= |bytes|
  {
    var whole := FindNewline(bytes + rest);
    if FindNewline(bytes).Some? {
      assert (bytes + rest)[FindNewline(bytes).value] == NEWLINE;
    }
    if whole.Some? && whole.value < |bytes| {
      assert bytes[whole.value] == NEWLINE;
    }
  }

  /** More than a frame's worth of bytes without a newline is rejected, whatever follows. */
  lemma OverflowIsFinal<S>(server: Server<S>, s: Session<S>, buffer: seq<Byte>, rest: seq<Byte>)
    requires s.open && FindNewline(buffer).None? && |buffer| > server.maxFrame
    ensures ServeStream(server, s, buffer + rest) == ProtocolError(server, s, "frame_too_large")
  {
    FindInPrefix(buffer, rest);
  }

  lemma SplitPrefix(buffer: seq<Byte>, rest: seq<Byte>, i: nat)
    requires i < |buffer|
    ensures (buffer + rest)[..i] == buffer[..i] && (buffer + rest)[i + 1..] == buffer[i + 1..] + rest
  {
  }

  lemma FrameIsNext<S>(server: Server<S>, s: Session<S>, buffer: seq<Byte>, rest: seq<Byte>)
    requires s.open && FindNewline(buffer).Some?
    ensures var i := FindNewline(buffer).value;
      ServeStream(server, s, buffer + rest)
      == if i > server.maxFrame then ProtocolError(server, s, "frame_too_large")
         else ServeStream(server, HandleFrame(server, s, buffer[..i]), buffer[i + 1..] + rest)
  {
    FindInPrefix(buffer, rest);
    SplitPrefix(buffer, rest, FindNewline(buffer).value);
  }

  /** The inner loop of `_serve_client`: take every whole frame out of the buffer. */
  method DrainBuffer<S>(server: Server<S>, s: Session<S>, buffer: seq<Byte>, ghost rest: seq<Byte>)
    returns (t: Session<S>, left: seq<Byte>)
    requires s.open
    ensures ServeStream(server, s, buffer + rest) == ServeStream(server, t, left + rest)
    ensures t.open ==> FindNewline(left).None? && |left| <= server.maxFrame
  {
    t, left := s, buffer;
    while true
      invariant t.open && ServeStream(server, s, buffer + rest) == ServeStream(server, t, left + rest)
      decreases |left|
    {
      var newline := FindNewline(left);
      if newline.None? {
        if |left| > server.maxFrame {
          OverflowIsFinal(server, t, left, rest);
          t := ProtocolError(server, t, "frame_too_large");
        }
        return;
      }
      FrameIsNext(server, t, left, rest);
      var frame := left[..newline.value];
      left := left[newline.value + 1..];
      if |frame| > server.maxFrame {
        t := ProtocolError(server, t, "frame_too_large");
        return;
      }
      t := HandleFrame(server, t, frame);
      if !t.open {
        return;
      }
    }
  }

  lemma NextChunk(chunks: seq<seq<Byte>>, n: nat, buffer: seq<Byte>)
    requires n < |chunks|
    ensures chunks[n] == [] ==> buffer + Received(chunks[n..]) == buffer
    ensures chunks[n] != [] ==> buffer + Received(chunks[n..]) == (buffer + chunks[n]) + Received(chunks[n + 1..])
  {
    assert chunks[n..][0] == chunks[n] && chunks[n..][1..] == chunks[n + 1..];
  }

  /** `_serve_client`: the session depends on the bytes received and not on how they were chunked. */
  method ServeClient<S>(server: Server<S>, service: S, chunks: seq<seq<Byte>>) returns (t: Session<S>)
    ensures t == ServeStream(server, Start(service), Received(chunks))
  {
    t := Start(service);
    var buffer: seq<Byte> := [];
    var n := 0;
    assert chunks[0..] == chunks && [] + Received(chunks) == Received(chunks);
    while n < |chunks|
      invariant n <= |chunks| && t.open
      invariant FindNewline(buffer).None? && |buffer| <= server.maxFrame
      invariant ServeStream(server, Start(service), Received(chunks))
        == ServeStream(server, t, buffer + Received(chunks[n..]))
    {
      var chunk := chunks[n];
      NextChunk(chunks, n, buffer);
      if chunk == [] {
        return;
      }
      t, buffer := DrainBuffer(server, t, buffer + chunk, Received(chunks[n + 1..]));
      n := n + 1;
      if !t.open {
        return;
      }
    }
    assert chunks[n..] == [] && buffer + [] == buffer;
  }

  // ------------------------------------------------------------------
  // The handshake guards every handler call
  // ------------------------------------------------------------------

  /** The handshake is one the daemon must accept, and this is what it grants. */
  ghost predicate Grants<S>(server: Server<S>, h: Handshake, n: Negotiated) {
    && h.protocol.major == server.protocol.major && h.protocol.minor <= server.protocol.minor
    && h.schema == server.schema && Trusted(server, h)
    && n.context == h.context && n.protocol == h.protocol && n.schema == h.schema
    && (forall c :: c in n.capabilities <==> c in server.capabilities && c in h.capabilities)
  }

  /** The call is made in the name of the negotiated client, on its protocol, schema and capabilities. */
  ghost predicate Authorized<S>(server: Server<S>, n: Negotiated, e: Event) {
    e.Handled? ==>
      && e.context == n.context
      && e.request.protocol == n.protocol && e.request.schema == n.schema
      && server.capabilityOf(e.request.name) in n.capabilities
  }

  /** Before the handshake nothing is handled; after it, it stands once in the log, before every handled call. */
  ghost predicate LogOk<S>(server: Server<S>, s: Session<S>) {
    if s.connection.None? then forall i :: 0 <= i < |s.events| ==> s.events[i].Sent?
    else exists at :: OpenedAt(server, s, at)
  }

  ghost predicate OpenedAt<S>(server: Server<S>, s: Session<S>, at: nat)
    requires s.connection.Some?
  {
    && at < |s.events| && s.events[at].Opened? && s.events[at].negotiated == s.connection.value
    && Grants(server, s.events[at].handshake, s.connection.value)
    && (forall i :: 0 <= i < |s.events| && i != at ==> !s.events[i].Opened?)
    && (forall i :: 0 <= i < |s.events| && s.events[i].Handled? ==> at < i)
    && (forall i :: 0 <= i < |s.events| ==> Authorized(server, s.connection.value, s.events[i]))
  }

  lemma AppendKeepsOpened<S>(server: Server<S>, s: Session<S>, t: Session<S>, e: Event, at: nat)
    requires s.connection.Some? && OpenedAt(server, s, at)
    requires t.connection == s.connection && t.events == s.events + [e]
    requires !e.Opened? && Authorized(server, s.connection.value, e)
    ensures OpenedAt(server, t, at)
  {
  }

  lemma SendKeepsLog<S>(server: Server<S>, s: Session<S>, m: Message, keep: bool)
    requires LogOk(server, s)
    ensures LogOk(server, Send(server, s, m, keep))
  {
    if s.connection.Some? {
      var at :| OpenedAt(server, s, at);
      AppendKeepsOpened(server, s, Send(server, s, m, keep), Sent(m), at);
    }
  }

  lemma OpeningKeepsLog<S>(server: Server<S>, s: Session<S>, h: Handshake)
    requires LogOk(server, s) && s.connection.None? && Negotiate(server, h).0.Some?
    ensures var n := Negotiate(server, h).0.value;
      LogOk(server, s.(connection := Some(n), events := s.events + [Opened(h, n)]))
  {
    var n := Negotiate(server, h).0.value;
    var t := s.(connection := Some(n), events := s.events + [Opened(h, n)]);
    assert |server.credentials| == 0 <==> server.credentials.Keys == {};
    assert OpenedAt(server, t, |s.events|);
  }

  lemma HandlingKeepsLog<S>(server: Server<S>, s: Session<S>, service: S, r: Request)
    requires LogOk(server, s) && s.connection.Some? && RequestIncompatibility(s.connection.value, r).None?
    requires server.capabilityOf(r.name) in s.connection.value.capabilities
    ensures LogOk(server, s.(service := service, events := s.events + [Handled(s.connection.value.context, r)]))
  {
    var e := Handled(s.connection.value.context, r);
    var t := s.(service := service, events := s.events + [e]);
    var at :| OpenedAt(server, s, at);
    AppendKeepsOpened(server, s, t, e, at);
  }

  lemma HelloKeepsLog<S>(server: Server<S>, s: Session<S>, frame: seq<Byte>)
    requires LogOk(server, s) && s.connection.None? && server.decode(frame).Hello?
    ensures LogOk(server, HandleFrame(server, s, frame))
  {
    var h := server.decode(frame).handshake;
    var (negotiated, code) := Negotiate(server, h);
    if negotiated.None? {
      SendKeepsLog(server, s, Refused(code), false);
    } else {
      OpeningKeepsLog(server, s, h);
      var joined := s.(connection := negotiated, events := s.events + [Opened(h, negotiated.value)]);
      SendKeepsLog(server, joined, Accepted(negotiated.value.capabilities), true);
    }
  }

  lemma CallKeepsLog<S>(server: Server<S>, s: Session<S>, frame: seq<Byte>)
    requires LogOk(server, s) && s.connection.Some? && server.decode(frame).Call?
    ensures LogOk(server, HandleFrame(server, s, frame))
  {
    var n, r := s.connection.value, server.decode(frame).request;
    var clash := RequestIncompatibility(n, r);
    if clash.Some? {
      SendKeepsLog(server, s, Failed(r.id, clash.value), false);
    } else if server.capabilityOf(r.name) !in n.capabilities {
      SendKeepsLog(server, s, Failed(r.id, "capability_not_negotiated"), true);
      OpenIsIrrelevant(server, Send(server, s, Failed(r.id, "capability_not_negotiated"), true));
    } else {
      var (service, answer) := server.handle(s.service, n.context, r);
      HandlingKeepsLog(server, s, service, r);
      SendKeepsLog(server, s.(service := service, events := s.events + [Handled(n.context, r)]), answer, true);
    }
  }

  lemma FrameKeepsLog<S>(server: Server<S>, s: Session<S>, frame: seq<Byte>)
    requires LogOk(server, s)
    ensures LogOk(server, HandleFrame(server, s, frame))
  {
    var decoded := server.decode(frame);
    if s.connection.None? && decoded.Hello? {
      HelloKeepsLog(server, s, frame);
    } else if s.connection.Some? && decoded.Call? {
      CallKeepsLog(server, s, frame);
    } else {
      SendKeepsLog(server, s, Refused("handshake_required"), false);
      SendKeepsLog(server, s, Refused("invalid_frame"), false);
      SendKeepsLog(server, s, Failed("invalid", "invalid_frame"), false);
      SendKeepsLog(server, s, Failed("invalid", "request_required"), false);
    }
  }

  lemma OpenIsIrrelevant<S>(server: Server<S>, s: Session<S>)
    requires LogOk(server, s)
    ensures LogOk(server, s.(open := true))
  {
    if s.connection.Some? {
      var at :| OpenedAt(server, s, at);
      assert OpenedAt(server, s.(open := true), at);
    }
  }

  lemma {:induction false} StreamKeepsLog<S>(server: Server<S>, s: Session<S>, bytes: seq<Byte>)
    requires LogOk(server, s)
    ensures LogOk(server, ServeStream(server, s, bytes))
    decreases |bytes|
  {
    SendKeepsLog(server, s,
      if s.connection.None? then Refused("frame_too_large") else Failed("invalid", "frame_too_large"), false);
    var newline := FindNewline(bytes);
    if s.open && newline.Some? && newline.value <= server.maxFrame {
      FrameKeepsLog(server, s, bytes[..newline.value]);
      StreamKeepsLog(server, HandleFrame(server, s, bytes[..newline.value]), bytes[newline.value + 1..]);
    }
  }

  /**
  On every connection and for every byte stream: a handler call happens only after the one accepted
  handshake, in the name of that handshake's client, on its protocol and schema, and only for a
  method whose capability was negotiated.
  */
  lemma EveryCallIsAuthorized<S>(server: Server<S>, service: S, bytes: seq<Byte>, i: nat)
    requires i < |ServeStream(server, Start(service), bytes).events|
    requires ServeStream(server, Start(service), bytes).events[i].Handled?
    ensures var s := ServeStream(server, Start(service), bytes);
      && s.connection.Some? && Authorized(server, s.connection.value, s.events[i])
      && exists at :: 0 <= at < i && OpenedAt(server, s, at)
  {
    StreamKeepsLog(server, Start(service), bytes);
    var s := ServeStream(server, Start(service), bytes);
    var at :| OpenedAt(server, s, at);
  }

  // ------------------------------------------------------------------
  // A client that agrees with the server is served
  // ------------------------------------------------------------------

  lemma FirstFrame<S>(server: Server<S>, s: Session<S>, frame: seq<Byte>, rest: seq<Byte>)
    requires s.open && |frame| <= server.maxFrame && forall i :: 0 <= i < |frame| ==> frame[i] != NEWLINE
    ensures ServeStream(server, s, frame + [NEWLINE] + rest) == ServeStream(server, HandleFrame(server, s, frame), rest)
  {
    var buffer := frame + [NEWLINE];
    assert buffer[|frame|] == NEWLINE && buffer[..|frame|] == frame && buffer[|frame| + 1..] + rest == rest;
    assert FindNewline(buffer) == Some(|frame|);
    FrameIsNext(server, s, buffer, rest);
  }

  /**
  A client on the server's protocol and schema that is trusted and asks, in its second frame, for
  something both sides are capable of, gets its capabilities and then the service's answer.
  */
  lemma AgreeingClientIsServed<S>(server: Server<S>, service: S, hello: seq<Byte>, call: seq<Byte>)
    requires |hello| <= server.maxFrame && |call| <= server.maxFrame && NEWLINE !in hello && NEWLINE !in call
    requires server.decode(hello).Hello? && server.decode(call).Call? && server.delivered(0) && server.delivered(1)
    requires var h, r := server.decode(hello).handshake, server.decode(call).request;
      && h.protocol.major == server.protocol.major && h.protocol.minor <= server.protocol.minor
      && h.schema == server.schema && Trusted(server, h) && r.protocol == h.protocol && r.schema == h.schema
      && server.capabilityOf(r.name) in server.capabilities && server.capabilityOf(r.name) in h.capabilities
    ensures var h, r := server.decode(hello).handshake, server.decode(call).request;
      var t := ServeStream(server, Start(service), hello + [NEWLINE] + (call + [NEWLINE]));
      && t.open && t.service == server.handle(service, h.context, r).0
      && exists n ::
        && Grants(server, h, n)
        && t.events == [Opened(h, n), Sent(Accepted(n.capabilities)), Handled(h.context, r),
                        Sent(server.handle(service, h.context, r).1)]
  {
    var start := Start(service);
    var h, r := server.decode(hello).handshake, server.decode(call).request;
    HandshakeIsAnswered(server, start, hello);
    var joined := HandleFrame(server, start, hello);
    var n := joined.connection.value;
    FilterIffPicks(server.capabilities, n.capabilities, c => c in h.capabilities);
    assert Grants(server, h, n) && joined.events == [Opened(h, n), Sent(Accepted(n.capabilities))];
    CallIsServed(server, joined, call);
    FirstFrame(server, start, hello, call + [NEWLINE]);
  }

  lemma CallIsServed<S>(server: Server<S>, s: Session<S>, call: seq<Byte>)
    requires s.open && s.connection.Some? && |call| <= server.maxFrame && NEWLINE !in call
    requires server.decode(call).Call? && server.delivered(s.sends)
    requires var n, r := s.connection.value, server.decode(call).request;
      r.protocol == n.protocol && r.schema == n.schema && server.capabilityOf(r.name) in n.capabilities
    ensures var n, r, t := s.connection.value, server.decode(call).request, ServeStream(server, s, call + [NEWLINE]);
      var (service, answer) := server.handle(s.service, n.context, r);
      t.open && t.service == service && t.events == s.events + [Handled(n.context, r), Sent(answer)]
  {
    assert call + [NEWLINE] == call + [NEWLINE] + [];
    FirstFrame(server, s, call, []);
    RequestIsAnswered(server, s, call);
  }
}
