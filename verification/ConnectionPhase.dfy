/** How a connection comes up: CONNECT, optional rounds of enhanced authentication, CONNACK
    (client_handler.go, client_handler_connect.go, client_handler_auth_disconnect.go,
    client_handler_publish.go, client_io.go, connack_failure.go, client_lifecycle.go).

    Handlers run one at a time under the client's lock. Plugins, the session store and the
    network answer through parameters; a delivery runner and broker-side closes interleave. */
module ConnectionPhase {
  import opened Options

  const AUTH_SUCCESS: nat := 0x00
  const AUTH_CONTINUE: nat := 0x18
  const AUTH_REAUTHENTICATE: nat := 0x19
  const CONNACK_PROTOCOL_ERROR: nat := 0x82
  const CONNACK_NOT_AUTHORIZED: nat := 0x87

  predicate IsError(code: nat) {
    code >= 0x80
  }

  datatype ConnectPacket = ConnectPacket(clientID: string, scheme: string)

  datatype Packet =
    | Connect(connect: ConnectPacket)
    | Auth(scheme: string, code: nat)
    | Disconnect(allowed: bool)
    | Business                         // PUBLISH, SUBSCRIBE, UNSUBSCRIBE, PINGREQ, acknowledgements
    | ServerOnly                       // CONNACK, SUBACK, UNSUBACK, PINGRESP

  datatype Sent = ConnAckSent(code: nat) | AuthSent | DisconnectSent | OtherSent

  // Outcome of one write: on the wire, lost, or over the client's Maximum Packet Size; in the
  // last case the connection closes, after a DISCONNECT if one fits and may be sent.
  datatype Wrote = Went | Lost | TooBig(tells: bool)

  datatype AuthState = NoAuth | Authenticating | Authenticated | Reauthenticating

  // A plugin's answer to an AUTH packet.
  datatype Reply = Failed(code: nat) | Answer(code: nat)

  // What completing a CONNECT depends on.
  datatype Completion = Completion(admission: nat, plugin: bool, session: bool, w: Wrote)

  datatype Conn = Conn(
    id: string,
    auth: AuthState,
    pending: Option<ConnectPacket>,
    scheme: string,
    accepted: bool,                    // connAckAccepted
    closed: bool,
    left: bool,                        // the read loop has returned
    running: bool,                     // the delivery runner was started
    wire: seq<Sent>,
    asked: Option<ConnectPacket>,      // the CONNECT that was taken up
    proven: bool,                      // a plugin reported successful authentication
    completed: Option<ConnectPacket>)  // the CONNECT that was answered with success

  datatype Action =
    | Receive(p: Packet, oversized: bool, refusal: nat, newID: string, reply: Reply, done: Completion,
              replies: seq<Sent>, ok: bool, w: Wrote)
    | ReadError(connect: bool, code: nat, w: Wrote)
    | ServerClose(w: Wrote)
    | RunnerWrites(sent: Sent, w: Wrote)
    | Leave

  // ---- writing and closing ----

  function Closed(c: Conn): Conn {
    c.(closed := true)
  }

  function Written(c: Conn, p: Sent, w: Wrote): (r: Conn)
    ensures r.asked == c.asked
  {
    if c.closed then c
    else
      match w
      case Went =>
        c.(wire := c.wire + [p], accepted := c.accepted || (p.ConnAckSent? && !IsError(p.code)))
      case Lost => c
      case TooBig(tells) =>
        Closed(if c.accepted && tells then c.(wire := c.wire + [DisconnectSent]) else c)
  }

  predicate Delivered(c: Conn, w: Wrote) {
    !c.closed && w.Went?
  }

  function Left(c: Conn): Conn {
    c.(left := true)
  }

  /** failProtocol: DISCONNECT only if CONNACK was accepted, then close and report an error. */
  function FailProtocol(c: Conn, w: Wrote): Conn {
    Left(Closed(if c.accepted then Written(c, DisconnectSent, w) else c))
  }

  /** A failing CONNACK, then close and report an error. */
  function FailConnect(c: Conn, code: nat, w: Wrote): Conn {
    Left(Closed(Written(c, ConnAckSent(code), w)))
  }

  // ---- handlers ----

  function CompleteConnect(c: Conn, k: ConnectPacket, d: Completion): (r: Conn)
    ensures r.asked == c.asked
  {
    if d.admission != 0 then FailConnect(c, d.admission, d.w)
    else if !d.plugin then FailConnect(c, CONNACK_NOT_AUTHORIZED, d.w)
    else
      var e := c.(scheme := k.scheme);
      if !d.session then Left(e)
      else
        var f := Written(e, ConnAckSent(0), d.w);
        if Delivered(e, d.w) then f.(running := true, completed := Some(k)) else Left(f)
  }

  /** An AUTH to the client; a lost one ends the read loop. */
  function SendAuth(c: Conn, w: Wrote): (r: Conn)
    ensures r.asked == c.asked
  {
    var d := Written(c, AuthSent, w);
    if Delivered(c, w) then d else Left(d)
  }

  /** handleInitialEnhancedAuth, for a CONNECT that names an authentication method. */
  function InitialAuth(c: Conn, k: ConnectPacket, reply: Reply, d: Completion, w: Wrote): Conn {
    var e := c.(scheme := k.scheme);
    match reply
    case Failed(code) => FailConnect(e, code, w)
    case Answer(code) =>
      if code == AUTH_SUCCESS then CompleteConnect(e.(auth := Authenticated, proven := true), k, d)
      else if code == AUTH_CONTINUE then SendAuth(e.(auth := Authenticating, pending := Some(k)), w)
      else FailConnect(e, CONNACK_NOT_AUTHORIZED, w)
  }

  function HandleConnect(c: Conn, k: ConnectPacket, refusal: nat, newID: string, reply: Reply, d: Completion,
                         w: Wrote): Conn
  {
    if refusal != 0 then Left(Written(c, ConnAckSent(refusal), w))
    else
      var e := c.(id := if k.clientID == "" then newID else k.clientID, asked := Some(k));
      if k.scheme == "" || e.auth.Authenticated? then CompleteConnect(e, k, d)
      else InitialAuth(e, k, reply, d, w)
  }

  function AuthDuringConnect(c: Conn, reply: Reply, d: Completion, w: Wrote): (r: Conn)
    ensures r.asked == c.asked
  {
    match reply
    case Failed(code) => FailConnect(c, code, w)
    case Answer(code) =>
      if code == AUTH_CONTINUE then SendAuth(c, w)
      else if code != AUTH_SUCCESS then FailConnect(c, CONNACK_NOT_AUTHORIZED, w)
      else if c.pending.None? then FailConnect(c, CONNACK_PROTOCOL_ERROR, w)
      else CompleteConnect(c.(pending := None, auth := Authenticated, proven := true), c.pending.value, d)
  }

  function AuthAfterConnect(c: Conn, reply: Reply, w: Wrote): (r: Conn)
    ensures r.asked == c.asked
  {
    match reply
    case Failed(_) => FailProtocol(c, w)
    case Answer(code) =>
      if code == AUTH_CONTINUE then SendAuth(c.(auth := Reauthenticating), w)
      else if code == AUTH_SUCCESS then SendAuth(c.(auth := Authenticated), w)
      else FailProtocol(c, w)
  }

  function HandleAuth(c: Conn, scheme: string, code: nat, reply: Reply, d: Completion, w: Wrote): (r: Conn)
    ensures r.asked == c.asked
  {
    if scheme == "" || c.scheme == "" || scheme != c.scheme then FailProtocol(c, w)
    else
      match c.auth
      case Authenticating =>
        if code == AUTH_CONTINUE then AuthDuringConnect(c, reply, d, w) else FailProtocol(c, w)
      case Authenticated =>
        if code == AUTH_REAUTHENTICATE then AuthAfterConnect(c, reply, w) else FailProtocol(c, w)
      case Reauthenticating =>
        if code == AUTH_CONTINUE then AuthAfterConnect(c, reply, w) else FailProtocol(c, w)
      case NoAuth => FailProtocol(c, w)
  }

  /** Any other handler: it may write, DISCONNECT included, without asking whether CONNACK was
      accepted, and may end the connection. */
  function Serve(c: Conn, replies: seq<Sent>, ok: bool): Conn {
    var d := if c.closed then c else c.(wire := c.wire + replies);
    if ok then d else Left(Closed(d))
  }

  predicate OutOfPhase(c: Conn, p: Packet) {
    || (!p.Connect? && c.id == "")
    || (p.Connect? && c.id != "")
    || (c.auth.Authenticating? && !p.Auth? && !p.Disconnect?)
    || p.ServerOnly?
  }

  function HandlePacket(c: Conn, a: Action): Conn
    requires a.Receive?
  {
    if a.oversized then FailProtocol(c, a.w)
    else if OutOfPhase(c, a.p) then FailProtocol(c, a.w)
    else
      match a.p
      case Connect(k) => HandleConnect(c, k, a.refusal, a.newID, a.reply, a.done, a.w)
      case Auth(scheme, code) => HandleAuth(c, scheme, code, a.reply, a.done, a.w)
      case Disconnect(allowed) => if allowed then Closed(c) else FailProtocol(c, a.w)
      case Business => Serve(c, a.replies, a.ok)
      case ServerOnly => c
  }

  // ---- runs ----

  predicate Ordinary(q: seq<Sent>) {
    forall i :: 0 <= i < |q| ==> q[i].DisconnectSent? || q[i].OtherSent?
  }

  /** What the read loop, the plugins and the delivery runner can bring about in a state. */
  predicate Enabled(left: bool, running: bool, a: Action) {
    match a
    case Receive(_, _, refusal, newID, reply, _, replies, _, _) =>
      && !left && (refusal != 0 ==> IsError(refusal)) && newID != ""
      && (reply.Failed? ==> IsError(reply.code)) && Ordinary(replies)
    case ReadError(_, code, _) => !left && IsError(code)
    case RunnerWrites(p, _) => running && Ordinary([p])
    case _ => true
  }

  ghost predicate Step(c: Conn, a: Action, c': Conn) {
    && Enabled(c.left, c.running, a)
    && match a
       case Receive(_, _, _, _, _, _, _, _, _) => c' == HandlePacket(c, a)
       case ReadError(connect, code, w) =>
         c' == Left(if c.accepted then Written(c, DisconnectSent, w)
                    else if connect then Written(c, ConnAckSent(code), w) else c)
       case ServerClose(w) => c' == Closed(if c.accepted then Written(c, DisconnectSent, w) else c)
       case RunnerWrites(p, w) => c' == Written(c, p, w)
       case Leave => c' == Left(Closed(c))
  }

  ghost predicate Init(c: Conn) {
    c == Conn("", NoAuth, None, "", false, false, false, false, [], None, false, None)
  }

  ghost predicate Run(run: seq<Conn>, acts: seq<Action>) {
    |run| == |acts| + 1 && Init(run[0]) && forall i :: 0 <= i < |acts| ==> Step(run[i], acts[i], run[i + 1])
  }

  // ---- invariants ----

  ghost predicate Unconnected(c: Conn) {
    c.id == "" && c.auth.NoAuth? && c.pending.None? && !c.accepted && c.asked.None?
  }

  ghost predicate InAuthentication(c: Conn) {
    && c.id != "" && c.auth.Authenticating? && c.pending.Some? && c.pending == c.asked
    && c.pending.value.scheme == c.scheme != "" && !c.accepted
  }

  ghost predicate Connected(c: Conn) {
    c.id != "" && !c.auth.Authenticating? && c.pending.None? && c.accepted && c.completed.Some?
  }

  /** While the read loop runs the connection is in exactly one phase. */
  ghost predicate InPhase(c: Conn) {
    !c.left ==> Unconnected(c) || InAuthentication(c) || Connected(c)
  }

  ghost predicate Greeted(wire: seq<Sent>) {
    exists i :: 0 <= i < |wire| && wire[i].ConnAckSent? && !IsError(wire[i].code)
  }

  ghost predicate Orderly(c: Conn) {
    // Only AUTH precedes a CONNACK, so there is at most one.
    && (forall i, j :: 0 <= i < j < |c.wire| && c.wire[j].ConnAckSent? ==> c.wire[i].AuthSent?)
    // CONNACK with success comes before everything that is neither AUTH nor CONNACK.
    && (c.accepted ==> Greeted(c.wire))
    && (forall i :: 0 <= i < |c.wire| && !c.accepted ==> c.wire[i].AuthSent? || c.wire[i].ConnAckSent?)
    // A failing CONNACK ends the conversation.
    && (forall i :: 0 <= i < |c.wire| && c.wire[i].ConnAckSent? && !c.accepted ==>
          c.left && i == |c.wire| - 1 && IsError(c.wire[i].code))
    && (c.running ==> c.accepted)
  }

  ghost predicate Proven(c: Conn) {
    && (c.completed.Some? ==> c.completed == c.asked && c.accepted)
    && (c.completed.Some? && c.completed.value.scheme != "" ==> c.proven)
  }

  ghost predicate Inv(c: Conn) {
    InPhase(c) && Orderly(c) && Proven(c)
  }

  lemma WrittenOrderly(c: Conn, p: Sent, w: Wrote)
    requires Orderly(c)
    requires p.ConnAckSent? ==> !c.accepted && forall i :: 0 <= i < |c.wire| ==> c.wire[i].AuthSent?
    requires p.DisconnectSent? || p.OtherSent? ==> c.accepted
    requires p.AuthSent? ==> c.accepted || !c.left
    ensures p.ConnAckSent? && IsError(p.code) ==> Orderly(Left(Written(c, p, w)))
    ensures !(p.ConnAckSent? && IsError(p.code)) ==> Orderly(Written(c, p, w))
  {
    var d := Written(c, p, w);
    if c.accepted && Greeted(c.wire) {
      var i :| 0 <= i < |c.wire| && c.wire[i].ConnAckSent? && !IsError(c.wire[i].code);
      assert d.wire[i] == c.wire[i];
    } else if p.ConnAckSent? && !IsError(p.code) && d.wire == c.wire + [p] {
      assert d.wire[|c.wire|] == p;
    }
  }

  ghost predicate OnlyAuth(c: Conn) {
    forall i :: 0 <= i < |c.wire| ==> c.wire[i].AuthSent?
  }

  lemma BeforeConnAck(c: Conn)
    requires Orderly(c) && !c.accepted && !c.left
    ensures OnlyAuth(c)
  {
  }

  lemma FailProtocolKeeps(c: Conn, w: Wrote)
    requires Orderly(c) && Proven(c)
    ensures Inv(FailProtocol(c, w))
  {
    if c.accepted {
      WrittenOrderly(c, DisconnectSent, w);
    }
  }

  lemma FailConnectKeeps(c: Conn, code: nat, w: Wrote)
    requires Orderly(c) && Proven(c) && !c.accepted && OnlyAuth(c)
    ensures Inv(FailConnect(c, code, w))
  {
    WrittenOrderly(c, ConnAckSent(code), w);
  }

  lemma SendAuthKeeps(c: Conn, w: Wrote)
    requires Inv(c) && !c.left
    ensures Inv(SendAuth(c, w))
  {
    WrittenOrderly(c, AuthSent, w);
  }

  lemma CompleteKeeps(c: Conn, k: ConnectPacket, d: Completion)
    requires Orderly(c) && Proven(c) && !c.accepted && !c.left
    requires c.id != "" && !c.auth.Authenticating? && c.pending.None? && c.asked == Some(k)
    requires k.scheme != "" ==> c.proven
    ensures Inv(CompleteConnect(c, k, d))
  {
    BeforeConnAck(c);
    if d.admission != 0 {
      FailConnectKeeps(c, d.admission, d.w);
    } else if !d.plugin {
      FailConnectKeeps(c, CONNACK_NOT_AUTHORIZED, d.w);
    } else {
      WrittenOrderly(c.(scheme := k.scheme), ConnAckSent(0), d.w);
    }
  }

  lemma InitialAuthKeeps(c: Conn, k: ConnectPacket, reply: Reply, d: Completion, w: Wrote)
    requires Orderly(c) && Proven(c) && !c.accepted && !c.left
    requires c.id != "" && c.pending.None? && c.asked == Some(k) && k.scheme != ""
    ensures Inv(InitialAuth(c, k, reply, d, w))
  {
    BeforeConnAck(c);
    var e := c.(scheme := k.scheme);
    if reply.Failed? {
      FailConnectKeeps(e, reply.code, w);
    } else if reply.code == AUTH_SUCCESS {
      CompleteKeeps(e.(auth := Authenticated, proven := true), k, d);
    } else if reply.code == AUTH_CONTINUE {
      SendAuthKeeps(e.(auth := Authenticating, pending := Some(k)), w);
    } else {
      FailConnectKeeps(e, CONNACK_NOT_AUTHORIZED, w);
    }
  }

  lemma HandleConnectKeeps(c: Conn, k: ConnectPacket, refusal: nat, newID: string, reply: Reply, d: Completion,
                           w: Wrote)
    requires Inv(c) && Unconnected(c) && !c.left && newID != "" && (refusal != 0 ==> IsError(refusal))
    ensures Inv(HandleConnect(c, k, refusal, newID, reply, d, w))
  {
    if refusal != 0 {
      BeforeConnAck(c);
      WrittenOrderly(c, ConnAckSent(refusal), w);
    } else {
      var e := c.(id := if k.clientID == "" then newID else k.clientID, asked := Some(k));
      if k.scheme == "" {
        CompleteKeeps(e, k, d);
      } else {
        InitialAuthKeeps(e, k, reply, d, w);
      }
    }
  }

  lemma AuthDuringKeeps(c: Conn, reply: Reply, d: Completion, w: Wrote)
    requires Inv(c) && InAuthentication(c) && !c.left
    ensures Inv(AuthDuringConnect(c, reply, d, w))
  {
    BeforeConnAck(c);
    if reply.Failed? {
      FailConnectKeeps(c, reply.code, w);
    } else if reply.code == AUTH_CONTINUE {
      SendAuthKeeps(c, w);
    } else if reply.code != AUTH_SUCCESS {
      FailConnectKeeps(c, CONNACK_NOT_AUTHORIZED, w);
    } else {
      CompleteKeeps(c.(pending := None, auth := Authenticated, proven := true), c.pending.value, d);
    }
  }

  lemma AuthAfterKeeps(c: Conn, reply: Reply, w: Wrote)
    requires Inv(c) && Connected(c) && !c.left
    ensures Inv(AuthAfterConnect(c, reply, w))
  {
    FailProtocolKeeps(c, w);
    SendAuthKeeps(c.(auth := Reauthenticating), w);
    SendAuthKeeps(c.(auth := Authenticated), w);
  }

  lemma HandleAuthKeeps(c: Conn, scheme: string, code: nat, reply: Reply, d: Completion, w: Wrote)
    requires Inv(c) && !c.left && c.id != ""
    ensures Inv(HandleAuth(c, scheme, code, reply, d, w))
  {
    FailProtocolKeeps(c, w);
    if c.auth.Authenticating? {
      AuthDuringKeeps(c, reply, d, w);
    } else {
      AuthAfterKeeps(c, reply, w);
    }
  }

  lemma ServeKeeps(c: Conn, replies: seq<Sent>, ok: bool)
    requires Inv(c) && Connected(c) && Ordinary(replies)
    ensures Inv(Serve(c, replies, ok))
  {
    var d := c.(wire := c.wire + replies);
    var i :| 0 <= i < |c.wire| && c.wire[i].ConnAckSent? && !IsError(c.wire[i].code);
    assert d.wire[i] == c.wire[i];
  }

  lemma HandlePacketKeeps(c: Conn, a: Action)
    requires Inv(c) && a.Receive? && Step(c, a, HandlePacket(c, a))
    ensures Inv(HandlePacket(c, a))
  {
    FailProtocolKeeps(c, a.w);
    if !a.oversized && !OutOfPhase(c, a.p) {
      match a.p
      case Connect(k) => HandleConnectKeeps(c, k, a.refusal, a.newID, a.reply, a.done, a.w);
      case Auth(scheme, code) => HandleAuthKeeps(c, scheme, code, a.reply, a.done, a.w);
      case Business => ServeKeeps(c, a.replies, a.ok);
      case _ =>
    }
  }

  lemma ReadErrorKeeps(c: Conn, a: Action, c': Conn)
    requires Inv(c) && a.ReadError? && Step(c, a, c')
    ensures Inv(c')
  {
    if c.accepted {
      WrittenOrderly(c, DisconnectSent, a.w);
    } else if a.connect {
      BeforeConnAck(c);
      WrittenOrderly(c, ConnAckSent(a.code), a.w);
    }
  }

  lemma ServerCloseKeeps(c: Conn, w: Wrote)
    requires Inv(c)
    ensures Inv(Closed(if c.accepted then Written(c, DisconnectSent, w) else c))
  {
    if c.accepted {
      WrittenOrderly(c, DisconnectSent, w);
    }
  }

  lemma RunnerKeeps(c: Conn, p: Sent, w: Wrote)
    requires Inv(c) && c.running && (p.DisconnectSent? || p.OtherSent?)
    ensures Inv(Written(c, p, w))
  {
    WrittenOrderly(c, p, w);
  }

  lemma StepKeeps(c: Conn, a: Action, c': Conn)
    requires Inv(c) && Step(c, a, c')
    ensures Inv(c')
  {
    match a
    case Receive(_, _, _, _, _, _, _, _, _) => HandlePacketKeeps(c, a);
    case ReadError(_, _, _) => ReadErrorKeeps(c, a, c');
    case ServerClose(w) => ServerCloseKeeps(c, w);
    case RunnerWrites(p, w) =>
      assert [p][0] == p;
      RunnerKeeps(c, p, w);
    case Leave =>
  }

  lemma ExtendRun(run: seq<Conn>, acts: seq<Action>, a: Action, c': Conn)
    requires Run(run, acts) && Step(run[|acts|], a, c')
    ensures Run(run + [c'], acts + [a])
  {
    var r, q := run + [c'], acts + [a];
    forall i | 0 <= i < |q| ensures Step(r[i], q[i], r[i + 1]) {
      if i < |acts| {
        assert Step(run[i], acts[i], run[i + 1]);
      }
    }
  }

  lemma {:induction false} RunKeeps(run: seq<Conn>, acts: seq<Action>, i: nat)
    requires Run(run, acts) && i < |run|
    ensures Inv(run[i])
    decreases i
  {
    if i > 0 {
      RunKeeps(run, acts, i - 1);
      assert Step(run[i - 1], acts[i - 1], run[i]);
      StepKeeps(run[i - 1], acts[i - 1], run[i]);
    }
  }

  // ---- main results ----

  /** What the client can see: one CONNACK at most, only AUTH before it, a DISCONNECT or any
      other packet only after a CONNACK with success, and nothing after a failing one. */
  ghost predicate Conversation(wire: seq<Sent>) {
    && (forall j, k :: 0 <= k < j < |wire| && wire[j].ConnAckSent? ==> wire[k].AuthSent?)
    && (forall j :: 0 <= j < |wire| && (wire[j].DisconnectSent? || wire[j].OtherSent?) ==> GreetedBefore(wire, j))
    && (forall j :: 0 <= j < |wire| && wire[j].ConnAckSent? && IsError(wire[j].code) ==> j == |wire| - 1)
  }

  ghost predicate GreetedBefore(wire: seq<Sent>, j: nat) {
    exists g :: 0 <= g < j <= |wire| && wire[g].ConnAckSent? && !IsError(wire[g].code)
  }

  lemma OrderlyConversation(c: Conn)
    requires Orderly(c)
    ensures Conversation(c.wire)
  {
    var wire := c.wire;
    if c.accepted {
      var g :| 0 <= g < |wire| && wire[g].ConnAckSent? && !IsError(wire[g].code);
      forall j | 0 <= j < |wire| && (wire[j].DisconnectSent? || wire[j].OtherSent?) ensures GreetedBefore(wire, j) {
        assert g < j;
      }
      assert forall j :: 0 <= j < |wire| && wire[j].ConnAckSent? ==> j == g;
    }
  }

  lemma ConversationIsOrderly(run: seq<Conn>, acts: seq<Action>, i: nat)
    requires Run(run, acts) && i < |run|
    ensures Conversation(run[i].wire)
  {
    RunKeeps(run, acts, i);
    OrderlyConversation(run[i]);
  }

  /** PUBLISH, SUBSCRIBE and the like reach their handlers only after a CONNACK with success. */
  lemma ServedOnlyWhenConnected(run: seq<Conn>, acts: seq<Action>, i: nat)
    requires Run(run, acts) && i < |acts| && acts[i].Receive? && acts[i].p.Business? && !acts[i].oversized
    ensures !OutOfPhase(run[i], acts[i].p) <==> Connected(run[i])
    ensures Connected(run[i]) ==> Greeted(run[i].wire)
  {
    RunKeeps(run, acts, i);
    assert Step(run[i], acts[i], run[i + 1]);
  }

  /** An AUTH that completes authentication always finds the CONNECT it belongs to. */
  lemma PendingConnectIsThere(run: seq<Conn>, acts: seq<Action>, i: nat)
    requires Run(run, acts) && i < |run| && !run[i].left && run[i].auth.Authenticating?
    ensures run[i].pending.Some? && run[i].pending == run[i].asked && run[i].pending.value.scheme == run[i].scheme
  {
    RunKeeps(run, acts, i);
  }

  lemma AskedStays(c: Conn, a: Action, c': Conn)
    requires c.left || c.id != "" || c.asked.None?
    requires Step(c, a, c') && c.asked.Some?
    ensures c'.asked == c.asked
  {
  }

  lemma {:induction false} RunAskedStays(run: seq<Conn>, acts: seq<Action>, i: nat, j: nat)
    requires Run(run, acts) && i <= j < |run| && run[i].asked.Some?
    ensures run[j].asked == run[i].asked
    decreases j
  {
    if i < j {
      RunAskedStays(run, acts, i, j - 1);
      RunKeeps(run, acts, j - 1);
      assert Step(run[j - 1], acts[j - 1], run[j]);
      AskedStays(run[j - 1], acts[j - 1], run[j]);
    }
  }

  /** Success answers the one CONNECT the client sent, and if that CONNECT named an
      authentication method, only after a plugin accepted the client. */
  lemma SuccessIsEarned(run: seq<Conn>, acts: seq<Action>, i: nat, j: nat)
    requires Run(run, acts) && i <= j < |run| && run[i].asked.Some? && run[j].completed.Some?
    ensures run[j].completed == run[i].asked
    ensures run[i].asked.value.scheme != "" ==> run[j].proven
  {
    RunAskedStays(run, acts, i, j);
    RunKeeps(run, acts, j);
  }

  // ---- a CONNACK that counts as accepted, and the CONNECT it answers ----

  /** The packet makes the connection complete its CONNECT. */
  predicate Completes(c: Conn, a: Action)
    requires a.Receive?
  {
    && !a.oversized && !OutOfPhase(c, a.p)
    && match a.p
       case Connect(k) =>
         a.refusal == 0 && (k.scheme == "" || c.auth.Authenticated? || a.reply == Answer(AUTH_SUCCESS))
       case Auth(scheme, code) =>
         && scheme != "" && scheme == c.scheme && c.auth.Authenticating? && c.pending.Some?
         && code == AUTH_CONTINUE && a.reply == Answer(AUTH_SUCCESS)
       case _ => false
  }

  /** The connect admission refuses with a reason code below 0x80 and the CONNACK gets out. */
  predicate OddRefusal(c: Conn, a: Action) {
    a.Receive? && Completes(c, a) && 0 < a.done.admission < 0x80 && Delivered(c, a.done.w)
  }

  ghost predicate Agree(c: Conn) {
    c.accepted <==> c.completed.Some?
  }

  lemma CompleteAgrees(c: Conn, k: ConnectPacket, d: Completion)
    requires !c.accepted && c.completed.None?
    ensures Agree(CompleteConnect(c, k, d)) <==> !(0 < d.admission < 0x80 && Delivered(c, d.w))
  {
  }

  lemma FailConnectAgrees(c: Conn, code: nat, w: Wrote)
    requires !c.accepted && c.completed.None? && IsError(code)
    ensures Agree(FailConnect(c, code, w))
  {
  }

  lemma InitialAuthAgrees(c: Conn, k: ConnectPacket, reply: Reply, d: Completion, w: Wrote)
    requires !c.accepted && c.completed.None? && (reply.Failed? ==> IsError(reply.code))
    ensures Agree(InitialAuth(c, k, reply, d, w)) <==>
              !(reply == Answer(AUTH_SUCCESS) && 0 < d.admission < 0x80 && Delivered(c, d.w))
  {
    var e := c.(scheme := k.scheme);
    if reply.Failed? {
      FailConnectAgrees(e, reply.code, w);
    } else if reply.code == AUTH_SUCCESS {
      CompleteAgrees(e.(auth := Authenticated, proven := true), k, d);
    } else if reply.code != AUTH_CONTINUE {
      FailConnectAgrees(e, CONNACK_NOT_AUTHORIZED, w);
    }
  }

  lemma ConnectAgrees(c: Conn, a: Action)
    requires Inv(c) && Agree(c) && a.Receive? && Step(c, a, HandlePacket(c, a))
    requires !a.oversized && !OutOfPhase(c, a.p) && a.p.Connect?
    ensures Agree(HandlePacket(c, a)) <==> !OddRefusal(c, a)
  {
    var k := a.p.connect;
    var e := c.(id := if k.clientID == "" then a.newID else k.clientID, asked := Some(k));
    if k.scheme == "" {
      CompleteAgrees(e, k, a.done);
    } else {
      InitialAuthAgrees(e, k, a.reply, a.done, a.w);
    }
  }

  lemma DuringAgrees(c: Conn, reply: Reply, d: Completion, w: Wrote)
    requires InAuthentication(c) && Agree(c) && (reply.Failed? ==> IsError(reply.code))
    ensures Agree(AuthDuringConnect(c, reply, d, w)) <==>
              !(reply == Answer(AUTH_SUCCESS) && 0 < d.admission < 0x80 && Delivered(c, d.w))
  {
    CompleteAgrees(c.(pending := None, auth := Authenticated, proven := true), c.pending.value, d);
    if reply.Failed? {
      FailConnectAgrees(c, reply.code, w);
    }
  }

  lemma WrittenAgrees(c: Conn, p: Sent, w: Wrote)
    requires Agree(c) && c.accepted
    ensures Agree(Written(c, p, w)) && Agree(Closed(Written(c, p, w)))
  {
  }

  lemma SendAgrees(c: Conn, w: Wrote)
    requires Agree(c) && c.accepted
    ensures Agree(SendAuth(c, w))
  {
    WrittenAgrees(c, AuthSent, w);
  }

  lemma FailAgrees(c: Conn, w: Wrote)
    requires Agree(c)
    ensures Agree(FailProtocol(c, w))
  {
    if c.accepted {
      WrittenAgrees(c, DisconnectSent, w);
    }
  }

  lemma AfterAgrees(c: Conn, reply: Reply, w: Wrote)
    requires Agree(c) && c.accepted
    ensures Agree(AuthAfterConnect(c, reply, w))
  {
    FailAgrees(c, w);
    SendAgrees(c.(auth := Reauthenticating), w);
    SendAgrees(c.(auth := Authenticated), w);
  }

  lemma AuthAgrees(c: Conn, scheme: string, code: nat, reply: Reply, d: Completion, w: Wrote)
    requires InPhase(c) && !c.left && c.id != "" && Agree(c) && (reply.Failed? ==> IsError(reply.code))
    ensures Agree(HandleAuth(c, scheme, code, reply, d, w)) <==>
              !(&& scheme != "" && scheme == c.scheme && c.auth.Authenticating? && code == AUTH_CONTINUE
                && reply == Answer(AUTH_SUCCESS) && 0 < d.admission < 0x80 && Delivered(c, d.w))
  {
    FailAgrees(c, w);
    if c.auth.Authenticating? {
      DuringAgrees(c, reply, d, w);
    } else {
      AfterAgrees(c, reply, w);
    }
  }

  /** A step keeps "accepted exactly when completed" if and only if it is not an odd refusal. */
  lemma StepAgreesExact(c: Conn, a: Action, c': Conn)
    requires Inv(c) && Agree(c) && Step(c, a, c')
    ensures Agree(c') <==> !OddRefusal(c, a)
  {
    if a.Receive? && !a.oversized && !OutOfPhase(c, a.p) {
      if a.p.Connect? {
        ConnectAgrees(c, a);
      } else if a.p.Auth? {
        AuthAgrees(c, a.p.scheme, a.p.code, a.reply, a.done, a.w);
      }
    }
  }

  /** After an odd refusal: the conversation is over, and no CONNECT was completed. */
  ghost predicate Odd(c: Conn) {
    c.accepted && c.completed.None? && c.left && c.closed && !c.running
  }

  lemma OddRefusalIsOdd(c: Conn, a: Action, c': Conn)
    requires Inv(c) && Agree(c) && Step(c, a, c') && OddRefusal(c, a)
    ensures Odd(c')
  {
  }

  lemma {:induction false} RunOddStays(run: seq<Conn>, acts: seq<Action>, i: nat, j: nat)
    requires Run(run, acts) && i <= j < |run| && Odd(run[i])
    ensures Odd(run[j])
    decreases j
  {
    if i < j {
      RunOddStays(run, acts, i, j - 1);
      assert Step(run[j - 1], acts[j - 1], run[j]);
    }
  }

  lemma {:induction false} RunAgrees(run: seq<Conn>, acts: seq<Action>, i: nat)
    requires Run(run, acts) && i < |run| && forall j :: 0 <= j < i ==> !OddRefusal(run[j], acts[j])
    ensures Agree(run[i])
    decreases i
  {
    if i > 0 {
      RunAgrees(run, acts, i - 1);
      RunKeeps(run, acts, i - 1);
      assert Step(run[i - 1], acts[i - 1], run[i]);
      StepAgreesExact(run[i - 1], acts[i - 1], run[i]);
    }
  }

  /** Over every run, a CONNACK counts as accepted exactly when a CONNECT was completed, if and
      only if no admission refused with a code below 0x80. */
  lemma {:induction false} AcceptedExact(run: seq<Conn>, acts: seq<Action>, i: nat)
    requires Run(run, acts) && i < |run|
    ensures (run[i].accepted <==> run[i].completed.Some?) <==> forall j :: 0 <= j < i ==> !OddRefusal(run[j], acts[j])
    decreases i
  {
    if forall j :: 0 <= j < i ==> !OddRefusal(run[j], acts[j]) {
      RunAgrees(run, acts, i);
    } else {
      var j :| 0 <= j < i && OddRefusal(run[j], acts[j]);
      FirstOdd(run, acts, j, i);
    }
  }

  lemma {:induction false} FirstOdd(run: seq<Conn>, acts: seq<Action>, j: nat, i: nat)
    requires Run(run, acts) && j < i < |run| && OddRefusal(run[j], acts[j])
    ensures Odd(run[i])
    decreases j
  {
    if k :| 0 <= k < j && OddRefusal(run[k], acts[k]) {
      FirstOdd(run, acts, k, i);
    } else {
      RunAgrees(run, acts, j);
      RunKeeps(run, acts, j);
      assert Step(run[j], acts[j], run[j + 1]);
      OddRefusalIsOdd(run[j], acts[j], run[j + 1]);
      RunOddStays(run, acts, j + 1, i);
    }
  }

  /** A completed CONNECT was answered with reason code 0. */
  ghost predicate Answered(c: Conn) {
    c.completed.Some? ==> forall j :: 0 <= j < |c.wire| && c.wire[j].ConnAckSent? ==> c.wire[j].code == 0
  }

  lemma WrittenAnswers(c: Conn, p: Sent, w: Wrote)
    requires Answered(c) && (c.completed.Some? ==> !p.ConnAckSent?)
    ensures Answered(Written(c, p, w)) && Written(c, p, w).completed == c.completed
  {
  }

  lemma FailProtocolAnswers(c: Conn, w: Wrote)
    requires Answered(c)
    ensures Answered(FailProtocol(c, w))
  {
    WrittenAnswers(c, DisconnectSent, w);
  }

  lemma SendAuthAnswers(c: Conn, w: Wrote)
    requires Answered(c)
    ensures Answered(SendAuth(c, w))
  {
    WrittenAnswers(c, AuthSent, w);
  }

  lemma FailConnectAnswers(c: Conn, code: nat, w: Wrote)
    requires c.completed.None?
    ensures Answered(FailConnect(c, code, w))
  {
    WrittenAnswers(c, ConnAckSent(code), w);
  }

  lemma GreetingAnswers(c: Conn, k: ConnectPacket, w: Wrote)
    requires OnlyAuth(c)
    ensures Delivered(c, w) ==> Answered(Written(c, ConnAckSent(0), w).(running := true, completed := Some(k)))
  {
  }

  lemma CompletionAnswers(c: Conn, k: ConnectPacket, d: Completion)
    requires c.completed.None? && OnlyAuth(c)
    ensures Answered(CompleteConnect(c, k, d))
  {
    if d.admission != 0 {
      FailConnectAnswers(c, d.admission, d.w);
    } else if !d.plugin {
      FailConnectAnswers(c, CONNACK_NOT_AUTHORIZED, d.w);
    } else {
      var e := c.(scheme := k.scheme);
      GreetingAnswers(e, k, d.w);
      WrittenAnswers(e, ConnAckSent(0), d.w);
    }
  }

  lemma InitialAuthAnswers(c: Conn, k: ConnectPacket, reply: Reply, d: Completion, w: Wrote)
    requires c.completed.None? && OnlyAuth(c)
    ensures Answered(InitialAuth(c, k, reply, d, w))
  {
    var e := c.(scheme := k.scheme);
    if reply.Failed? {
      FailConnectAnswers(e, reply.code, w);
    } else if reply.code == AUTH_SUCCESS {
      CompletionAnswers(e.(auth := Authenticated, proven := true), k, d);
    } else if reply.code == AUTH_CONTINUE {
      SendAuthAnswers(e.(auth := Authenticating, pending := Some(k)), w);
    } else {
      FailConnectAnswers(e, CONNACK_NOT_AUTHORIZED, w);
    }
  }

  lemma ConnectAnswers(c: Conn, k: ConnectPacket, refusal: nat, newID: string, reply: Reply, d: Completion, w: Wrote)
    requires c.completed.None? && OnlyAuth(c)
    ensures Answered(HandleConnect(c, k, refusal, newID, reply, d, w))
  {
    var e := c.(id := if k.clientID == "" then newID else k.clientID, asked := Some(k));
    if refusal != 0 {
      WrittenAnswers(c, ConnAckSent(refusal), w);
    } else if k.scheme == "" || c.auth.Authenticated? {
      CompletionAnswers(e, k, d);
    } else {
      InitialAuthAnswers(e, k, reply, d, w);
    }
  }

  lemma DuringAnswers(c: Conn, reply: Reply, d: Completion, w: Wrote)
    requires c.completed.None? && OnlyAuth(c)
    ensures Answered(AuthDuringConnect(c, reply, d, w))
  {
    if reply.Failed? {
      FailConnectAnswers(c, reply.code, w);
    } else if reply.code == AUTH_CONTINUE {
      SendAuthAnswers(c, w);
    } else if reply.code != AUTH_SUCCESS {
      FailConnectAnswers(c, CONNACK_NOT_AUTHORIZED, w);
    } else if c.pending.None? {
      FailConnectAnswers(c, CONNACK_PROTOCOL_ERROR, w);
    } else {
      CompletionAnswers(c.(pending := None, auth := Authenticated, proven := true), c.pending.value, d);
    }
  }

  lemma AuthAnswers(c: Conn, scheme: string, code: nat, reply: Reply, d: Completion, w: Wrote)
    requires Answered(c) && (c.auth.Authenticating? ==> c.completed.None? && OnlyAuth(c))
    ensures Answered(HandleAuth(c, scheme, code, reply, d, w))
  {
    FailProtocolAnswers(c, w);
    if c.auth.Authenticating? {
      DuringAnswers(c, reply, d, w);
    } else {
      SendAuthAnswers(c.(auth := Reauthenticating), w);
      SendAuthAnswers(c.(auth := Authenticated), w);
    }
  }

  lemma PacketAnswers(c: Conn, a: Action)
    requires Inv(c) && Answered(c) && a.Receive? && Step(c, a, HandlePacket(c, a))
    ensures Answered(HandlePacket(c, a))
  {
    FailProtocolAnswers(c, a.w);
    if !a.oversized && !OutOfPhase(c, a.p) {
      if !c.accepted {
        BeforeConnAck(c);
      }
      match a.p
      case Connect(k) => ConnectAnswers(c, k, a.refusal, a.newID, a.reply, a.done, a.w);
      case Auth(scheme, code) => AuthAnswers(c, scheme, code, a.reply, a.done, a.w);
      case _ =>
    }
  }

  lemma {:induction false} RunAnswers(run: seq<Conn>, acts: seq<Action>, i: nat)
    requires Run(run, acts) && i < |run|
    ensures Answered(run[i])
    decreases i
  {
    if i > 0 {
      var c, a := run[i - 1], acts[i - 1];
      RunAnswers(run, acts, i - 1);
      RunKeeps(run, acts, i - 1);
      assert Step(c, a, run[i]);
      if a.Receive? {
        PacketAnswers(c, a);
      } else if a.RunnerWrites? {
        assert [a.sent][0] == a.sent;
        WrittenAnswers(c, a.sent, a.w);
      } else if !a.Leave? {
        WrittenAnswers(c, DisconnectSent, a.w);
        if a.ReadError? && !c.accepted {
          WrittenAnswers(c, ConnAckSent(a.code), a.w);
        }
      }
    }
  }

  /** What a CONNACK without error code on the wire means: unless an admission refused with a
      code below 0x80, its code is 0, it answers the one CONNECT the client sent, and if that
      CONNECT named an authentication method a plugin has accepted the client. */
  lemma SuccessOnTheWire(run: seq<Conn>, acts: seq<Action>, i: nat, j: nat)
    requires Run(run, acts) && i < |run| && forall k :: 0 <= k < i ==> !OddRefusal(run[k], acts[k])
    requires j < |run[i].wire| && run[i].wire[j].ConnAckSent? && !IsError(run[i].wire[j].code)
    ensures run[i].wire[j].code == 0 && run[i].completed.Some? && run[i].completed == run[i].asked
    ensures run[i].asked.value.scheme != "" ==> run[i].proven
  {
    RunKeeps(run, acts, i);
    RunAgrees(run, acts, i);
    RunAnswers(run, acts, i);
  }

  /** The exception is real: a first CONNECT refused with code 1 is answered by a CONNACK that
      counts as accepted although nothing was completed. */
  lemma OddRefusalHappens() returns (run: seq<Conn>, acts: seq<Action>)
    ensures Run(run, acts) && |acts| == 1
    ensures run[1].wire == [ConnAckSent(1)] && run[1].accepted && run[1].completed.None?
  {
    var c := Conn("", NoAuth, None, "", false, false, false, false, [], None, false, None);
    var a := Receive(Connect(ConnectPacket("c", "")), false, 0, "x", Answer(0), Completion(1, true, true, Went), [],
                     true, Went);
    run, acts := [c, HandlePacket(c, a)], [a];
    assert Step(c, a, run[1]);
  }
}
