/** When a CONNECT is accepted and what every other packet is answered with, said in reason
    codes and packets, without the functions that compute the handlers. */
module ConnectionLaws {
  import opened Options
  import opened ConnectionPhase

  // ---- acceptance ----

  /** Everything a CONNECT needs to be accepted: it is the first packet or its authentication
      ends here with success, nobody refuses, the session is there and CONNACK gets out. */
  predicate Earns(c: Conn, a: Action) {
    && a.Receive? && !a.oversized && !c.closed && a.done.w.Went?
    && a.done.admission == 0 && a.done.plugin && a.done.session
    && match a.p
       case Connect(k) => c.id == "" && a.refusal == 0 && (k.scheme == "" || a.reply == Answer(0x00))
       case Auth(scheme, code) =>
         c.auth.Authenticating? && scheme != "" && scheme == c.scheme && code == 0x18 && a.reply == Answer(0x00)
       case _ => false
  }

  /** The CONNECT that the packet is or belongs to. */
  function Subject(c: Conn, a: Action): Option<ConnectPacket>
    requires a.Receive?
  {
    if a.p.Connect? then Some(a.p.connect) else c.pending
  }

  lemma RefusalCompletesNothing(c: Conn, code: nat, w: Wrote)
    ensures FailConnect(c, code, w).completed == c.completed && FailProtocol(c, w).completed == c.completed
    ensures SendAuth(c, w).completed == c.completed && Written(c, ConnAckSent(code), w).completed == c.completed
  {
  }

  lemma CompletionExact(c: Conn, k: ConnectPacket, d: Completion)
    requires c.completed.None?
    ensures CompleteConnect(c, k, d).completed.Some? <==>
              d.admission == 0 && d.plugin && d.session && !c.closed && d.w.Went?
  {
    RefusalCompletesNothing(c, d.admission, d.w);
    RefusalCompletesNothing(c, CONNACK_NOT_AUTHORIZED, d.w);
    RefusalCompletesNothing(c.(scheme := k.scheme), 0, d.w);
  }

  lemma InitialAuthExact(c: Conn, k: ConnectPacket, reply: Reply, d: Completion, w: Wrote)
    requires c.completed.None?
    ensures InitialAuth(c, k, reply, d, w).completed.Some? <==>
              && reply == Answer(0x00)
              && d.admission == 0 && d.plugin && d.session && !c.closed && d.w.Went?
  {
    var e := c.(scheme := k.scheme);
    if reply.Failed? {
      RefusalCompletesNothing(e, reply.code, w);
    } else if reply.code == AUTH_SUCCESS {
      CompletionExact(e.(auth := Authenticated, proven := true), k, d);
    } else if reply.code == AUTH_CONTINUE {
      RefusalCompletesNothing(e.(auth := Authenticating, pending := Some(k)), 0, w);
    } else {
      RefusalCompletesNothing(e, CONNACK_NOT_AUTHORIZED, w);
    }
  }

  lemma ConnectCompletesExact(c: Conn, a: Action, c': Conn)
    requires Inv(c) && c.completed.None? && a.Receive? && a.p.Connect? && Step(c, a, c')
    ensures c'.completed.Some? <==> Earns(c, a)
  {
    var k := a.p.connect;
    RefusalCompletesNothing(c, a.refusal, a.w);
    if !a.oversized && c.id == "" && a.refusal == 0 {
      var e := c.(id := if k.clientID == "" then a.newID else k.clientID, asked := Some(k));
      if k.scheme == "" {
        CompletionExact(e, k, a.done);
      } else {
        InitialAuthExact(e, k, a.reply, a.done, a.w);
      }
    }
  }

  lemma DuringAuthExact(c: Conn, reply: Reply, d: Completion, w: Wrote)
    requires c.completed.None? && c.pending.Some?
    ensures AuthDuringConnect(c, reply, d, w).completed.Some? <==>
              && reply == Answer(0x00)
              && d.admission == 0 && d.plugin && d.session && !c.closed && d.w.Went?
  {
    RefusalCompletesNothing(c, reply.code, w);
    RefusalCompletesNothing(c, CONNACK_NOT_AUTHORIZED, w);
    CompletionExact(c.(pending := None, auth := Authenticated, proven := true), c.pending.value, d);
  }

  lemma AuthCompletesExact(c: Conn, a: Action, c': Conn)
    requires Inv(c) && c.completed.None? && a.Receive? && a.p.Auth? && Step(c, a, c')
    ensures c'.completed.Some? <==> Earns(c, a)
  {
    RefusalCompletesNothing(c, 0, a.w);
    if c.auth.Authenticating? {
      DuringAuthExact(c, a.reply, a.done, a.w);
    }
  }

  lemma OtherPacketsCompleteNothing(c: Conn, a: Action)
    requires a.Receive? && !a.p.Connect? && !a.p.Auth?
    ensures HandlePacket(c, a).completed == c.completed && !Earns(c, a)
  {
    RefusalCompletesNothing(c, 0, a.w);
  }

  lemma WrittenCompletesNothing(c: Conn, p: Sent, w: Wrote)
    ensures Written(c, p, w).completed == c.completed
  {
  }

  lemma OthersCompleteNothing(c: Conn, a: Action, c': Conn)
    requires Step(c, a, c') && !a.Receive?
    ensures c'.completed == c.completed && !Earns(c, a)
  {
    match a
    case ReadError(_, code, w) =>
      WrittenCompletesNothing(c, DisconnectSent, w);
      WrittenCompletesNothing(c, ConnAckSent(code), w);
    case ServerClose(w) => WrittenCompletesNothing(c, DisconnectSent, w);
    case RunnerWrites(p, w) => WrittenCompletesNothing(c, p, w);
    case Leave =>
  }

  lemma CompletedStays(c: Conn, a: Action, c': Conn)
    requires Inv(c) && Step(c, a, c') && c.completed.Some? && a.Receive?
    ensures c'.completed == c.completed
  {
    RefusalCompletesNothing(c, 0, a.w);
    RefusalCompletesNothing(c.(auth := Reauthenticating), 0, a.w);
    RefusalCompletesNothing(c.(auth := Authenticated), 0, a.w);
  }

  /** A step completes a CONNECT exactly when it earns it. */
  lemma AcceptanceExact(c: Conn, a: Action, c': Conn)
    requires Inv(c) && Step(c, a, c')
    ensures c.completed.None? ==> (c'.completed.Some? <==> Earns(c, a))
    ensures c.completed.Some? ==> c'.completed == c.completed
  {
    if !a.Receive? {
      OthersCompleteNothing(c, a, c');
    } else if !a.p.Connect? && !a.p.Auth? {
      OtherPacketsCompleteNothing(c, a);
    } else if c.completed.Some? {
      CompletedStays(c, a, c');
    } else if a.p.Connect? {
      ConnectCompletesExact(c, a, c');
    } else {
      AuthCompletesExact(c, a, c');
    }
  }

  /** And then: CONNACK 0 is the next packet, the delivery runner starts, the client is known by
      the identifier it gave or was given. */
  lemma EarnedIsGreeted(c: Conn, a: Action, c': Conn)
    requires Inv(c) && Step(c, a, c') && c.completed.None? && Earns(c, a)
    ensures c'.wire == c.wire + [ConnAckSent(0)] && c'.accepted && c'.running && !c'.left && !c'.closed
    ensures c'.completed == Subject(c, a) && c'.completed.Some? && c'.scheme == c'.completed.value.scheme
    ensures a.p.Connect? ==>
              c'.id == if a.p.connect.clientID == "" then a.newID else a.p.connect.clientID
  {
  }

  // ---- CONNACK 0 over every run ----

  /** CONNACK 0 on the wire stands for a completed CONNECT. */
  ghost predicate ZeroIsMeant(c: Conn) {
    ConnAckSent(0) in c.wire ==> c.completed.Some?
  }

  lemma WrittenMeant(c: Conn, p: Sent, w: Wrote)
    requires ZeroIsMeant(c) && p != ConnAckSent(0)
    ensures ZeroIsMeant(Written(c, p, w))
  {
  }

  lemma RefusalMeant(c: Conn, code: nat, w: Wrote)
    requires ZeroIsMeant(c)
    ensures code != 0 ==> ZeroIsMeant(FailConnect(c, code, w))
    ensures ZeroIsMeant(FailProtocol(c, w)) && ZeroIsMeant(SendAuth(c, w))
  {
    if code != 0 {
      WrittenMeant(c, ConnAckSent(code), w);
    }
    WrittenMeant(c, DisconnectSent, w);
    WrittenMeant(c, AuthSent, w);
  }

  lemma CompletionMeant(c: Conn, k: ConnectPacket, d: Completion)
    requires ZeroIsMeant(c)
    ensures ZeroIsMeant(CompleteConnect(c, k, d))
  {
    RefusalMeant(c, d.admission, d.w);
    RefusalMeant(c, CONNACK_NOT_AUTHORIZED, d.w);
  }

  lemma InitialAuthMeant(c: Conn, k: ConnectPacket, reply: Reply, d: Completion, w: Wrote)
    requires ZeroIsMeant(c) && (reply.Failed? ==> IsError(reply.code))
    ensures ZeroIsMeant(InitialAuth(c, k, reply, d, w))
  {
    var e := c.(scheme := k.scheme);
    if reply.Failed? {
      RefusalMeant(e, reply.code, w);
    } else if reply.code == AUTH_SUCCESS {
      CompletionMeant(e.(auth := Authenticated, proven := true), k, d);
    } else if reply.code == AUTH_CONTINUE {
      RefusalMeant(e.(auth := Authenticating, pending := Some(k)), 0, w);
    } else {
      RefusalMeant(e, CONNACK_NOT_AUTHORIZED, w);
    }
  }

  lemma ConnectMeant(c: Conn, a: Action)
    requires ZeroIsMeant(c) && a.Receive? && a.p.Connect? && Enabled(c.left, c.running, a)
    ensures ZeroIsMeant(HandleConnect(c, a.p.connect, a.refusal, a.newID, a.reply, a.done, a.w))
  {
    var k := a.p.connect;
    if a.refusal != 0 {
      WrittenMeant(c, ConnAckSent(a.refusal), a.w);
    } else {
      var e := c.(id := if k.clientID == "" then a.newID else k.clientID, asked := Some(k));
      CompletionMeant(e, k, a.done);
      InitialAuthMeant(e, k, a.reply, a.done, a.w);
    }
  }

  lemma DuringMeant(c: Conn, reply: Reply, d: Completion, w: Wrote)
    requires ZeroIsMeant(c) && (reply.Failed? ==> IsError(reply.code))
    ensures ZeroIsMeant(AuthDuringConnect(c, reply, d, w))
  {
    RefusalMeant(c, if reply.Failed? then reply.code else CONNACK_NOT_AUTHORIZED, w);
    RefusalMeant(c, CONNACK_PROTOCOL_ERROR, w);
    if c.pending.Some? {
      CompletionMeant(c.(pending := None, auth := Authenticated, proven := true), c.pending.value, d);
    }
  }

  lemma AfterMeant(c: Conn, reply: Reply, w: Wrote)
    requires ZeroIsMeant(c)
    ensures ZeroIsMeant(AuthAfterConnect(c, reply, w))
  {
    RefusalMeant(c, 0, w);
    RefusalMeant(c.(auth := Reauthenticating), 0, w);
    RefusalMeant(c.(auth := Authenticated), 0, w);
  }

  lemma AuthMeant(c: Conn, a: Action)
    requires ZeroIsMeant(c) && a.Receive? && a.p.Auth? && Enabled(c.left, c.running, a)
    ensures ZeroIsMeant(HandleAuth(c, a.p.scheme, a.p.code, a.reply, a.done, a.w))
  {
    RefusalMeant(c, 0, a.w);
    DuringMeant(c, a.reply, a.done, a.w);
    AfterMeant(c, a.reply, a.w);
  }

  lemma ServeMeant(c: Conn, replies: seq<Sent>, ok: bool)
    requires ZeroIsMeant(c) && Ordinary(replies)
    ensures ZeroIsMeant(Serve(c, replies, ok))
  {
  }

  lemma StepMeant(c: Conn, a: Action, c': Conn)
    requires ZeroIsMeant(c) && Step(c, a, c')
    ensures ZeroIsMeant(c')
  {
    match a
    case Receive(p, _, _, _, _, _, _, _, w) =>
      RefusalMeant(c, 0, w);
      if p.Connect? {
        ConnectMeant(c, a);
      } else if p.Auth? {
        AuthMeant(c, a);
      } else {
        ServeMeant(c, a.replies, a.ok);
      }
    case ReadError(_, code, w) =>
      WrittenMeant(c, DisconnectSent, w);
      WrittenMeant(c, ConnAckSent(code), w);
    case ServerClose(w) => WrittenMeant(c, DisconnectSent, w);
    case RunnerWrites(p, w) =>
      assert [p][0] == p;
      WrittenMeant(c, p, w);
    case Leave =>
  }

  lemma {:induction false} RunMeant(run: seq<Conn>, acts: seq<Action>, i: nat)
    requires Run(run, acts) && i < |run|
    ensures ZeroIsMeant(run[i])
    decreases i
  {
    if i > 0 {
      RunMeant(run, acts, i - 1);
      assert Step(run[i - 1], acts[i - 1], run[i]);
      StepMeant(run[i - 1], acts[i - 1], run[i]);
    }
  }

  ghost predicate EarnedBefore(run: seq<Conn>, acts: seq<Action>, i: nat)
    requires i < |run| && |run| == |acts| + 1
  {
    exists j :: 0 <= j < i && Earns(run[j], acts[j]) && run[j].completed.None?
  }

  lemma {:induction false} CompletedIsEarned(run: seq<Conn>, acts: seq<Action>, i: nat)
    requires Run(run, acts) && i < |run|
    ensures run[i].completed.Some? <==> EarnedBefore(run, acts, i)
    decreases i
  {
    if i > 0 {
      CompletedIsEarned(run, acts, i - 1);
      RunKeeps(run, acts, i - 1);
      assert Step(run[i - 1], acts[i - 1], run[i]);
      AcceptanceExact(run[i - 1], acts[i - 1], run[i]);
    }
  }

  /** Over every run, CONNACK 0 is on the wire exactly if some step earned it. */
  lemma GreetingExact(run: seq<Conn>, acts: seq<Action>, i: nat)
    requires Run(run, acts) && i < |run|
    ensures ConnAckSent(0) in run[i].wire <==> EarnedBefore(run, acts, i)
  {
    RunMeant(run, acts, i);
    CompletedIsEarned(run, acts, i);
    if run[i].completed.Some? {
      RunKeeps(run, acts, i);
      RunAnswers(run, acts, i);
      var g :| 0 <= g < |run[i].wire| && run[i].wire[g].ConnAckSent? && !IsError(run[i].wire[g].code);
      assert run[i].wire[g] == ConnAckSent(0);
    }
  }

  // ---- refusals ----

  /** One packet more on the wire, if the write gets out; nothing else is written before CONNACK. */
  ghost predicate Says(c: Conn, c': Conn, p: Sent, w: Wrote) {
    c'.wire == c.wire + if !c.closed && w.Went? then [p] else []
  }

  /** CONNACK with a reason code, and the connection is over. */
  ghost predicate Refuses(c: Conn, c': Conn, code: nat, w: Wrote) {
    Says(c, c', ConnAckSent(code), w) && c'.left && c'.completed.None? && !c'.running
  }

  ghost predicate RefusesAndCloses(c: Conn, c': Conn, code: nat, w: Wrote) {
    Refuses(c, c', code, w) && c'.closed
  }

  /** A connection on which nothing was taken up yet. */
  ghost predicate Untouched(c: Conn) {
    Inv(c) && c.id == "" && !c.left && c.completed.None? && !c.running
  }

  /** What completing a CONNECT checks, in its order, and the code each check answers with. */
  ghost predicate ChecksAnswered(c: Conn, c': Conn, d: Completion) {
    && (d.admission != 0 ==> RefusesAndCloses(c, c', d.admission, d.w))
    && (d.admission == 0 && !d.plugin ==> RefusesAndCloses(c, c', 0x87, d.w))
    && (d.admission == 0 && d.plugin && !d.session ==> c'.wire == c.wire && c'.left)
  }

  lemma CompletionChecks(c: Conn, k: ConnectPacket, d: Completion)
    requires !c.accepted && !c.left && c.completed.None? && !c.running
    ensures ChecksAnswered(c, CompleteConnect(c, k, d), d)
  {
  }

  lemma InitialAuthChecks(c: Conn, k: ConnectPacket, reply: Reply, d: Completion, w: Wrote)
    requires !c.accepted && !c.left && c.completed.None? && !c.running
    ensures var c' := InitialAuth(c, k, reply, d, w);
            && (reply.Failed? ==> RefusesAndCloses(c, c', reply.code, w))
            && (reply.Answer? && reply.code !in {0x00, 0x18} ==> RefusesAndCloses(c, c', 0x87, w))
            && (reply == Answer(0x00) ==> ChecksAnswered(c, c', d))
            && (reply == Answer(0x18) ==>
                  && Says(c, c', AuthSent, w) && c'.auth.Authenticating? && c'.pending == Some(k)
                  && c'.scheme == k.scheme && (c'.left <==> c.closed || !w.Went?))
  {
    CompletionChecks(c.(scheme := k.scheme, auth := Authenticated, proven := true), k, d);
  }

  /** The checks that end a CONNECT, in their order, and the code each is answered with. */
  lemma FirstConnectRefused(c: Conn, a: Action, c': Conn)
    requires Untouched(c) && a.Receive? && a.p.Connect? && !a.oversized && Step(c, a, c')
    ensures a.refusal != 0 ==> Refuses(c, c', a.refusal, a.w)
    ensures a.refusal == 0 && a.p.connect.scheme != "" && a.reply.Failed? ==> RefusesAndCloses(c, c', a.reply.code, a.w)
    ensures a.refusal == 0 && a.p.connect.scheme != "" && a.reply.Answer? && a.reply.code !in {0x00, 0x18} ==>
              RefusesAndCloses(c, c', 0x87, a.w)
    ensures a.refusal == 0 && (a.p.connect.scheme == "" || a.reply == Answer(0x00)) ==> ChecksAnswered(c, c', a.done)
    ensures a.refusal == 0 && a.p.connect.scheme != "" && a.reply == Answer(0x18) ==>
              && Says(c, c', AuthSent, a.w) && c'.auth.Authenticating? && c'.pending == Some(a.p.connect)
              && c'.scheme == a.p.connect.scheme && (c'.left <==> c.closed || !a.w.Went?)
  {
    var k := a.p.connect;
    if a.refusal == 0 {
      var e := c.(id := if k.clientID == "" then a.newID else k.clientID, asked := Some(k));
      if k.scheme == "" {
        CompletionChecks(e, k, a.done);
      } else {
        InitialAuthChecks(e, k, a.reply, a.done, a.w);
      }
    }
  }

  /** The same for a further round of authentication. */
  lemma AuthenticationRefused(c: Conn, a: Action, c': Conn)
    requires Inv(c) && !c.left && c.auth.Authenticating? && !c.running && c.completed.None?
    requires a.Receive? && a.p.Auth? && !a.oversized && a.p.code == 0x18 && a.p.scheme == c.scheme && Step(c, a, c')
    ensures a.reply.Failed? ==> RefusesAndCloses(c, c', a.reply.code, a.w)
    ensures a.reply.Answer? && a.reply.code !in {0x00, 0x18} ==> RefusesAndCloses(c, c', 0x87, a.w)
    ensures a.reply == Answer(0x00) ==> ChecksAnswered(c, c', a.done)
    ensures a.reply == Answer(0x18) ==>
              Says(c, c', AuthSent, a.w) && c'.auth.Authenticating? && c'.pending == c.pending
  {
    CompletionChecks(c.(pending := None, auth := Authenticated, proven := true), c.pending.value, a.done);
  }

  /** The connection ends; the client is told with DISCONNECT exactly if CONNACK was accepted. */
  ghost predicate Drops(c: Conn, c': Conn, w: Wrote) {
    && c'.left && c'.closed && c'.completed == c.completed
    && (!c.accepted ==> c'.wire == c.wire)
    && (c.accepted && !w.TooBig? ==> Says(c, c', DisconnectSent, w))
  }

  /** A packet that may not come now: anything before CONNECT, a second CONNECT, anything but
      AUTH and DISCONNECT while authenticating, a packet only servers send, an AUTH with another
      method or out of turn, and whatever is too large. */
  predicate Unwelcome(c: Conn, a: Action)
    requires a.Receive?
  {
    || a.oversized || a.p.ServerOnly?
    || (c.id == "" && !a.p.Connect?) || (c.id != "" && a.p.Connect?)
    || (c.auth.Authenticating? && a.p.Business?)
    || (a.p.Disconnect? && !a.p.allowed)
    || (a.p.Auth? && (a.p.scheme == "" || a.p.scheme != c.scheme ||
                      a.p.code != match c.auth
                                  case Authenticating => 0x18
                                  case Reauthenticating => 0x18
                                  case Authenticated => 0x19
                                  case NoAuth => a.p.code + 1))
  }

  lemma FailureDrops(c: Conn, w: Wrote)
    ensures Drops(c, FailProtocol(c, w), w)
  {
  }

  lemma UnwelcomeIsDropped(c: Conn, a: Action, c': Conn)
    requires a.Receive? && Step(c, a, c') && Unwelcome(c, a)
    ensures Drops(c, c', a.w)
  {
    FailureDrops(c, a.w);
  }

  lemma AuthIsSent(c: Conn, w: Wrote)
    requires !w.TooBig?
    ensures var c' := SendAuth(c, w); Says(c, c', AuthSent, w) && c'.auth == c.auth
    ensures !c.left ==> (SendAuth(c, w).left <==> c.closed || !w.Went?)
  {
  }

  /** Re-authentication: AUTH is answered with AUTH, a refusal ends the connection. */
  lemma ReauthenticationAnswered(c: Conn, a: Action, c': Conn)
    requires Inv(c) && c.accepted && a.Receive? && a.p.Auth? && !Unwelcome(c, a) && Step(c, a, c') && !a.w.TooBig?
    ensures a.reply in {Answer(0x00), Answer(0x18)} ==>
              && Says(c, c', AuthSent, a.w) && (c'.left <==> c.closed || !a.w.Went?)
              && c'.auth == if a.reply.code == 0x00 then Authenticated else Reauthenticating
    ensures a.reply !in {Answer(0x00), Answer(0x18)} ==> Drops(c, c', a.w)
  {
    FailureDrops(c, a.w);
    AuthIsSent(c.(auth := Reauthenticating), a.w);
    AuthIsSent(c.(auth := Authenticated), a.w);
  }

  /** A packet that is served: its replies go out, and the connection ends exactly on an error. */
  lemma BusinessIsServed(c: Conn, a: Action, c': Conn)
    requires a.Receive? && a.p.Business? && !Unwelcome(c, a) && Step(c, a, c')
    ensures c'.wire == c.wire + if c.closed then [] else a.replies
    ensures if a.ok then c'.left == c.left && c'.closed == c.closed else c'.left && c'.closed
  {
  }

  /** Packets that cannot be decoded and closes by the broker: CONNACK with the reason before
      acceptance if it was a CONNECT, DISCONNECT after it. */
  lemma EndingsAnswered(c: Conn, a: Action, c': Conn)
    requires Step(c, a, c') && (a.ReadError? || a.ServerClose?) && !a.w.TooBig?
    ensures c.accepted ==> Says(c, c', DisconnectSent, a.w)
    ensures !c.accepted && a.ReadError? && a.connect ==> Says(c, c', ConnAckSent(a.code), a.w)
    ensures !c.accepted && (a.ServerClose? || !a.connect) ==> c'.wire == c.wire
    ensures a.ReadError? ==> c'.left
    ensures a.ServerClose? ==> c'.closed
  {
  }
}
