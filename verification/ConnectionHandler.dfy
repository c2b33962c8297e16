/** The handlers of ConnectionPhase as the broker runs them: one object per connection whose
    fields each handler updates in place. Whatever happens to the object, what it put on the
    wire is an orderly conversation. */
module ConnectionHandler {
  import opened Options
  import opened ConnectionPhase
  import opened ConnectionLaws

  class Client {
    var id: string
    var auth: AuthState
    var pending: Option<ConnectPacket>
    var scheme: string
    var accepted: bool
    var closed: bool
    var left: bool
    var running: bool
    ghost var wire: seq<Sent>
    ghost var asked: Option<ConnectPacket>
    ghost var proven: bool
    ghost var completed: Option<ConnectPacket>

    ghost function View(): Conn reads this {
      Conn(id, auth, pending, scheme, accepted, closed, left, running, wire, asked, proven, completed)
    }

    constructor ()
      ensures Init(View())
    {
      id, auth, pending, scheme, accepted, closed := "", NoAuth, None, "", false, false;
      left, running, wire, asked, proven, completed := false, false, [], None, false, None;
    }

    method Write(p: Sent, w: Wrote) returns (ok: bool)
      modifies `wire, `accepted, `closed
      ensures View() == old(Written(View(), p, w)) && (ok <==> old(Delivered(View(), w)))
    {
      if closed { return false; }
      match w
      case Lost => return false;
      case TooBig(tells) =>
        if accepted && tells { wire := wire + [DisconnectSent]; }
        closed := true;
        return false;
      case Went =>
        wire := wire + [p];
        if p.ConnAckSent? && !IsError(p.code) { accepted := true; }
        return true;
    }

    // Handlers return whether the read loop goes on.

    method FailWithDisconnect(w: Wrote) returns (ok: bool)
      modifies this
      ensures View() == old(FailProtocol(View(), w)) && !ok
    {
      if accepted {
        var _ := Write(DisconnectSent, w);
      }
      closed, left := true, true;
      return false;
    }

    method FailWithConnAck(code: nat, w: Wrote) returns (ok: bool)
      modifies this
      ensures View() == old(FailConnect(View(), code, w)) && !ok
    {
      var _ := Write(ConnAckSent(code), w);
      closed, left := true, true;
      return false;
    }

    method Complete(k: ConnectPacket, d: Completion) returns (ok: bool)
      requires !left
      modifies this
      ensures View() == old(CompleteConnect(View(), k, d)) && (ok <==> !left)
    {
      if d.admission != 0 {
        ok := FailWithConnAck(d.admission, d.w);
        return;
      }
      if !d.plugin {
        ok := FailWithConnAck(CONNACK_NOT_AUTHORIZED, d.w);
        return;
      }
      scheme := k.scheme;
      if !d.session {
        left := true;
        return false;
      }
      ok := Write(ConnAckSent(0), d.w);
      if ok {
        running, completed := true, Some(k);
      } else {
        left := true;
      }
    }

    method WriteAuth(w: Wrote) returns (ok: bool)
      requires !left
      modifies this
      ensures View() == old(SendAuth(View(), w)) && (ok <==> !left)
    {
      ok := Write(AuthSent, w);
      if !ok { left := true; }
    }

    method OnInitialAuth(k: ConnectPacket, reply: Reply, d: Completion, w: Wrote) returns (ok: bool)
      requires !left
      modifies this
      ensures View() == old(InitialAuth(View(), k, reply, d, w)) && (ok <==> !left)
    {
      scheme := k.scheme;
      assert View() == old(View()).(scheme := k.scheme);
      if reply == Answer(AUTH_SUCCESS) {
        auth, proven := Authenticated, true;
        ok := Complete(k, d);
      } else if reply == Answer(AUTH_CONTINUE) {
        auth, pending := Authenticating, Some(k);
        ok := WriteAuth(w);
      } else {
        ok := FailWithConnAck(if reply.Failed? then reply.code else CONNACK_NOT_AUTHORIZED, w);
      }
    }

    method OnConnect(k: ConnectPacket, refusal: nat, newID: string, reply: Reply, d: Completion, w: Wrote)
      returns (ok: bool)
      requires !left
      modifies this
      ensures View() == old(HandleConnect(View(), k, refusal, newID, reply, d, w)) && (ok <==> !left)
    {
      if refusal != 0 {
        var _ := Write(ConnAckSent(refusal), w);
        left := true;
        return false;
      }
      id, asked := if k.clientID == "" then newID else k.clientID, Some(k);
      if k.scheme == "" || auth.Authenticated? {
        ok := Complete(k, d);
      } else {
        ok := OnInitialAuth(k, reply, d, w);
      }
    }

    method OnAuthDuringConnect(reply: Reply, d: Completion, w: Wrote) returns (ok: bool)
      requires !left
      modifies this
      ensures View() == old(AuthDuringConnect(View(), reply, d, w)) && (ok <==> !left)
    {
      if reply.Failed? {
        ok := FailWithConnAck(reply.code, w);
      } else if reply.code == AUTH_CONTINUE {
        ok := WriteAuth(w);
      } else if reply.code != AUTH_SUCCESS {
        ok := FailWithConnAck(CONNACK_NOT_AUTHORIZED, w);
      } else if pending.None? {
        ok := FailWithConnAck(CONNACK_PROTOCOL_ERROR, w);
      } else {
        var k := pending.value;
        pending, auth, proven := None, Authenticated, true;
        ok := Complete(k, d);
      }
    }

    method OnAuthAfterConnect(reply: Reply, w: Wrote) returns (ok: bool)
      requires !left
      modifies this
      ensures View() == old(AuthAfterConnect(View(), reply, w)) && (ok <==> !left)
    {
      if reply.Failed? || (reply.code != AUTH_CONTINUE && reply.code != AUTH_SUCCESS) {
        ok := FailWithDisconnect(w);
        return;
      }
      auth := if reply.code == AUTH_CONTINUE then Reauthenticating else Authenticated;
      ok := WriteAuth(w);
    }

    method OnAuth(named: string, code: nat, reply: Reply, d: Completion, w: Wrote) returns (ok: bool)
      requires !left
      modifies this
      ensures View() == old(HandleAuth(View(), named, code, reply, d, w)) && (ok <==> !left)
    {
      if named == "" || scheme == "" || named != scheme {
        ok := FailWithDisconnect(w);
      } else if auth.Authenticating? && code == AUTH_CONTINUE {
        ok := OnAuthDuringConnect(reply, d, w);
      } else if auth.Authenticated? && code == AUTH_REAUTHENTICATE {
        ok := OnAuthAfterConnect(reply, w);
      } else if auth.Reauthenticating? && code == AUTH_CONTINUE {
        ok := OnAuthAfterConnect(reply, w);
      } else {
        ok := FailWithDisconnect(w);
      }
    }

    /** HandlePacket: size and phase are checked before any handler runs. */
    method OnPacket(a: Action) returns (ok: bool)
      requires Inv(View()) && a.Receive? && Enabled(left, running, a)
      modifies this
      ensures Step(old(View()), a, View()) && Inv(View()) && (ok <==> !left)
      ensures a.p.Business? && wire != old(wire) ==> Greeted(wire)
      ensures completed.Some? <==> old(completed).Some? || Earns(old(View()), a)
      ensures old(completed).None? && Earns(old(View()), a) ==> wire == old(wire) + [ConnAckSent(0)] && running && ok
      ensures Unwelcome(old(View()), a) ==> Drops(old(View()), View(), a.w)
    {
      HandlePacketKeeps(View(), a);
      ghost var next := HandlePacket(View(), a);
      AcceptanceExact(View(), a, next);
      if completed.None? && Earns(View(), a) {
        EarnedIsGreeted(View(), a, next);
      }
      if Unwelcome(View(), a) {
        UnwelcomeIsDropped(View(), a, next);
      }
      if a.oversized || OutOfPhaseNow(a.p) {
        ok := FailWithDisconnect(a.w);
        return;
      }
      match a.p
      case Connect(k) => ok := OnConnect(k, a.refusal, a.newID, a.reply, a.done, a.w);
      case Auth(s, code) => ok := OnAuth(s, code, a.reply, a.done, a.w);
      case Disconnect(allowed) =>
        if allowed {
          closed := true;
          return true;
        }
        ok := FailWithDisconnect(a.w);
      case Business =>
        if !closed { wire := wire + a.replies; }
        if !a.ok { closed, left := true, true; }
        return a.ok;
    }

    /** The read loop's reaction to a packet it cannot decode. */
    method OnReadError(connect: bool, code: nat, w: Wrote)
      requires Inv(View()) && Enabled(left, running, ReadError(connect, code, w))
      modifies this
      ensures Step(old(View()), ReadError(connect, code, w), View()) && Inv(View())
    {
      ReadErrorKeeps(View(), ReadError(connect, code, w), Left(
        if accepted then Written(View(), DisconnectSent, w)
        else if connect then Written(View(), ConnAckSent(code), w) else View()));
      if accepted {
        var _ := Write(DisconnectSent, w);
      } else if connect {
        var _ := Write(ConnAckSent(code), w);
      }
      left := true;
    }

    /** A close from the broker's side: takeover, keep-alive, shutdown. */
    method OnServerClose(w: Wrote)
      requires Inv(View())
      modifies this
      ensures Step(old(View()), ServerClose(w), View()) && Inv(View())
    {
      StepKeeps(View(), ServerClose(w), Closed(if accepted then Written(View(), DisconnectSent, w) else View()));
      if accepted {
        var _ := Write(DisconnectSent, w);
      }
      closed := true;
    }

    /** The delivery runner writes on its own. */
    method OnRunnerWrite(p: Sent, w: Wrote)
      requires Inv(View()) && Enabled(left, running, RunnerWrites(p, w))
      modifies this
      ensures Step(old(View()), RunnerWrites(p, w), View()) && Inv(View())
    {
      StepKeeps(View(), RunnerWrites(p, w), Written(View(), p, w));
      var _ := Write(p, w);
    }

    method OnEvent(a: Action)
      requires Inv(View()) && Enabled(left, running, a)
      modifies this
      ensures Step(old(View()), a, View()) && Inv(View())
    {
      match a
      case Receive(_, _, _, _, _, _, _, _, _) => var _ := OnPacket(a);
      case ReadError(connect, code, w) => OnReadError(connect, code, w);
      case ServerClose(w) => OnServerClose(w);
      case RunnerWrites(p, w) => OnRunnerWrite(p, w);
      case Leave =>
        StepKeeps(View(), a, Left(Closed(View())));
        closed, left := true, true;
    }

    /** A whole life of the connection: any events in any order; those that cannot happen in
        the state they meet are passed over. What the client sees is an orderly conversation,
        and the events that happened are a run of the state machine. */
    method Live(events: seq<Action>) returns (ghost run: seq<Conn>, ghost acts: seq<Action>)
      requires Init(View())
      modifies this
      ensures Inv(View()) && Conversation(wire)
      ensures ConnectionPhase.Run(run, acts) && run[|acts|] == View()
    {
      run, acts := [View()], [];
      for n := 0 to |events|
        invariant Inv(View()) && ConnectionPhase.Run(run, acts) && run[|acts|] == View()
      {
        if Enabled(left, running, events[n]) {
          OnEvent(events[n]);
          ExtendRun(run, acts, events[n], View());
          run, acts := run + [View()], acts + [events[n]];
        }
      }
      OrderlyConversation(View());
    }

    predicate OutOfPhaseNow(p: Packet) reads this
      ensures OutOfPhaseNow(p) <==> OutOfPhase(View(), p)
    {
      || (!p.Connect? && id == "")
      || (p.Connect? && id != "")
      || (auth.Authenticating? && !p.Auth? && !p.Disconnect?)
      || p.ServerOnly?
    }
  }
}
