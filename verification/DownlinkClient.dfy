/** The downlink half of the broker's client object: the delivery runner of
    delivery_runner.go and the acknowledgement handlers of client_handler_qos_flow.go,
    working in place on the in-flight store and the token bucket. Every method is one step
    of the Downlink state machine. */
module DownlinkClient {
  import opened Options
  import opened OutgoingInflight
  import opened PacketIDs
  import opened Downlink
  import opened DownlinkLaws

  /** rate.Bucket with a positive capacity. */
  class Bucket {
    const num: nat
    var tokens: nat

    ghost predicate Valid()
      reads this
    {
      tokens <= num
    }

    constructor (num: nat)
      ensures Valid() && this.num == num && tokens == num
    {
      this.num, tokens := num, num;
    }

    method TryGetToken() returns (ok: bool)
      requires Valid()
      modifies this
      ensures Valid() && ok == (old(tokens) > 0) && tokens == if ok then old(tokens) - 1 else old(tokens)
    {
      ok := tokens > 0;
      if ok {
        tokens := tokens - 1;
      }
    }

    method PutToken()
      requires Valid()
      modifies this
      ensures Valid() && tokens == Returned(old(tokens), num)
    {
      if tokens < num {
        tokens := tokens + 1;
      }
    }
  }

  // What loading a task's payload and applying the pre-send rules decided.
  datatype Load = Unreadable | Dropped | Deliverable

  /** Which step delivering a task is. */
  ghost predicate DeliveryOf(s: Link, t: Task, now: int, load: Load, w: Write, a: Action) {
    match load
    case Unreadable => a == Skip(t, Failed)
    case Dropped => a == Skip(t, Sent)
    case Deliverable =>
      if DeliveryQoS(t.qos) == 0 then a == Skip(t, w)
      else if Exhausted(s.m) then a == Exhaust(t)
      else a.Deliver? && a == Deliver(t, a.packetID, now, w)
  }

  /** Delivering moves the runner's cursor: the task was dropped, sent or too large to send. */
  ghost predicate Moves(s: Link, t: Task, load: Load, w: Write) {
    || load.Dropped?
    || (load.Deliverable? && w != Failed && (DeliveryQoS(t.qos) == 0 || !Exhausted(s.m)))
  }

  /** No acknowledgement will come, so the cursor is stored at once. */
  predicate StoresCursor(t: Task, load: Load, w: Write) {
    load.Dropped? || (load.Deliverable? && (DeliveryQoS(t.qos) == 0 || w == Oversized))
  }

  /** Delivering the k-th task did not move the cursor, or could not store it. */
  ghost predicate StopsAt(run: seq<Link>, k: nat, tasks: seq<Task>, loads: seq<Load>, writes: seq<Write>,
                          stored: seq<bool>)
    requires k < |run| && k < |tasks| && |loads| == |writes| == |stored| == |tasks|
  {
    Moves(run[k], tasks[k], loads[k], writes[k]) ==> StoresCursor(tasks[k], loads[k], writes[k]) && !stored[k]
  }

  /** The task's message is in flight under a new identifier, and its PUBLISH is on the wire. */
  ghost predicate Delivers(s: Link, t: Task, a: Action, now: int, s': Link) {
    && a.Deliver? && Sends(s, a.packetID, s')
    && !s'.m[a.packetID].retained && s'.m[a.packetID].generation == t.generation
    && JustSent(s'.m[a.packetID], s.nextSerial, a.packetID, if t.qos >= 2 then 2 else 1, t.position, t.messageID, now)
  }

  /** What delivering a task puts on the wire and into the store. */
  ghost predicate Sees(s: Link, t: Task, load: Load, w: Write, a: Action, now: int, s': Link) {
    if load.Deliverable? && t.qos > 0 && !Exhausted(s.m) && w == Sent then Delivers(s, t, a, now, s')
    else s'.trace == s.trace && s'.m == s.m
  }

  /** One cursor was stored for each queue task that left. */
  ghost predicate StoresCursors(s: Link, s': Link) {
    && s.ackLog <= s'.ackLog && |s'.ackLog| == |s.ackLog| + |DepartedIDs(s, s')|
    && forall q :: Departed(s, s', q) ==> s.m[q].task in s'.ackLog[|s.ackLog|..]
  }

  class Client {
    const store: Store
    const bucket: Bucket
    const ids: Factory
    const cfg: Config
    var cursor: Position
    var closed: bool
    var nextSerial: nat
    ghost var trace: seq<Wire>
    ghost var ackLog: seq<Position>

    ghost predicate Valid()
      reads this, store, bucket, ids
    {
      store.Valid() && bucket.Valid() && ids.Valid()
    }

    ghost function View(): Link
      reads this, store, bucket
    {
      Link(store.m, bucket.tokens, bucket.num, cursor, ackLog, trace, nextSerial, closed)
    }

    /** setupPublishBucket: the window is the client's Receive Maximum, at least 1. */
    constructor (window: nat, cfg: Config, start: Position, firstID: nat)
      requires firstID <= MAX_ID
      ensures Valid() && Opened(View()) && cursor == start
      ensures bucket.num == if window > 0 then window else 1
      ensures fresh(store) && fresh(bucket) && fresh(ids)
    {
      store := new Store();
      bucket := new Bucket(if window > 0 then window else 1);
      ids := new Factory(firstID);
      this.cfg := cfg;
      cursor, closed, nextSerial := start, false, 0;
      trace, ackLog := [], [];
    }

    /** deliverSingleClientDeliveryTask. `stored` is what AdvanceCursor reported if it was
        called: the runner's cursor has moved by then, whatever the report. */
    method DeliverTask(t: Task, now: int, load: Load, w: Write, stored: bool) returns (ok: bool, ghost a: Action)
      requires Valid() && !closed && bucket.tokens > 0 && Before(cursor, t.position)
      modifies this, store, bucket, ids
      ensures Valid() && Step(cfg, old(View()), a, View()) && DeliveryOf(old(View()), t, now, load, w, a)
      ensures cursor == if Moves(old(View()), t, load, w) then t.position else old(cursor)
      ensures ok <==> Moves(old(View()), t, load, w) && (StoresCursor(t, load, w) ==> stored)
      ensures ok ==> !closed
      ensures Sees(old(View()), t, load, w, a, now, View())
      ensures cursor != old(cursor) <==>
                load.Dropped? || (load.Deliverable? && w != Failed && (t.qos <= 0 || !old(Exhausted(store.m))))
      ensures closed <==> load.Deliverable? && t.qos > 0 && old(Exhausted(store.m))
    {
      if load == Unreadable {
        return false, Skip(t, Failed);
      }
      if load == Dropped {
        cursor := t.position;
        return stored, Skip(t, Sent);
      }
      if DeliveryQoS(t.qos) == 0 {
        a := Skip(t, w);
        if w == Failed {
          return false, a;
        }
        cursor := t.position;
        return stored, a;
      }
      ok, a := DeliverTracked(t, now, w, stored);
    }

    /** prepareDeliveryQoSAndInflight, the write, and its rollback, for QoS 1 and QoS 2. */
    method DeliverTracked(t: Task, now: int, w: Write, stored: bool) returns (ok: bool, ghost a: Action)
      requires Valid() && !closed && bucket.tokens > 0 && Before(cursor, t.position) && DeliveryQoS(t.qos) > 0
      modifies this, store, bucket, ids
      ensures Valid() && Step(cfg, old(View()), a, View()) && DeliveryOf(old(View()), t, now, Deliverable, w, a)
      ensures cursor == if Moves(old(View()), t, Deliverable, w) then t.position else old(cursor)
      ensures ok <==> Moves(old(View()), t, Deliverable, w) && (w == Oversized ==> stored)
      ensures ok ==> !closed
      ensures if !old(Exhausted(store.m)) && w == Sent then Delivers(old(View()), t, a, now, View())
              else trace == old(trace) && store.m == old(store.m)
    {
      var p := ids.NextPacketID(store.m);
      if p == 0 {
        closed := true;
        return false, Exhaust(t);
      }
      a := Deliver(t, p, now, w);
      var _ := bucket.TryGetToken();
      var e := NewEntry(nextSerial, t, p, now);
      nextSerial := nextSerial + 1;
      var replaced := store.Put(e);
      if replaced {
        assert false;
      }
      if w == Sent {
        trace := trace + [PacketFor(e, false)];
        ok := true;
      } else {
        var found := store.Delete(p);
        assert store.m == old(store.m);
        bucket.PutToken();
        ok := w == Oversized && stored;
      }
      if w != Failed {
        cursor := t.position;
      }
      DeliveryIsFaithful(cfg, old(View()), t, p, now, w, View());
    }

    /** One round of the loop below, which extends the run so far. */
    method DeliverNext(ghost run: seq<Link>, ghost acts: seq<Action>, t: Task, now: int, load: Load, w: Write,
                       stored: bool)
      returns (ok: bool, ghost more: seq<Action>)
      requires Valid() && !closed && bucket.tokens > 0 && Before(cursor, t.position)
      requires Run(cfg, run, acts) && run[|acts|] == View()
      modifies this, store, bucket, ids
      ensures Valid() && |more| == |acts| + 1 && more[..|acts|] == acts && Run(cfg, run + [View()], more)
      ensures DeliveryOf(old(View()), t, now, load, w, more[|acts|])
      ensures cursor == if Moves(old(View()), t, load, w) then t.position else old(cursor)
      ensures ok <==> Moves(old(View()), t, load, w) && (StoresCursor(t, load, w) ==> stored)
    {
      ghost var a;
      ok, a := DeliverTask(t, now, load, w, stored);
      ExtendRun(cfg, run, acts, a, View());
      more := acts + [a];
    }

    /** deliverClientDeliveryTasks: in order, while a token is left, until the first failure. */
    method DeliverTasks(tasks: seq<Task>, now: int, loads: seq<Load>, writes: seq<Write>, stored: seq<bool>)
      returns (ghost run: seq<Link>, ghost acts: seq<Action>)
      requires Valid() && |loads| == |writes| == |stored| == |tasks|
      requires forall i, j :: 0 <= i < j < |tasks| ==> Before(tasks[i].position, tasks[j].position)
      requires tasks != [] ==> Before(cursor, tasks[0].position)
      modifies this, store, bucket, ids
      ensures Valid() && Run(cfg, run, acts) && run[0] == old(View()) && run[|acts|] == View()
      ensures |acts| <= |tasks|
      ensures forall k :: 0 <= k < |acts| ==> DeliveryOf(run[k], tasks[k], now, loads[k], writes[k], acts[k])
      ensures |acts| < |tasks| ==>
                || closed || bucket.tokens == 0
                || (|acts| > 0 && StopsAt(run, |acts| - 1, tasks, loads, writes, stored))
    {
      run, acts := [View()], [];
      for n := 0 to |tasks|
        invariant Valid() && Run(cfg, run, acts) && run[0] == old(View()) && run[|acts|] == View()
        invariant |acts| == n && (n < |tasks| ==> Before(cursor, tasks[n].position))
        invariant forall k :: 0 <= k < n ==> DeliveryOf(run[k], tasks[k], now, loads[k], writes[k], acts[k])
      {
        if closed || bucket.tokens == 0 {
          return;
        }
        var ok;
        ok, acts := DeliverNext(run, acts, tasks[n], now, loads[n], writes[n], stored[n]);
        run := run + [View()];
        if !ok {
          return;
        }
      }
    }

    /** maybeRetransmitOutgoingInflight. */
    method MaybeRetransmit(now: int, w: Write) returns (ghost a: Action)
      requires Valid() && !closed
      modifies this, store, bucket
      ensures Valid()
      ensures Step(cfg, old(View()), a, View())
      ensures if forall p :: p in old(store.m) ==> old(store.m)[p].acked then a == Idle
              else a.Retransmit? && a.now == now
      ensures a.Retransmit? ==> a.write == w || (w == Oversized && a.write == Failed)
    {
      var first := store.FirstUnacked();
      if first.None? {
        return Idle;
      }
      var e := first.value;
      var write := if e.stage == WaitingPubComp && w == Oversized then Failed else w;
      a := Retransmit(e.packetID, now, write);
      if GivesUp(e, cfg, now) {
        closed := true;
        return;
      }
      if MustWait(e, cfg, now) {
        return;
      }
      Resend(e.packetID, now, write);
    }

    /** acquireRetransmitFlowToken, the write of the retransmission and what follows it; without
        a token nothing happens. */
    method Resend(p: nat, now: int, w: Write)
      requires Valid() && p in store.m
      modifies this, store, bucket
      ensures Valid()
      ensures View() == if old(store.m[p].tokenHeld || bucket.tokens > 0) then ResendStep(old(View()), p, now, w)
                        else old(View())
    {
      if store.m[p].tokenHeld {
        SendAgain(p, false, now, w);
      } else {
        AcquireAndSend(p, now, w);
      }
    }

    method AcquireAndSend(p: nat, now: int, w: Write)
      requires Valid() && p in store.m && !store.m[p].tokenHeld
      modifies this`trace, store, bucket
      ensures Valid()
      ensures View() == if old(bucket.tokens) > 0 then ResendStep(old(View()), p, now, w) else old(View())
    {
      var ok := bucket.TryGetToken();
      if !ok {
        return;
      }
      var _ := store.MarkTokenHeld(p);
      SendAgain(p, true, now, w);
      assert w == Failed ==> store.m == old(store.m);
    }

    method SendAgain(p: nat, acquired: bool, now: int, w: Write)
      requires Valid() && p in store.m && store.m[p].tokenHeld
      modifies this`trace, store, bucket
      ensures Valid()
      ensures w == Sent ==>
                && store.m == old(store.m)[p := Resent(old(store.m)[p], now)] && bucket.tokens == old(bucket.tokens)
                && trace == old(trace) + [PacketFor(old(store.m)[p], true)]
      ensures w != Sent ==> trace == old(trace)
      ensures w == Oversized ==>
                store.m == old(store.m) - {p} && bucket.tokens == Returned(old(bucket.tokens), bucket.num)
      ensures w == Failed && acquired ==>
                && store.m == old(store.m)[p := old(store.m)[p].(tokenHeld := false)]
                && bucket.tokens == Returned(old(bucket.tokens), bucket.num)
      ensures w == Failed && !acquired ==> store.m == old(store.m) && bucket.tokens == old(bucket.tokens)
    {
      if w == Sent {
        trace := trace + [PacketFor(store.m[p], true)];
        var _ := store.MarkSent(p, now);
      } else if w == Oversized {
        var _ := store.Delete(p);
        bucket.PutToken();
      } else if acquired {
        store.ClearTokenHeld(p);
        bucket.PutToken();
      }
    }

    /** completeTerminalOutgoingInflight. */
    method CompleteTerminal(p: nat, qos: nat) returns (ghost a: Action)
      requires Valid()
      modifies this, store, bucket
      ensures Valid() && a.Ack? && a.packetID == p && a.qos == qos
      ensures Step(cfg, old(View()), a, View())
      ensures StoresCursors(old(View()), View()) && trace == old(trace)
    {
      var e := store.MarkAcked(p, qos);
      if e.None? {
        assert DepartedIDs(old(View()), View()) == {};
        return Ack(p, qos, []);
      }
      if e.value.tokenHeld {
        bucket.PutToken();
      }
      var out := store.PopAckedInOrder();
      AdvanceCursors(out);
      a := Ack(p, qos, out);
      AckStoresEveryCursor(cfg, old(View()), p, qos, out, View());
    }

    /** advanceAckedOutgoingInflight: one AdvanceCursor call per completed queue task. */
    method AdvanceCursors(out: seq<Entry>)
      modifies this`ackLog
      ensures ackLog == old(ackLog) + TaskPositions(out)
      ensures forall e :: e in out && !e.retained ==> e.task in ackLog[|old(ackLog)|..]
      ensures (forall i, j :: 0 <= i < j < |out| ==> out[i].packetID != out[j].packetID) ==>
                |ackLog| == |old(ackLog)| + |TaskIDs(out)|
    {
      for n := 0 to |out|
        invariant ackLog == old(ackLog) + TaskPositions(out[..n])
      {
        assert out[..n + 1][..n] == out[..n];
        if !out[n].retained {
          ackLog := ackLog + [out[n].task];
        }
      }
      assert out[..|out|] == out;
      assert ackLog[|old(ackLog)|..] == TaskPositions(out);
      EveryPosition(out);
      if forall i, j :: 0 <= i < j < |out| ==> out[i].packetID != out[j].packetID {
        PositionCount(out);
      }
    }

    /** handlePubAck: success and negative acknowledgement both complete the entry. */
    method HandlePubAck(p: nat) returns (ghost a: Action)
      requires Valid()
      modifies this, store, bucket
      ensures Valid() && Step(cfg, old(View()), a, View())
      ensures a.Ack? && a.packetID == p && a.qos == 1
      ensures StoresCursors(old(View()), View()) && trace == old(trace)
    {
      a := CompleteTerminal(p, 1);
    }

    /** handlePubRec: a negative PUBREC completes the entry, a positive one answers PUBREL. */
    method HandlePubRec(p: nat, negative: bool, w: Write) returns (ghost a: Action)
      requires Valid()
      modifies this, store, bucket
      ensures Valid() && Step(cfg, old(View()), a, View())
      ensures if negative then a.Ack? && a.packetID == p && a.qos == 2 else a == PubRec(p, w)
      ensures negative ==> StoresCursors(old(View()), View())
      ensures if !negative && w == Sent && old(p in store.m && store.m[p].qos == 2 && store.m[p].stage == WaitingPubRec)
              then trace == old(trace) + [Wire(PubRelPacket, old(store.m)[p].serial, p, false)]
              else trace == old(trace)
      ensures !negative ==>
                store.m == if old(p in store.m && store.m[p].qos == 2 && store.m[p].stage == WaitingPubRec)
                           then old(store.m)[p := old(store.m)[p].(stage := WaitingPubComp)] else old(store.m)
    {
      if negative {
        a := CompleteTerminal(p, 2);
        return;
      }
      a := PubRec(p, w);
      var e := store.Get(p);
      if e.Some? && e.value.qos == 2 && e.value.stage == WaitingPubRec {
        store.UpdateStage(p, WaitingPubComp);
        if w == Sent {
          trace := trace + [PacketFor(store.m[p], false)];
        }
      }
    }

    method HandlePubComp(p: nat) returns (ghost a: Action)
      requires Valid()
      modifies this, store, bucket
      ensures Valid() && Step(cfg, old(View()), a, View())
      ensures a.Ack? && a.packetID == p && a.qos == 2
      ensures StoresCursors(old(View()), View()) && trace == old(trace)
    {
      a := CompleteTerminal(p, 2);
    }

    /** Its second half: register the entry and write; a failed write takes both back. */
    method PutAndWrite(e: Entry, sent: bool)
      requires Valid() && e.packetID !in store.m && e.packetID != 0
      modifies this, store, bucket
      ensures Valid()
      ensures View() == old(View()).(nextSerial := old(nextSerial) + 1,
                                     m := if sent then old(store.m)[e.packetID := e] else old(store.m),
                                     trace := old(trace) + if sent then [PacketFor(e, false)] else [],
                                     tokens := if sent then old(bucket.tokens)
                                               else Returned(old(bucket.tokens), bucket.num))
    {
      nextSerial := nextSerial + 1;
      var replaced := store.Put(e);
      if replaced {
        assert false;
      }
      if sent {
        trace := trace + [PacketFor(e, false)];
      } else {
        var _ := store.Delete(e.packetID);
        assert store.m == old(store.m);
        bucket.PutToken();
      }
    }

    /** writeRetainedPublish for QoS 1 and QoS 2. With no token left it waits, and nothing has
        happened yet. After the connection ended the wait is over at once, with or without a
        token (`took`), and the write fails: the store is as before, but a token that was not
        taken is returned all the same. */
    method WriteRetained(qos: nat, ts: int, messageID: nat, packet: seq<nat>, w: Write, took: bool)
      returns (ghost a: Action)
      requires Valid() && (qos == 1 || qos == 2)
      modifies this, store, bucket, ids
      ensures Valid() && closed == old(closed)
      ensures !old(closed) ==> Step(cfg, old(View()), a, View())
      ensures if old(Exhausted(store.m)) || (!old(closed) && old(bucket.tokens) == 0) then a == Idle
              else a.SendRetained? && a == SendRetained(a.packetID, qos, ts, messageID, packet, w)
      ensures a == Idle ==> View() == old(View())
      ensures if !old(closed) && a.SendRetained? && w == Sent then
                && Sends(old(View()), a.packetID, View()) && store.m[a.packetID].retained
                && store.m[a.packetID].publishPacket == packet
                && JustSent(store.m[a.packetID], old(nextSerial), a.packetID, qos, Position(ts, messageID), messageID,
                            ts)
              else trace == old(trace) && store.m == old(store.m)
      ensures old(closed) && a != Idle ==>
                View() == old(View()).(nextSerial := old(nextSerial) + 1,
                                       tokens := if took && old(bucket.tokens) > 0 then old(bucket.tokens)
                                                 else Returned(old(bucket.tokens), bucket.num))
    {
      var p := ids.NextPacketID(store.m);
      if p == 0 {
        return Idle;
      }
      if took || !closed {
        var held := bucket.TryGetToken();
        if !held && !closed {
          return Idle;
        }
      }
      a := SendRetained(p, qos, ts, messageID, packet, w);
      PutAndWrite(RetainedEntry(nextSerial, p, qos, ts, messageID, packet), w == Sent && !closed);
    }

    /** restoreOneOutgoingInflight and restoreRetainedOutgoingInflight. */
    method RestoreEntry(e: Entry, w: Write)
      requires Valid() && !closed && Restorable(View(), e)
      modifies this, store, bucket
      ensures Valid() && Step(cfg, old(View()), Restore(e, w), View())
      ensures if old(bucket.tokens) == 0 || w != Sent then trace == old(trace)
              else if e.stage == WaitingPubComp
              then trace == old(trace) + [Wire(PubRelPacket, e.serial, e.packetID, false)]
              else trace == old(trace) + [Wire(PublishPacket, e.serial, e.packetID, false)]
    {
      var held := bucket.TryGetToken();
      nextSerial := nextSerial + 1;
      if held {
        var _ := store.Put(e.(tokenHeld := true));
        if w == Sent {
          trace := trace + [PacketFor(e, false)];
        }
      } else {
        var _ := store.Put(e.(tokenHeld := false, lastSend := None));
      }
    }
  }
}
