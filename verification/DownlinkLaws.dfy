/** What a client and the store see of each step of the downlink engine, said without the
    functions that compute the steps: packets, entries, tokens and stored cursors. */
module DownlinkLaws {
  import opened Options
  import opened OutgoingInflight
  import opened Downlink
  import DownlinkTrace

  // ---- acknowledgements ----

  /** A queue task that was in flight and is not any more. */
  ghost predicate Departed(s: Link, s': Link, q: nat) {
    q in s.m && q !in s'.m && !s.m[q].retained
  }

  ghost function DepartedIDs(s: Link, s': Link): set<nat> {
    set q | q in s.m && Departed(s, s', q)
  }

  ghost function TaskIDs(es: seq<Entry>): set<nat> {
    set e | e in es && !e.retained :: e.packetID
  }

  lemma {:induction false} PositionCount(es: seq<Entry>)
    requires forall i, j :: 0 <= i < j < |es| ==> es[i].packetID != es[j].packetID
    ensures |TaskPositions(es)| == |TaskIDs(es)|
    decreases |es|
  {
    if es != [] {
      var n := |es| - 1;
      var last, init := es[n], es[..n];
      PositionCount(init);
      assert es == init + [last];
      assert TaskIDs(es) == TaskIDs(init) + if last.retained then {} else {last.packetID};
      assert last.packetID !in TaskIDs(init);
    }
  }

  lemma {:induction false} EveryPosition(es: seq<Entry>)
    ensures forall e :: e in es && !e.retained ==> e.task in TaskPositions(es)
    ensures forall x :: x in TaskPositions(es) ==> exists e :: e in es && !e.retained && e.task == x
    decreases |es|
  {
    if es != [] {
      EveryPosition(es[..|es| - 1]);
      assert es == es[..|es| - 1] + [es[|es| - 1]];
    }
  }

  lemma DepartedAreTasks(s: Link, p: nat, qos: nat, out: seq<Entry>, s': Link)
    requires Keyed(s.m) && AckStep(s, p, qos, out, s') && AckApplies(s, p, qos)
    ensures DepartedIDs(s, s') == TaskIDs(out)
    ensures forall e :: e in out ==> e.packetID in s.m && s.m[e.packetID].task == e.task
    ensures forall q :: Departed(s, s', q) ==> exists e :: e in out && !e.retained && e.packetID == q
  {
    var m1 := Acked(s.m, p);
    forall e | e in out ensures e.packetID in s.m && m1[e.packetID] == e && e.packetID !in s'.m {
      var i :| 0 <= i < |out| && out[i] == e;
      assert e.packetID in IDs(out);
    }
    forall q | q in s.m && q !in s'.m ensures exists e :: e in out && e.packetID == q {
      assert q in IDs(out);
    }
  }

  /** An acknowledgement stores one cursor per queue task it lets go: each of their positions,
      nothing else, and as many as tasks. */
  lemma AckStoresEveryCursor(cfg: Config, s: Link, p: nat, qos: nat, out: seq<Entry>, s': Link)
    requires Keyed(s.m) && Step(cfg, s, Ack(p, qos, out), s')
    ensures s.ackLog <= s'.ackLog && |s'.ackLog| == |s.ackLog| + |DepartedIDs(s, s')|
    ensures forall q :: Departed(s, s', q) ==> s.m[q].task in s'.ackLog[|s.ackLog|..]
    ensures forall x :: x in s'.ackLog[|s.ackLog|..] ==> exists q :: Departed(s, s', q) && s.m[q].task == x
  {
    if AckApplies(s, p, qos) {
      DepartedAreTasks(s, p, qos, out, s');
      EveryPosition(out);
      PositionCount(out);
      assert s'.ackLog[|s.ackLog|..] == TaskPositions(out);
      forall x | x in TaskPositions(out) ensures exists q :: Departed(s, s', q) && s.m[q].task == x {
        var e :| e in out && !e.retained && e.task == x;
        assert e.packetID in TaskIDs(out);
        assert Departed(s, s', e.packetID);
      }
    } else {
      assert DepartedIDs(s, s') == {};
    }
  }

  /** An entry leaves with the acknowledgement of p: everything up to it is acknowledged. */
  ghost predicate DoneUpTo(m: Table, p: nat, q: nat)
    requires q in m
  {
    forall r :: r in m && NotAfter(m[r].task, m[q].task) ==> r == p || m[r].acked
  }

  lemma PoppedExact(m: Table, p: nat, out: seq<Entry>, m': Table, q: nat)
    requires Keyed(m) && DistinctTasks(m) && p in m && Popped(Acked(m, p), out, m') && q in m
    ensures q !in m' <==> DoneUpTo(m, p, q)
  {
    var m1 := Acked(m, p);
    assert forall r :: r in m ==> m1[r].task == m[r].task && (m1[r].acked <==> r == p || m[r].acked);
    assert Keyed(m1) && DistinctTasks(m1);
    PoppedIsAckedPrefix(m1, out, m', q);
  }

  /** Which entries an acknowledgement lets go, and what it does to the others: it is ignored
      unless it fits an open entry; then an entry goes exactly if everything up to it in task
      order is acknowledged, and of what stays only the acknowledged entry is marked. */
  lemma AckLetsGoExact(cfg: Config, s: Link, p: nat, qos: nat, out: seq<Entry>, s': Link)
    requires Keyed(s.m) && DistinctTasks(s.m) && Step(cfg, s, Ack(p, qos, out), s')
    ensures p !in s.m || s.m[p].qos != qos || s.m[p].acked ==> s' == s
    ensures p in s.m && s.m[p].qos == qos && !s.m[p].acked ==>
              && (forall q :: q in s'.m ==> q in s.m && s'.m[q] == if q == p then s.m[p].(acked := true) else s.m[q])
              && (forall q :: q in s.m ==> (q !in s'.m <==> DoneUpTo(s.m, p, q)))
              && s'.tokens == (if s.m[p].tokenHeld && s.tokens < s.window then s.tokens + 1 else s.tokens)
              && s'.trace == s.trace && s'.cursor == s.cursor && s'.closed == s.closed
  {
    if AckApplies(s, p, qos) {
      forall q | q in s.m ensures q !in s'.m <==> DoneUpTo(s.m, p, q) {
        PoppedExact(s.m, p, out, s'.m, q);
      }
    }
  }

  lemma {:induction false} RunKeyed(cfg: Config, run: seq<Link>, acts: seq<Action>, i: nat)
    requires Run(cfg, run, acts) && Keyed(run[0].m) && i < |run|
    ensures Keyed(run[i].m)
    decreases i
  {
    if i > 0 {
      RunKeyed(cfg, run, acts, i - 1);
      assert Step(cfg, run[i - 1], acts[i - 1], run[i]);
      StepKeepsKeyed(cfg, run[i - 1], acts[i - 1], run[i]);
    }
  }

  lemma StepLog(cfg: Config, s: Link, a: Action, s': Link)
    requires Keyed(s.m) && Step(cfg, s, a, s')
    ensures s.ackLog <= s'.ackLog && (!a.Ack? ==> s'.ackLog == s.ackLog)
  {
    if a.Ack? {
      AckStoresEveryCursor(cfg, s, a.packetID, a.qos, a.out, s');
    }
  }

  lemma {:induction false} LogGrows(cfg: Config, run: seq<Link>, acts: seq<Action>, i: nat, j: nat)
    requires Run(cfg, run, acts) && Keyed(run[0].m) && i <= j < |run|
    ensures run[i].ackLog <= run[j].ackLog
    decreases j
  {
    if i < j {
      LogGrows(cfg, run, acts, i, j - 1);
      RunKeyed(cfg, run, acts, j - 1);
      assert Step(cfg, run[j - 1], acts[j - 1], run[j]);
      StepLog(cfg, run[j - 1], acts[j - 1], run[j]);
    }
  }

  /** The acknowledgement at step i let the queue task at `at` go. */
  ghost predicate LetGo(run: seq<Link>, acts: seq<Action>, i: nat, q: nat, at: Position)
    requires i < |acts| && |run| == |acts| + 1
  {
    acts[i].Ack? && Departed(run[i], run[i + 1], q) && run[i].m[q].task == at
  }

  /** Over every run: a queue task that left by acknowledgement had its cursor stored. */
  lemma AcknowledgedIsStored(cfg: Config, run: seq<Link>, acts: seq<Action>, i: nat, j: nat, q: nat, at: Position)
    requires Run(cfg, run, acts) && Keyed(run[0].m) && i < j < |run| && LetGo(run, acts, i, q, at)
    ensures at in run[j].ackLog
  {
    var s, s', a := run[i], run[i + 1], acts[i];
    RunKeyed(cfg, run, acts, i);
    assert Step(cfg, s, a, s');
    AckStoresEveryCursor(cfg, s, a.packetID, a.qos, a.out, s');
    assert at in s'.ackLog;
    LogGrows(cfg, run, acts, i + 1, j);
  }

  /** And nothing else was stored by the acknowledgement path. */
  lemma {:induction false} StoredIsAcknowledged(cfg: Config, run: seq<Link>, acts: seq<Action>, j: nat, k: nat)
    requires Run(cfg, run, acts) && Keyed(run[0].m) && run[0].ackLog == [] && j < |run| && k < |run[j].ackLog|
    ensures exists i, q :: 0 <= i < j && LetGo(run, acts, i, q, run[j].ackLog[k])
    decreases j
  {
    if j > 0 {
      var s, a, s' := run[j - 1], acts[j - 1], run[j];
      RunKeyed(cfg, run, acts, j - 1);
      assert Step(cfg, s, a, s');
      StepLog(cfg, s, a, s');
      if k < |s.ackLog| {
        StoredIsAcknowledged(cfg, run, acts, j - 1, k);
      } else {
        AckStoresEveryCursor(cfg, s, a.packetID, a.qos, a.out, s');
        var more := s'.ackLog[|s.ackLog|..];
        assert s'.ackLog[k] == more[k - |s.ackLog|] && more[k - |s.ackLog|] in more;
        var q :| Departed(s, s', q) && s.m[q].task == s'.ackLog[k];
        assert LetGo(run, acts, j - 1, q, run[j].ackLog[k]);
      }
    }
  }

  // ---- packets ----

  /** A positive PUBREC is answered with PUBREL, in exactly this case: it finds a QoS 2 entry
      that waits for it and the write gets out. The entry waits for PUBCOMP from then on. */
  lemma PubRecAnswered(cfg: Config, s: Link, p: nat, w: Write, s': Link)
    requires Keyed(s.m) && Step(cfg, s, PubRec(p, w), s')
    ensures if p in s.m && s.m[p].qos == 2 && s.m[p].stage == WaitingPubRec then
              && s'.m.Keys == s.m.Keys && s'.m[p] == s.m[p].(stage := WaitingPubComp)
              && (forall q :: q in s.m && q != p ==> s'.m[q] == s.m[q])
              && s'.trace == s.trace + (if w == Sent then [Wire(PubRelPacket, s.m[p].serial, p, false)] else [])
              && s' == s.(m := s'.m, trace := s'.trace)
            else s' == s
  {
  }

  /** The entry of a message that was just sent: it waits for the acknowledgement its QoS calls
      for, and occupies a place in the window. */
  ghost predicate JustSent(e: Entry, serial: nat, p: nat, qos: nat, at: Position, messageID: nat, now: int) {
    && e.serial == serial && e.packetID == p && e.qos == qos && e.task == at && e.messageID == messageID
    && e.stage == (if qos == 2 then WaitingPubRec else WaitingPubAck)
    && e.tokenHeld && !e.acked && e.retryCount == 0 && e.firstPub == e.lastSend == Some(now) && !e.persisted
  }

  /** Sent: one entry more, one token less, one PUBLISH on the wire. */
  ghost predicate Sends(s: Link, p: nat, s': Link) {
    && p !in s.m && s'.m.Keys == s.m.Keys + {p} && (forall q :: q in s.m ==> s'.m[q] == s.m[q])
    && s'.tokens == s.tokens - 1 && s'.trace == s.trace + [Wire(PublishPacket, s.nextSerial, p, false)]
    && s'.ackLog == s.ackLog && s'.closed == s.closed
  }

  /** Nothing but the runner's position and the numbering may have changed. */
  ghost predicate NothingSent(s: Link, s': Link) {
    s' == s.(cursor := s'.cursor, nextSerial := s'.nextSerial)
  }

  /** Delivering a task of QoS 1 or 2: what was sent is the task's message with the task's QoS,
      and the runner moves past it exactly unless the write failed. */
  lemma DeliveryIsFaithful(cfg: Config, s: Link, t: Task, p: nat, now: int, w: Write, s': Link)
    requires Step(cfg, s, Deliver(t, p, now, w), s')
    ensures s'.cursor == if w == Failed then s.cursor else t.position
    ensures w != Sent ==> NothingSent(s, s')
    ensures w == Sent ==>
              && Sends(s, p, s') && !s'.m[p].retained && s'.m[p].generation == t.generation
              && JustSent(s'.m[p], s.nextSerial, p, if t.qos >= 2 then 2 else 1, t.position, t.messageID, now)
  {
  }

  lemma RetainedIsFaithful(cfg: Config, s: Link, p: nat, qos: nat, ts: int, id: nat, packet: seq<nat>, w: Write,
                           s': Link)
    requires Step(cfg, s, SendRetained(p, qos, ts, id, packet, w), s')
    ensures s'.cursor == s.cursor
    ensures w != Sent ==> NothingSent(s, s')
    ensures w == Sent ==>
              && Sends(s, p, s') && s'.m[p].retained && s'.m[p].publishPacket == packet
              && JustSent(s'.m[p], s.nextSerial, p, qos, Position(ts, id), id, ts)
  {
  }

  /** A restored entry goes on where it stopped: PUBREL if it waits for PUBCOMP, else PUBLISH;
      without a token it waits, unsent. */
  lemma RestoreIsFaithful(cfg: Config, s: Link, e: Entry, w: Write, s': Link)
    requires Step(cfg, s, Restore(e, w), s')
    ensures s'.m.Keys == s.m.Keys + {e.packetID} && forall q :: q in s.m ==> s'.m[q] == s.m[q]
    ensures s.tokens == 0 ==>
              s'.trace == s.trace && s'.tokens == 0 && s'.m[e.packetID] == e.(tokenHeld := false, lastSend := None)
    ensures s.tokens > 0 ==>
              && s'.tokens == s.tokens - 1 && s'.m[e.packetID] == e.(tokenHeld := true)
              && s'.trace == s.trace + (if w != Sent then []
                                        else if e.stage == WaitingPubComp
                                        then [Wire(PubRelPacket, e.serial, e.packetID, false)]
                                        else [Wire(PublishPacket, e.serial, e.packetID, false)])
    ensures s'.cursor == s.cursor && s'.ackLog == s.ackLog && s'.closed == s.closed
  {
  }

  // ---- retransmission ----

  ghost predicate TooOld(e: Entry, cfg: Config, now: int) {
    cfg.maxAge > 0 && e.firstPub.Some? && now > e.firstPub.value + cfg.maxAge
  }

  ghost predicate TooSoon(e: Entry, cfg: Config, now: int) {
    cfg.interval > 0 && e.lastSend.Some? && now < e.lastSend.value + cfg.interval
  }

  /** A retransmission is attempted: the client is not given up, it is time, there is a token. */
  ghost predicate Due(s: Link, cfg: Config, p: nat, now: int)
    requires p in s.m
  {
    && !TooOld(s.m[p], cfg, now) && s.m[p].retryCount < cfg.maxRetries
    && !TooSoon(s.m[p], cfg, now) && (s.m[p].tokenHeld || s.tokens > 0)
  }

  /** When the connection is given up, what is written, and when an entry is dropped. */
  lemma RetransmitExact(cfg: Config, s: Link, p: nat, now: int, w: Write, s': Link)
    requires Step(cfg, s, Retransmit(p, now, w), s')
    ensures s'.closed <==> TooOld(s.m[p], cfg, now) || s.m[p].retryCount >= cfg.maxRetries
    ensures Due(s, cfg, p, now) && w == Sent ==>
              && s'.m.Keys == s.m.Keys && (forall q :: q in s.m && q != p ==> s'.m[q] == s.m[q])
              && s'.m[p] == s.m[p].(tokenHeld := true, lastSend := Some(now), retryCount := s.m[p].retryCount + 1)
              && s'.tokens == (if s.m[p].tokenHeld then s.tokens else s.tokens - 1)
              && s'.trace == s.trace + [Wire(if s.m[p].stage == WaitingPubComp then PubRelPacket else PublishPacket,
                                             s.m[p].serial, s.m[p].packetID, true)]
    ensures Due(s, cfg, p, now) && w == Oversized && s.tokens <= s.window ==>
              && s'.m == s.m - {p} && s'.trace == s.trace
              && s'.tokens == (if s.m[p].tokenHeld && s.tokens < s.window then s.tokens + 1 else s.tokens)
    ensures (!Due(s, cfg, p, now) || w == Failed) && s.tokens <= s.window ==> s' == s.(closed := s'.closed)
    ensures s'.cursor == s.cursor && s'.ackLog == s.ackLog
  {
  }

  /** At step k the message with this serial is retransmitted. */
  ghost predicate ResentAt(run: seq<Link>, acts: seq<Action>, k: nat, serial: nat)
    requires k < |acts| && |run| == |acts| + 1
  {
    && acts[k].Retransmit? && acts[k].packetID in run[k].m && run[k].m[acts[k].packetID].serial == serial
    && run[k + 1].trace != run[k].trace
  }

  ghost predicate LastSent(s: Link, serial: nat, since: int) {
    && serial < s.nextSerial
    && forall p :: p in s.m && s.m[p].serial == serial ==> s.m[p].lastSend.Some? && s.m[p].lastSend.value >= since
  }

  lemma StepLastSent(cfg: Config, s: Link, a: Action, s': Link, serial: nat, since: int)
    requires Step(cfg, s, a, s') && LastSent(s, serial, since) && cfg.interval > 0
    ensures LastSent(s', serial, since)
  {
    match a
    case Retransmit(p, now, w) => RetransmitExact(cfg, s, p, now, w, s');
    case _ =>
  }

  lemma {:induction false} RunLastSent(cfg: Config, run: seq<Link>, acts: seq<Action>, i: nat, j: nat, serial: nat,
                                       since: int)
    requires Run(cfg, run, acts) && i <= j < |run| && LastSent(run[i], serial, since) && cfg.interval > 0
    ensures LastSent(run[j], serial, since)
    decreases j
  {
    if i < j {
      RunLastSent(cfg, run, acts, i, j - 1, serial, since);
      assert Step(cfg, run[j - 1], acts[j - 1], run[j]);
      StepLastSent(cfg, run[j - 1], acts[j - 1], run[j], serial, since);
    }
  }

  lemma ResentNow(cfg: Config, run: seq<Link>, acts: seq<Action>, i: nat, serial: nat)
    requires Run(cfg, run, acts) && Opened(run[0]) && i < |acts| && ResentAt(run, acts, i, serial)
    ensures LastSent(run[i + 1], serial, acts[i].now)
    ensures var e := run[i].m[acts[i].packetID];
            cfg.interval > 0 && e.lastSend.Some? ==> acts[i].now >= e.lastSend.value + cfg.interval
  {
    assert Step(cfg, run[i], acts[i], run[i + 1]);
    RetransmitExact(cfg, run[i], acts[i].packetID, acts[i].now, acts[i].write, run[i + 1]);
    DownlinkTrace.RunSound(cfg, run, acts, i + 1);
    assert Due(run[i], cfg, acts[i].packetID, acts[i].now);
  }

  /** Over every run, two retransmissions of one message are at least the interval apart. */
  lemma RetransmissionsAreSpaced(cfg: Config, run: seq<Link>, acts: seq<Action>, i: nat, j: nat, serial: nat)
    requires Run(cfg, run, acts) && Opened(run[0]) && i < j < |acts| && cfg.interval > 0
    requires ResentAt(run, acts, i, serial) && ResentAt(run, acts, j, serial)
    ensures acts[j].now >= acts[i].now + cfg.interval
  {
    ResentNow(cfg, run, acts, i, serial);
    RunLastSent(cfg, run, acts, i + 1, j, serial, acts[i].now);
    ResentNow(cfg, run, acts, j, serial);
  }

  // ---- a whole exchange ----

  /** Nothing is in flight before the task, or only what was acknowledged. */
  ghost predicate NextInLine(m: Table, at: Position) {
    forall q :: q in m ==> m[q].task != at && (Before(m[q].task, at) ==> m[q].acked)
  }

  /** Half-way: everything but the final acknowledgement has happened. */
  ghost predicate OnTheWay(s: Link, p: nat, qos: nat, at: Position) {
    && Keyed(s.m) && DistinctTasks(s.m) && s.tokens < s.window
    && p in s.m && s.m[p].qos == qos && !s.m[p].acked && s.m[p].tokenHeld && !s.m[p].retained && s.m[p].task == at
    && DoneUpTo(s.m, p, p)
  }

  lemma DeliveredOnTheWay(cfg: Config, s: Link, t: Task, p: nat, now: int, s': Link)
    requires Keyed(s.m) && DistinctTasks(s.m) && NextInLine(s.m, t.position) && s.tokens <= s.window
    requires Step(cfg, s, Deliver(t, p, now, Sent), s')
    ensures OnTheWay(s', p, if t.qos >= 2 then 2 else 1, t.position)
  {
    DeliveryIsFaithful(cfg, s, t, p, now, Sent, s');
    assert forall q :: q in s.m ==> s'.m[q] == s.m[q];
  }

  lemma ReleasedOnTheWay(cfg: Config, s: Link, p: nat, qos: nat, at: Position, s': Link)
    requires OnTheWay(s, p, qos, at) && Step(cfg, s, PubRec(p, Sent), s')
    ensures OnTheWay(s', p, qos, at)
  {
    PubRecAnswered(cfg, s, p, Sent, s');
    assert s'.m.Keys == s.m.Keys;
    assert forall q :: q in s.m ==> s'.m[q].task == s.m[q].task && s'.m[q].acked == s.m[q].acked;
  }

  lemma AcknowledgedLeaves(cfg: Config, s: Link, p: nat, qos: nat, at: Position, out: seq<Entry>, s': Link)
    requires OnTheWay(s, p, qos, at) && Step(cfg, s, Ack(p, qos, out), s')
    ensures p !in s'.m && at in s'.ackLog && s'.tokens == s.tokens + 1 && s'.trace == s.trace
  {
    AckLetsGoExact(cfg, s, p, qos, out, s');
    AckStoresEveryCursor(cfg, s, p, qos, out, s');
    assert Departed(s, s', p);
  }

  /** A task that is delivered and acknowledged in full: PUBLISH, for QoS 2 also PUBREL, and if
      nothing open is before it, it leaves, its cursor is stored, its token is back. */
  lemma ExchangeCompletes(cfg: Config, s0: Link, t: Task, p: nat, now: int, s1: Link, s2: Link, out: seq<Entry>,
                          s3: Link)
    requires Keyed(s0.m) && DistinctTasks(s0.m) && NextInLine(s0.m, t.position) && s0.tokens <= s0.window
    requires Step(cfg, s0, Deliver(t, p, now, Sent), s1)
    requires if t.qos >= 2 then Step(cfg, s1, PubRec(p, Sent), s2) else s2 == s1
    requires Step(cfg, s2, Ack(p, if t.qos >= 2 then 2 else 1, out), s3)
    ensures s3.trace == s0.trace + [Wire(PublishPacket, s0.nextSerial, p, false)]
                        + if t.qos >= 2 then [Wire(PubRelPacket, s0.nextSerial, p, false)] else []
    ensures p !in s3.m && t.position in s3.ackLog && s3.tokens == s0.tokens
  {
    DeliveredOnTheWay(cfg, s0, t, p, now, s1);
    DeliveryIsFaithful(cfg, s0, t, p, now, Sent, s1);
    var qos := if t.qos >= 2 then 2 else 1;
    if qos == 2 {
      ReleasedOnTheWay(cfg, s1, p, qos, t.position, s2);
      PubRecAnswered(cfg, s1, p, Sent, s2);
    }
    AcknowledgedLeaves(cfg, s2, p, qos, t.position, out, s3);
  }
}
