/** The downlink delivery engine as a state machine.

    Each runner action (deliver one task, retransmit one entry), each retained send, each
    restored entry and each inbound acknowledgement is one atomic step. What the network
    did with a write is part of the step. */
module Downlink {
  import opened Options
  import opened OutgoingInflight
  import opened PacketIDs

  // config.DeliveryRunner after its sanitisation: the retry limit is never negative.
  datatype Config = Config(maxRetries: nat, interval: int, maxAge: int)

  datatype Task = Task(position: Position, qos: int, generation: int, messageID: nat)

  // What c.Write reported: sent, discarded because it exceeds the client's Maximum Packet
  // Size, or any other error.
  datatype Write = Sent | Oversized | Failed

  datatype Kind = PublishPacket | PubRelPacket

  // A packet put on the socket for an entry; `resend` marks the retransmissions that count.
  datatype Wire = Wire(kind: Kind, serial: nat, packetID: nat, resend: bool)

  datatype Link = Link(
    m: Table,
    tokens: nat,
    window: nat,              // the client's Receive Maximum
    cursor: Position,         // the runner's in-memory position
    ackLog: seq<Position>,    // cursors the acknowledgement path passed to AdvanceCursor
    trace: seq<Wire>,
    nextSerial: nat,               // serial of the next entry
    closed: bool)

  datatype Action =
    | Skip(task: Task, write: Write)
    | Deliver(task: Task, packetID: nat, now: int, write: Write)
    | Exhaust(task: Task)
    | SendRetained(packetID: nat, qos: nat, ts: int, messageID: nat, packet: seq<nat>, write: Write)
    | Restore(entry: Entry, write: Write)
    | Retransmit(packetID: nat, now: int, write: Write)
    | Ack(packetID: nat, qos: nat, out: seq<Entry>)
    | PubRec(packetID: nat, write: Write)
    | Close
    | Idle

  // ---- pieces of the steps ----

  function DeliveryQoS(qos: int): (q: nat)
    ensures q <= 2
  {
    if qos >= 2 then 2 else if qos <= 0 then 0 else 1
  }

  function FirstStage(qos: nat): Stage {
    if qos == 2 then WaitingPubRec else WaitingPubAck
  }

  function NewEntry(serial: nat, t: Task, packetID: nat, now: int): Entry {
    var q := DeliveryQoS(t.qos);
    Entry(serial, packetID, q, t.position, t.generation, t.messageID, false, [], Some(now), Some(now), 0,
          false, true, FirstStage(q), false)
  }

  function RetainedEntry(serial: nat, packetID: nat, qos: nat, ts: int, messageID: nat, packet: seq<nat>): Entry {
    Entry(serial, packetID, qos, Position(ts, messageID), 0, messageID, true, packet, Some(ts), Some(ts), 0,
          false, true, FirstStage(qos), false)
  }

  /** Bucket.PutToken: a token beyond the capacity is dropped. */
  function Returned(tokens: nat, window: nat): nat {
    if tokens < window then tokens + 1 else tokens
  }

  predicate GivesUp(e: Entry, cfg: Config, now: int) {
    || (cfg.maxAge > 0 && e.firstPub.Some? && now - e.firstPub.value > cfg.maxAge)
    || e.retryCount >= cfg.maxRetries
  }

  predicate MustWait(e: Entry, cfg: Config, now: int) {
    cfg.interval > 0 && e.lastSend.Some? && now - e.lastSend.value < cfg.interval
  }

  function PacketFor(e: Entry, resend: bool): Wire {
    Wire(if e.stage == WaitingPubComp then PubRelPacket else PublishPacket, e.serial, e.packetID, resend)
  }

  function TaskPositions(es: seq<Entry>): seq<Position> {
    if es == [] then []
    else TaskPositions(es[..|es| - 1]) + (if es[|es| - 1].retained then [] else [es[|es| - 1].task])
  }

  // ---- the steps ----

  /** A QoS 0 send, or a task dropped before sending: the cursor moves without an entry. */
  function SkipStep(s: Link, t: Task, w: Write): Link {
    if w == Failed then s else s.(cursor := t.position)
  }

  function DeliverStep(s: Link, t: Task, packetID: nat, now: int, w: Write): Link
    requires s.tokens > 0
  {
    var e := NewEntry(s.nextSerial, t, packetID, now);
    match w
    case Sent =>
      s.(m := s.m[packetID := e], tokens := s.tokens - 1, cursor := t.position,
         trace := s.trace + [PacketFor(e, false)], nextSerial := s.nextSerial + 1)
    case Oversized => s.(cursor := t.position, nextSerial := s.nextSerial + 1)
    case Failed => s.(nextSerial := s.nextSerial + 1)
  }

  function RetainedStep(s: Link, e: Entry, w: Write): Link
    requires s.tokens > 0
  {
    if w == Sent then
      s.(m := s.m[e.packetID := e], tokens := s.tokens - 1,
         trace := s.trace + [PacketFor(e, false)], nextSerial := s.nextSerial + 1)
    else s.(nextSerial := s.nextSerial + 1)
  }

  /** registerRestoredOutgoingInflight and the first resend of a restored entry. */
  function RestoreStep(s: Link, e: Entry, w: Write): Link {
    if s.tokens == 0 then
      s.(m := s.m[e.packetID := e.(tokenHeld := false, lastSend := None)], nextSerial := s.nextSerial + 1)
    else
      s.(m := s.m[e.packetID := e.(tokenHeld := true)], tokens := s.tokens - 1, nextSerial := s.nextSerial + 1,
         trace := if w == Sent then s.trace + [PacketFor(e, false)] else s.trace)
  }

  function ResendStep(s: Link, p: nat, now: int, w: Write): Link
    requires p in s.m && (s.m[p].tokenHeld || s.tokens > 0)
  {
    var e := s.m[p].(tokenHeld := true);
    var tokens := if s.m[p].tokenHeld then s.tokens else s.tokens - 1;
    match w
    case Sent => s.(m := s.m[p := Resent(e, now)], tokens := tokens, trace := s.trace + [PacketFor(e, true)])
    case Oversized => s.(m := s.m - {p}, tokens := Returned(tokens, s.window))
    case Failed => if s.m[p].tokenHeld then s else s.(tokens := Returned(tokens, s.window))
  }

  function RetransmitStep(s: Link, cfg: Config, p: nat, now: int, w: Write): Link
    requires p in s.m
  {
    if GivesUp(s.m[p], cfg, now) then s.(closed := true)
    else if MustWait(s.m[p], cfg, now) then s
    else if !s.m[p].tokenHeld && s.tokens == 0 then s
    else ResendStep(s, p, now, w)
  }

  predicate AckApplies(s: Link, p: nat, qos: nat) {
    p in s.m && s.m[p].qos == qos && !s.m[p].acked
  }

  function Acked(m: Table, p: nat): Table
    requires p in m
  {
    m[p := m[p].(acked := true)]
  }

  ghost predicate AckStep(s: Link, p: nat, qos: nat, out: seq<Entry>, s': Link) {
    if !AckApplies(s, p, qos) then s' == s
    else
      && Popped(Acked(s.m, p), out, s'.m)
      && s' == s.(m := s'.m,
                  tokens := if s.m[p].tokenHeld then Returned(s.tokens, s.window) else s.tokens,
                  ackLog := s.ackLog + TaskPositions(out))
  }

  function PubRecStep(s: Link, p: nat, w: Write): Link {
    if p in s.m && s.m[p].qos == 2 && s.m[p].stage == WaitingPubRec then
      var e := s.m[p].(stage := WaitingPubComp);
      s.(m := s.m[p := e], trace := if w == Sent then s.trace + [PacketFor(e, false)] else s.trace)
    else s
  }

  /** An entry as restoreOneOutgoingInflight and restoreRetainedOutgoingInflight build it. */
  predicate Restorable(s: Link, e: Entry) {
    && e.serial == s.nextSerial && e.packetID != 0 && e.packetID !in s.m
    && !e.acked && e.retryCount == 0 && e.persisted
    && (e.qos == 1 || e.qos == 2)
    && (e.stage == WaitingPubComp ==> e.qos == 2)
  }

  /** One step of the engine. The runner acts only on a live connection, takes tasks strictly
      after its cursor and only while a token is left; acknowledgements can always arrive. */
  ghost predicate Step(cfg: Config, s: Link, a: Action, s': Link) {
    match a
    case Skip(t, w) =>
      !s.closed && Before(s.cursor, t.position) && s' == SkipStep(s, t, w)
    case Deliver(t, p, now, w) =>
      && !s.closed && s.tokens > 0 && Before(s.cursor, t.position) && DeliveryQoS(t.qos) > 0
      && 1 <= p <= MAX_ID && p !in s.m && s' == DeliverStep(s, t, p, now, w)
    case Exhaust(t) =>
      !s.closed && Exhausted(s.m) && s' == s.(closed := true)
    case SendRetained(p, qos, ts, id, packet, w) =>
      && !s.closed && s.tokens > 0 && (qos == 1 || qos == 2)
      && 1 <= p <= MAX_ID && p !in s.m && s' == RetainedStep(s, RetainedEntry(s.nextSerial, p, qos, ts, id, packet), w)
    case Restore(e, w) =>
      !s.closed && Restorable(s, e) && s' == RestoreStep(s, e, w)
    case Retransmit(p, now, w) =>
      && !s.closed && FirstUnackedIs(s.m, p) && (s.m[p].stage == WaitingPubComp ==> w != Oversized)
      && s' == RetransmitStep(s, cfg, p, now, w)
    case Ack(p, qos, out) => AckStep(s, p, qos, out, s')
    case PubRec(p, w) => s' == PubRecStep(s, p, w)
    case Close => s' == s.(closed := true)
    case Idle => s' == s
  }

  /** run[0] is any state; every later state follows by the action beside it. */
  ghost predicate Run(cfg: Config, run: seq<Link>, acts: seq<Action>) {
    |run| == |acts| + 1 && forall i {:trigger acts[i]} :: 0 <= i < |acts| ==> Step(cfg, run[i], acts[i], run[i + 1])
  }

  lemma ExtendRun(cfg: Config, run: seq<Link>, acts: seq<Action>, a: Action, s': Link)
    requires Run(cfg, run, acts) && Step(cfg, run[|acts|], a, s')
    ensures Run(cfg, run + [s'], acts + [a])
  {
    var r, q := run + [s'], acts + [a];
    forall i | 0 <= i < |q| ensures Step(cfg, r[i], q[i], r[i + 1]) {
      assert i < |acts| ==> q[i] == acts[i] && r[i] == run[i] && r[i + 1] == run[i + 1];
    }
  }

  /** A connection before anything was sent on it. */
  ghost predicate Opened(s: Link) {
    s.m == map[] && s.tokens == s.window && s.window > 0 && s.trace == [] && s.ackLog == [] && !s.closed
  }

  lemma StepKeepsKeyed(cfg: Config, s: Link, a: Action, s': Link)
    requires Keyed(s.m) && Step(cfg, s, a, s')
    ensures Keyed(s'.m) && s'.window == s.window
  {
  }
}
