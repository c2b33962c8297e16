/** What the packets on the wire look like over every run of the downlink engine: stages
    only move forward, no PUBLISH follows the PUBREL of its message, retransmissions are
    bounded. */
module DownlinkTrace {
  import opened OutgoingInflight
  import opened Downlink

  /** Nothing the trace depends on differs between e and f. */
  ghost predicate SameMessage(e: Entry, f: Entry) {
    e.serial == f.serial && e.packetID == f.packetID && e.stage == f.stage && e.retryCount == f.retryCount
  }

  /** Entries may leave or change flags; nothing is written. */
  ghost predicate Quiet(s: Link, s': Link) {
    && (forall p :: p in s'.m ==> p in s.m && SameMessage(s.m[p], s'.m[p]))
    && s'.trace == s.trace && s'.nextSerial >= s.nextSerial
  }

  /** A new entry enters at p under a packet identifier that was free. */
  ghost predicate Enters(s: Link, p: nat, s': Link) {
    && p !in s.m && p in s'.m && s'.m.Keys == s.m.Keys + {p}
    && (forall q :: q in s.m ==> s'.m[q] == s.m[q])
    && s'.m[p].serial == s.nextSerial && s'.m[p].packetID == p && s'.m[p].retryCount == 0
    && s'.nextSerial == s.nextSerial + 1
    && (s'.trace == s.trace || s'.trace == s.trace + [PacketFor(s'.m[p], false)])
  }

  /** The entry at p is retransmitted. */
  ghost predicate Resends(s: Link, p: nat, limit: nat, s': Link) {
    && p in s.m && s'.m.Keys == s.m.Keys && (forall q :: q in s.m && q != p ==> s'.m[q] == s.m[q])
    && SameMessage(s.m[p].(retryCount := s.m[p].retryCount + 1), s'.m[p]) && s.m[p].retryCount < limit
    && s'.trace == s.trace + [PacketFor(s.m[p], true)] && s'.nextSerial == s.nextSerial
  }

  /** The entry at p moves from waiting for PUBREC to waiting for PUBCOMP. */
  ghost predicate Releases(s: Link, p: nat, s': Link) {
    && p in s.m && s.m[p].stage == WaitingPubRec && s'.m == s.m[p := s.m[p].(stage := WaitingPubComp)]
    && (s'.trace == s.trace || s'.trace == s.trace + [PacketFor(s'.m[p], false)])
    && s'.nextSerial == s.nextSerial
  }

  ghost predicate Effect(limit: nat, s: Link, s': Link) {
    || Quiet(s, s')
    || (exists p :: Enters(s, p, s'))
    || (exists p :: Resends(s, p, limit, s'))
    || (exists p :: Releases(s, p, s'))
  }

  lemma RetransmitEffect(cfg: Config, s: Link, p: nat, now: int, w: Write)
    requires Keyed(s.m) && p in s.m
    ensures Effect(cfg.maxRetries, s, RetransmitStep(s, cfg, p, now, w))
  {
    var s' := RetransmitStep(s, cfg, p, now, w);
    if w == Sent && !GivesUp(s.m[p], cfg, now) && !MustWait(s.m[p], cfg, now) && (s.m[p].tokenHeld || s.tokens > 0) {
      assert Resends(s, p, cfg.maxRetries, s');
    } else {
      assert Quiet(s, s');
    }
  }

  lemma AckEffect(s: Link, p: nat, qos: nat, out: seq<Entry>, s': Link)
    requires AckStep(s, p, qos, out, s')
    ensures Quiet(s, s')
  {
  }

  lemma PubRecEffect(s: Link, p: nat, w: Write)
    ensures Quiet(s, PubRecStep(s, p, w)) || Releases(s, p, PubRecStep(s, p, w))
  {
  }

  /** Every step of the engine has one of the four effects. */
  lemma StepEffect(cfg: Config, s: Link, a: Action, s': Link)
    requires Keyed(s.m) && Step(cfg, s, a, s')
    ensures Effect(cfg.maxRetries, s, s')
  {
    match a {
      case Deliver(t, p, now, w) => assert if w == Sent then Enters(s, p, s') else Quiet(s, s');
      case SendRetained(p, qos, ts, id, packet, w) => assert if w == Sent then Enters(s, p, s') else Quiet(s, s');
      case Restore(e, w) => assert Enters(s, e.packetID, s');
      case Retransmit(p, now, w) => RetransmitEffect(cfg, s, p, now, w);
      case Ack(p, qos, out) => AckEffect(s, p, qos, out, s');
      case PubRec(p, w) => PubRecEffect(s, p, w);
      case _ => assert Quiet(s, s');
    }
  }

  // ---- the invariants ----

  ghost predicate Serials(s: Link) {
    && (forall p :: p in s.m ==> s.m[p].serial < s.nextSerial)
    && (forall p, q :: p in s.m && q in s.m && p != q ==> s.m[p].serial != s.m[q].serial)
    && (forall i :: 0 <= i < |s.trace| ==> s.trace[i].serial < s.nextSerial)
  }

  /** Packets of a live entry carry its identifier, and a PUBREL among them means PUBREC came. */
  ghost predicate Agrees(s: Link) {
    forall i, p :: 0 <= i < |s.trace| && p in s.m && s.trace[i].serial == s.m[p].serial ==>
      s.trace[i].packetID == p && (s.trace[i].kind == PubRelPacket ==> s.m[p].stage == WaitingPubComp)
  }

  /** No PUBLISH of a message after its PUBREL (section 4.3.3 of MQTT Version 5.0). */
  ghost predicate PublishBeforeRel(trace: seq<Wire>) {
    forall i, j :: 0 <= i < j < |trace| && trace[i].kind == PubRelPacket && trace[j].kind == PublishPacket ==>
      trace[i].serial != trace[j].serial
  }

  function ResendCount(trace: seq<Wire>, serial: nat): nat {
    if trace == [] then 0
    else
      var last := trace[|trace| - 1];
      ResendCount(trace[..|trace| - 1], serial) + (if last.resend && last.serial == serial then 1 else 0)
  }

  ghost predicate Counted(s: Link, limit: nat) {
    && (forall p :: p in s.m ==> ResendCount(s.trace, s.m[p].serial) == s.m[p].retryCount)
    && (forall n :: ResendCount(s.trace, n) <= limit)
  }

  ghost predicate Sound(s: Link, limit: nat) {
    Serials(s) && Agrees(s) && PublishBeforeRel(s.trace) && Counted(s, limit)
  }

  lemma AppendCount(trace: seq<Wire>, w: Wire, serial: nat)
    ensures ResendCount(trace + [w], serial) ==
              ResendCount(trace, serial) + (if w.resend && w.serial == serial then 1 else 0)
  {
    assert (trace + [w])[..|trace|] == trace;
  }

  lemma {:induction false} UnseenCount(trace: seq<Wire>, serial: nat)
    requires forall i :: 0 <= i < |trace| ==> trace[i].serial != serial
    ensures ResendCount(trace, serial) == 0
    decreases |trace|
  {
    if trace != [] {
      UnseenCount(trace[..|trace| - 1], serial);
    }
  }

  lemma EntersCounted(s: Link, p: nat, s': Link, limit: nat)
    requires Serials(s) && Counted(s, limit) && Enters(s, p, s')
    ensures Counted(s', limit)
  {
    UnseenCount(s.trace, s.nextSerial);
    forall n
      ensures ResendCount(s'.trace, n) == ResendCount(s.trace, n)
    {
      AppendCount(s.trace, PacketFor(s'.m[p], false), n);
    }
  }

  /** A packet keeps the order if it is a PUBREL or no PUBREL of its message was written. */
  lemma AppendOrdered(trace: seq<Wire>, w: Wire)
    requires PublishBeforeRel(trace)
    requires w.kind == PubRelPacket ||
             forall i :: 0 <= i < |trace| && trace[i].kind == PubRelPacket ==> trace[i].serial != w.serial
    ensures PublishBeforeRel(trace + [w])
  {
  }

  lemma EntersSerials(s: Link, p: nat, s': Link)
    requires Serials(s) && Enters(s, p, s')
    ensures Serials(s')
  {
  }

  lemma EntersAgrees(s: Link, p: nat, s': Link)
    requires Serials(s) && Agrees(s) && Enters(s, p, s')
    ensures Agrees(s')
  {
    assert forall i :: 0 <= i < |s.trace| ==> s'.trace[i] == s.trace[i];
  }

  lemma EntersSound(s: Link, p: nat, s': Link, limit: nat)
    requires Sound(s, limit) && Enters(s, p, s')
    ensures Sound(s', limit)
  {
    EntersSerials(s, p, s');
    EntersAgrees(s, p, s');
    EntersCounted(s, p, s', limit);
    AppendOrdered(s.trace, PacketFor(s'.m[p], false));
  }

  lemma ResendsCounted(s: Link, p: nat, s': Link, limit: nat)
    requires Serials(s) && Counted(s, limit) && Resends(s, p, limit, s')
    ensures Counted(s', limit)
  {
    forall n
      ensures ResendCount(s'.trace, n) == ResendCount(s.trace, n) + (if n == s.m[p].serial then 1 else 0)
    {
      AppendCount(s.trace, PacketFor(s.m[p], true), n);
    }
  }

  lemma ResendsSerials(s: Link, p: nat, s': Link, limit: nat)
    requires Serials(s) && Resends(s, p, limit, s')
    ensures Serials(s')
  {
  }

  lemma ResendsAgrees(s: Link, p: nat, s': Link, limit: nat)
    requires Serials(s) && Agrees(s) && Resends(s, p, limit, s') && Keyed(s.m)
    ensures Agrees(s')
  {
    assert forall i :: 0 <= i < |s.trace| ==> s'.trace[i] == s.trace[i];
  }

  lemma ResendsSound(s: Link, p: nat, s': Link, limit: nat)
    requires Sound(s, limit) && Resends(s, p, limit, s') && Keyed(s.m)
    ensures Sound(s', limit)
  {
    ResendsSerials(s, p, s', limit);
    ResendsAgrees(s, p, s', limit);
    ResendsCounted(s, p, s', limit);
    AppendOrdered(s.trace, PacketFor(s.m[p], true));
  }

  lemma ReleasesCounted(s: Link, p: nat, s': Link, limit: nat)
    requires Serials(s) && Counted(s, limit) && Releases(s, p, s')
    ensures Counted(s', limit)
  {
    forall n
      ensures ResendCount(s'.trace, n) == ResendCount(s.trace, n)
    {
      AppendCount(s.trace, PacketFor(s'.m[p], false), n);
    }
  }

  lemma ReleasesSerials(s: Link, p: nat, s': Link)
    requires Serials(s) && Releases(s, p, s')
    ensures Serials(s')
  {
  }

  lemma ReleasesAgrees(s: Link, p: nat, s': Link)
    requires Serials(s) && Agrees(s) && Releases(s, p, s') && Keyed(s.m)
    ensures Agrees(s')
  {
    forall i, q | 0 <= i < |s'.trace| && q in s'.m && s'.trace[i].serial == s'.m[q].serial
      ensures s'.trace[i].packetID == q && (s'.trace[i].kind == PubRelPacket ==> s'.m[q].stage == WaitingPubComp)
    {
      assert q in s.m && s'.m[q].serial == s.m[q].serial;
      if i < |s.trace| {
        assert s'.trace[i] == s.trace[i];
      }
    }
  }

  lemma ReleasesSound(s: Link, p: nat, s': Link, limit: nat)
    requires Sound(s, limit) && Releases(s, p, s') && Keyed(s.m)
    ensures Sound(s', limit)
  {
    ReleasesSerials(s, p, s');
    ReleasesAgrees(s, p, s');
    ReleasesCounted(s, p, s', limit);
    AppendOrdered(s.trace, PacketFor(s'.m[p], false));
  }

  lemma StepSound(cfg: Config, s: Link, a: Action, s': Link)
    requires Keyed(s.m) && Sound(s, cfg.maxRetries) && Step(cfg, s, a, s')
    ensures Sound(s', cfg.maxRetries)
  {
    StepEffect(cfg, s, a, s');
    if p :| Enters(s, p, s') {
      EntersSound(s, p, s', cfg.maxRetries);
    } else if p :| Resends(s, p, cfg.maxRetries, s') {
      ResendsSound(s, p, s', cfg.maxRetries);
    } else if p :| Releases(s, p, s') {
      ReleasesSound(s, p, s', cfg.maxRetries);
    }
  }

  lemma {:induction false} RunSound(cfg: Config, run: seq<Link>, acts: seq<Action>, i: nat)
    requires Run(cfg, run, acts) && Opened(run[0]) && i < |run|
    ensures Keyed(run[i].m) && Sound(run[i], cfg.maxRetries)
    decreases i
  {
    if i > 0 {
      RunSound(cfg, run, acts, i - 1);
      assert Step(cfg, run[i - 1], acts[i - 1], run[i]);
      StepKeepsKeyed(cfg, run[i - 1], acts[i - 1], run[i]);
      StepSound(cfg, run[i - 1], acts[i - 1], run[i]);
    }
  }

  /** In every reachable state: no PUBLISH was written after the PUBREL of its message, every
      message was retransmitted at most the configured number of times, and packets written
      for a live entry carry the packet identifier it is stored under. */
  lemma TraceIsSound(cfg: Config, run: seq<Link>, acts: seq<Action>, i: nat)
    requires Run(cfg, run, acts) && Opened(run[0]) && i < |run|
    ensures PublishBeforeRel(run[i].trace)
    ensures forall n :: ResendCount(run[i].trace, n) <= cfg.maxRetries
    ensures forall k, p :: 0 <= k < |run[i].trace| && p in run[i].m && run[i].trace[k].serial == run[i].m[p].serial ==>
              run[i].trace[k].packetID == p
  {
    RunSound(cfg, run, acts, i);
  }

  // ---- stages over time ----

  function Progress(st: Stage): nat {
    match st
    case WaitingPubAck => 0
    case WaitingPubRec => 0
    case WaitingPubComp => 1
  }

  lemma EffectMovesForward(limit: nat, s: Link, s': Link, q: nat)
    requires Effect(limit, s, s') && q in s'.m && s'.m[q].serial < s.nextSerial
    ensures q in s.m && s.m[q].serial == s'.m[q].serial
    ensures Progress(s.m[q].stage) <= Progress(s'.m[q].stage)
  {
  }

  /** An entry that is not new was there before the step, no further along. */
  lemma StepMovesForward(cfg: Config, s: Link, a: Action, s': Link, q: nat)
    requires Keyed(s.m) && Step(cfg, s, a, s') && q in s'.m && s'.m[q].serial < s.nextSerial
    ensures q in s.m && s.m[q].serial == s'.m[q].serial
    ensures Progress(s.m[q].stage) <= Progress(s'.m[q].stage)
  {
    StepEffect(cfg, s, a, s');
    EffectMovesForward(cfg.maxRetries, s, s', q);
  }

  lemma RunMovesForward(cfg: Config, run: seq<Link>, acts: seq<Action>, j: nat, q: nat)
    requires Run(cfg, run, acts) && Opened(run[0]) && 0 < j < |run|
    requires q in run[j].m && run[j].m[q].serial < run[j - 1].nextSerial
    ensures q in run[j - 1].m && run[j - 1].m[q].serial == run[j].m[q].serial
    ensures Progress(run[j - 1].m[q].stage) <= Progress(run[j].m[q].stage)
  {
    RunSound(cfg, run, acts, j - 1);
    assert Step(cfg, run[j - 1], acts[j - 1], run[j]);
    StepMovesForward(cfg, run[j - 1], acts[j - 1], run[j], q);
  }

  lemma LiveSerials(cfg: Config, run: seq<Link>, acts: seq<Action>, i: nat, p: nat, q: nat)
    requires Run(cfg, run, acts) && Opened(run[0]) && i < |run| && p in run[i].m && q in run[i].m
    ensures run[i].m[p].serial < run[i].nextSerial
    ensures run[i].m[p].serial == run[i].m[q].serial ==> p == q
  {
    RunSound(cfg, run, acts, i);
  }

  lemma {:induction false} SerialsGrow(cfg: Config, run: seq<Link>, acts: seq<Action>, i: nat, j: nat)
    requires Run(cfg, run, acts) && Opened(run[0]) && i <= j < |run|
    ensures run[i].nextSerial <= run[j].nextSerial
    decreases j
  {
    if i < j {
      SerialsGrow(cfg, run, acts, i, j - 1);
      assert Step(cfg, run[j - 1], acts[j - 1], run[j]);
    }
  }

  /** An entry present at two times of a run never goes back to an earlier stage, and keeps
      its packet identifier throughout. */
  lemma {:induction false} StagesMoveForward(cfg: Config, run: seq<Link>, acts: seq<Action>, i: nat, j: nat,
                                             p: nat, q: nat)
    requires Run(cfg, run, acts) && Opened(run[0]) && i <= j < |run|
    requires p in run[i].m && q in run[j].m && run[i].m[p].serial == run[j].m[q].serial
    ensures p == q && Progress(run[i].m[p].stage) <= Progress(run[j].m[q].stage)
    decreases j
  {
    if i == j {
      LiveSerials(cfg, run, acts, i, p, q);
    } else {
      LiveSerials(cfg, run, acts, i, p, p);
      SerialsGrow(cfg, run, acts, i, j - 1);
      RunMovesForward(cfg, run, acts, j, q);
      StagesMoveForward(cfg, run, acts, i, j - 1, p, q);
    }
  }
}
