/** What holds in every state of every run of the downlink engine. */
module DownlinkSafety {
  import opened Options
  import opened OutgoingInflight
  import opened Downlink

  // ---- flow tokens (section 4.9 of MQTT Version 5.0) ----

  /** The entries that occupy the client's Receive Maximum window. */
  ghost function Holding(m: Table): set<nat> {
    set p | p in m && m[p].tokenHeld && !m[p].acked
  }

  ghost predicate Balanced(s: Link) {
    s.tokens + |Holding(s.m)| == s.window
  }

  lemma HoldingPut(m: Table, p: nat, e: Entry)
    ensures Holding(m[p := e]) == Holding(m) - {p} + (if e.tokenHeld && !e.acked then {p} else {})
  {
  }

  lemma HoldingPopped(m: Table, out: seq<Entry>, m': Table)
    requires Popped(m, out, m')
    ensures Holding(m') == Holding(m)
  {
    forall p | p in Holding(m)
      ensures p !in IDs(out)
    {
      assert forall i :: 0 <= i < |out| && out[i].packetID == p ==> m[p] == out[i];
    }
  }

  lemma AckBalances(s: Link, p: nat, qos: nat, out: seq<Entry>, s': Link)
    requires Balanced(s) && AckStep(s, p, qos, out, s')
    ensures Balanced(s')
  {
    if AckApplies(s, p, qos) {
      HoldingPopped(Acked(s.m, p), out, s'.m);
      HoldingPut(s.m, p, s.m[p].(acked := true));
    }
  }

  lemma ResendBalances(s: Link, p: nat, now: int, w: Write)
    requires Balanced(s) && p in s.m && !s.m[p].acked && (s.m[p].tokenHeld || s.tokens > 0)
    ensures Balanced(ResendStep(s, p, now, w))
  {
    var e := s.m[p].(tokenHeld := true);
    HoldingPut(s.m, p, Resent(e, now));
    assert Holding(s.m - {p}) == Holding(s.m) - {p};
  }

  /** Taking a token for a new entry keeps the balance. */
  lemma AddBalances(s: Link, p: nat, e: Entry, s': Link)
    requires Balanced(s) && s.tokens > 0 && p !in s.m && e.tokenHeld && !e.acked
    requires s'.m == s.m[p := e] && s'.tokens == s.tokens - 1 && s'.window == s.window
    ensures Balanced(s')
  {
    HoldingPut(s.m, p, e);
  }

  lemma RestoreBalances(s: Link, e: Entry, w: Write)
    requires Balanced(s) && Restorable(s, e)
    ensures Balanced(RestoreStep(s, e, w))
  {
    HoldingPut(s.m, e.packetID, e.(tokenHeld := false, lastSend := None));
    HoldingPut(s.m, e.packetID, e.(tokenHeld := true));
  }

  lemma PubRecBalances(s: Link, p: nat, w: Write)
    requires Balanced(s)
    ensures Balanced(PubRecStep(s, p, w))
  {
    if p in s.m {
      HoldingPut(s.m, p, s.m[p].(stage := WaitingPubComp));
      assert Holding(PubRecStep(s, p, w).m) == Holding(s.m);
    }
  }

  lemma StepBalances(cfg: Config, s: Link, a: Action, s': Link)
    requires Balanced(s) && Step(cfg, s, a, s')
    ensures Balanced(s')
  {
    match a {
      case Deliver(t, p, now, w) =>
        if w == Sent {
          AddBalances(s, p, NewEntry(s.nextSerial, t, p, now), s');
        }
      case SendRetained(p, qos, ts, id, packet, w) =>
        if w == Sent {
          AddBalances(s, p, RetainedEntry(s.nextSerial, p, qos, ts, id, packet), s');
        }
      case Restore(e, w) => RestoreBalances(s, e, w);
      case Retransmit(p, now, w) =>
        if s.m[p].tokenHeld || s.tokens > 0 {
          ResendBalances(s, p, now, w);
        }
      case Ack(p, qos, out) => AckBalances(s, p, qos, out, s');
      case PubRec(p, w) => PubRecBalances(s, p, w);
      case _ =>
    }
  }

  /** Tokens left plus unacknowledged entries that hold one are always the window. So no more
      than the client's Receive Maximum are ever outstanding, and while any entry holds a
      token there is room to put its token back: PutToken never drops one. */
  lemma {:induction false} TokensConserved(cfg: Config, run: seq<Link>, acts: seq<Action>, i: nat)
    requires Run(cfg, run, acts) && Opened(run[0]) && i < |run|
    ensures run[i].window == run[0].window
    ensures run[i].tokens + |Holding(run[i].m)| == run[0].window
    ensures |Holding(run[i].m)| <= run[0].window
    ensures Holding(run[i].m) != {} ==> run[i].tokens < run[i].window
    decreases i
  {
    if i == 0 {
      assert Holding(run[0].m) == {};
    } else {
      TokensConserved(cfg, run, acts, i - 1);
      assert Step(cfg, run[i - 1], acts[i - 1], run[i]);
      StepBalances(cfg, run[i - 1], acts[i - 1], run[i]);
    }
  }
}
