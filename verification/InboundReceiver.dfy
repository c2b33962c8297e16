/** The receiving side of one connection as the broker runs it: the store of parked messages
    (qos2_receiver.go) and the PUBLISH and PUBREL handlers that update it in place. Every
    method is proved against the step of InboundQoS2 it carries out. */
module InboundReceiver {
  import opened InboundQoS2

  lemma SweepIsRemoval(s: State, now: int, gone: set<nat>)
    requires s.lastSeen.Keys == s.waiting.Keys
    requires forall p :: p in s.lastSeen ==> (p in gone <==> now - s.lastSeen[p] > TTL)
    ensures Sweep(s, now).waiting == s.waiting - gone && Sweep(s, now).lastSeen == s.lastSeen - gone
  {
  }

  /** The identifiers of the parked messages that have not expired. */
  function Live(waiting: map<nat, Message>, lastSeen: map<nat, int>, now: int): set<nat> {
    set p | p in waiting && (p in lastSeen ==> now - lastSeen[p] <= 600_000_000_000)
  }

  /** The server's Receive Maximum is used up. */
  predicate Full(maximum: nat, others: nat, live: set<nat>) {
    maximum > 0 && others + |live| >= maximum
  }

  lemma SweepIsLive(s: State, now: int)
    ensures Sweep(s, now).waiting.Keys == Live(s.waiting, s.lastSeen, now)
    ensures |Sweep(s, now).waiting| == |Live(s.waiting, s.lastSeen, now)|
  {
    assert |Sweep(s, now).waiting| == |Sweep(s, now).waiting.Keys|;
  }

  lemma StoreOutcome(s: State, pid: nat, m: Message, now: int, upsert: Call)
    requires Honest(upsert)
    ensures var t := StoreStep(s, pid, m, now, upsert);
            && t.persistent == s.persistent && t.alive == (s.alive && (!s.persistent || upsert.ok))
            && (pid !in s.waiting ==>
                  if s.persistent && !upsert.ok then pid !in t.waiting else pid in t.waiting && t.waiting[pid] == m)
            && (s.persistent && upsert.ok ==> pid in t.durable && t.durable[pid] == m)
  {
  }

  class Receiver {
    var waiting: map<nat, Message>
    var lastSeen: map<nat, int>
    var durable: map<nat, Message>
    var persistent: bool
    var alive: bool
    var maximum: nat
    var nextID: nat
    ghost var home: seq<nat>
    ghost var h: History

    ghost predicate Valid() reads this {
      lastSeen.Keys == waiting.Keys && nextID == |home|
    }

    ghost function View(): State reads this {
      State(waiting, lastSeen, durable, persistent, alive, maximum, home, h)
    }

    constructor ()
      ensures Valid() && Init(View())
    {
      waiting, lastSeen, durable := map[], map[], map[];
      persistent, alive, maximum, nextID := false, false, 0, 0;
      home, h := [], History([], {}, {}, {}, {}, {}, {});
    }

    /** The pass over the time stamps. `gone` is what it deleted. */
    method DropExpired(now: int) returns (ghost gone: set<nat>)
      requires lastSeen.Keys == waiting.Keys
      modifies `waiting, `lastSeen
      ensures waiting == old(waiting) - gone && lastSeen == old(lastSeen) - gone
      ensures forall p :: p in old(lastSeen) ==> (p in gone <==> now - old(lastSeen)[p] > TTL)
    {
      var todo := lastSeen.Keys;
      gone := {};
      ghost var was := lastSeen;
      while todo != {}
        invariant gone !! todo && todo <= was.Keys
        invariant waiting == old(waiting) - gone && lastSeen == was - gone
        invariant forall p :: p in was && p !in todo ==> (p in gone <==> now - was[p] > TTL)
        decreases |todo|
      {
        var p :| p in todo;
        todo := todo - {p};
        if now - lastSeen[p] > TTL {
          waiting, lastSeen := waiting - {p}, lastSeen - {p};
          gone := gone + {p};
        }
      }
    }

    /** CleanupExpired with the default lifetime. */
    method CleanupExpired(now: int)
      requires Valid()
      modifies `waiting, `lastSeen, `h
      ensures Valid() && View() == old(Sweep(View(), now))
    {
      ghost var gone := DropExpired(now);
      h := old(Sweep(View(), now)).h;
      SweepIsRemoval(old(View()), now, gone);
    }

    method Store(pid: nat, m: Message, now: int) returns (existed: bool)
      requires Valid()
      modifies `waiting, `lastSeen, `h
      ensures Valid() && View() == old(Parked(Sweep(View(), now), pid, m, now))
      ensures existed <==> pid in old(Sweep(View(), now)).waiting
    {
      CleanupExpired(now);
      existed := pid in waiting;
      if !existed {
        waiting := waiting[pid := m];
      }
      lastSeen := lastSeen[pid := now];
    }

    method Delete(pid: nat)
      requires Valid()
      modifies `waiting, `lastSeen
      ensures Valid() && View() == old(Unparked(View(), pid))
    {
      if pid in waiting {
        waiting, lastSeen := waiting - {pid}, lastSeen - {pid};
      }
    }

    /** UpsertIncomingUnfinished; does nothing unless the session outlives the connection. */
    method Persist(pid: nat, m: Message, upsert: Call) returns (ok: bool)
      requires Valid() && Honest(upsert)
      modifies `durable, `h
      ensures Valid() && (ok <==> !persistent || upsert.ok)
      ensures View() == old(if persistent && upsert.applied then Recorded(View(), pid, m) else View())
    {
      if !persistent { return true; }
      if upsert.applied {
        h := Recorded(View(), pid, m).h;
        durable := durable[pid := m];
      }
      return upsert.ok;
    }

    method RemoveRecord(pid: nat, remove: Call) returns (ok: bool)
      requires Valid() && Honest(remove)
      modifies `durable
      ensures Valid() && (ok <==> !persistent || remove.ok)
      ensures durable == if persistent && remove.applied then old(durable) - {pid} else old(durable)
    {
      if !persistent { return true; }
      if remove.applied { durable := durable - {pid}; }
      return remove.ok;
    }

    ghost method Note(origin: nat)
      modifies `h
      ensures View() == old(Promise(View(), origin))
    {
      if persistent { h := h.(promised := h.promised + {origin}); }
    }

    /** storeQoS2Publish and the record that has to follow it. */
    method ParkAndRecord(pid: nat, m: Message, now: int, upsert: Call)
      requires Valid() && Honest(upsert)
      modifies `waiting, `lastSeen, `durable, `alive, `h
      ensures Valid() && View() == old(StoreStep(View(), pid, m, now, upsert))
    {
      var existed := Store(pid, m, now);
      var ok := Persist(pid, m, upsert);
      if !ok {
        Delete(pid);
        alive := false;
      } else {
        Note(m.origin);
      }
    }

    /** buildPublishResponse for QoS 2: park, record, and take it back when recording fails. */
    method StorePublish(pid: nat, retain: bool, now: int, matched: bool, upsert: Call) returns (reason: nat)
      requires Valid() && Honest(upsert)
      modifies this
      ensures Valid()
      ensures reason == if matched then SUCCESS else NO_MATCHING_SUBSCRIBERS
      ensures View() == old(StoreStep(View().(home := home + [pid]), pid,
                                      Message(nextID, if matched then SUCCESS else NO_MATCHING_SUBSCRIBERS, retain),
                                      now, upsert))
      ensures alive == (old(alive) && (!persistent || upsert.ok)) && persistent == old(persistent)
      ensures pid !in old(waiting) ==>
                if persistent && !upsert.ok then pid !in waiting
                else pid in waiting && waiting[pid] == Message(old(nextID), reason, retain)
      ensures persistent && upsert.ok ==> pid in durable && durable[pid] == Message(old(nextID), reason, retain)
    {
      reason := if matched then SUCCESS else NO_MATCHING_SUBSCRIBERS;
      var m := Message(nextID, reason, retain);
      StoreOutcome(View().(home := home + [pid]), pid, m, now, upsert);
      nextID, home := nextID + 1, home + [pid];
      ParkAndRecord(pid, m, now, upsert);
    }

    /** A PUBLISH with this identifier is a repeat. */
    predicate Repeats(pid: nat) reads this {
      pid in waiting && waiting[pid].reason < 0x80
    }

    /** What has become of an admitted PUBLISH that is not a repeat: refused because the window is
        full; parked, recorded if the session lasts, and acknowledged with 0x00 or 0x10; or, if
        recording failed, dropped without acknowledgement. */
    ghost predicate Takes(pid: nat, retain: bool, matched: bool, upsert: Call, pubrec: seq<nat>, full: bool, free: bool,
                          id: nat)
      reads this
    {
      var code := if matched then 0x00 else 0x10;
      if full || (persistent && !upsert.ok) then pubrec == [] && !alive && (free ==> pid !in waiting)
      else
        && pubrec == [code] && alive
        && (free ==> pid in waiting && waiting[pid] == Message(id, code, retain))
        && (persistent ==> pid in durable && durable[pid] == Message(id, code, retain))
    }

    /** The end of handlePublish, for a PUBLISH that passed every other check. */
    method Admit(pid: nat, retain: bool, now: int, later: int, others: nat, matched: bool, upsert: Call)
      returns (pubrec: seq<nat>)
      requires Valid() && alive && Honest(upsert)
      modifies this
      ensures Valid() && View() == old(AdmitStep(View(), pid, retain, now, later, others, matched, upsert))
      ensures Takes(pid, retain, matched, upsert, pubrec, old(Full(maximum, others, Live(waiting, lastSeen, now))),
                    old(pid !in waiting), old(nextID))
    {
      SweepIsLive(View(), now);
      CleanupExpired(now);
      if 0 < maximum <= others + |waiting| {
        alive := false;
        return [];
      }
      var reason := StorePublish(pid, retain, later, matched, upsert);
      pubrec := if alive then [reason] else [];
    }

    /** What plugins, capabilities and the rate limit decide about a PUBLISH that is not a repeat. */
    method TakeNew(pid: nat, retain: bool, now: int, later: int, admission: Admission, others: nat, matched: bool,
                   upsert: Call) returns (pubrec: seq<nat>)
      requires Valid() && alive && Honest(upsert) && !Repeats(pid)
      modifies this
      ensures Valid()
      ensures View() == old(PublishStep(View(), pid, retain, now, later, Sound, admission, others, matched, upsert))
      ensures admission.Denied? ==> pubrec == [0x87] && View() == old(View())
      ensures admission.Refused? ==> pubrec == [] && View() == old(View()).(alive := false)
      ensures admission.Admitted? ==>
                Takes(pid, retain, matched, upsert, pubrec, old(Full(maximum, others, Live(waiting, lastSeen, now))),
                      old(pid !in waiting), old(nextID))
      ensures persistent == old(persistent)
    {
      match admission
      case Denied => return [0x87];
      case Refused => alive := false; return [];
      case Admitted => pubrec := Admit(pid, retain, now, later, others, matched, upsert);
    }

    /** handlePublish for QoS 2. Returns the reason code of the PUBREC, if one is sent. */
    method HandlePublish(pid: nat, retain: bool, now: int, later: int, envelope: Envelope, admission: Admission,
                         others: nat, matched: bool, upsert: Call) returns (pubrec: seq<nat>)
      requires Valid() && alive && 0 < pid && Honest(upsert)
      modifies this
      ensures Valid()
      ensures Step(old(View()), Publish(pid, retain, now, later, envelope, admission, others, matched, upsert), View())
      ensures envelope.Invalid? ==> pubrec == [] && View() == old(View()).(alive := false)
      ensures envelope.BadPayload? ==> pubrec == [0x99] && View() == old(View())
      ensures envelope.Sound? && old(Repeats(pid)) ==>
                pubrec == [old(waiting[pid].reason)] && View() == old(View()).(h := h)
      ensures envelope.Sound? && !old(Repeats(pid)) && admission.Denied? ==> pubrec == [0x87] && View() == old(View())
      ensures envelope.Sound? && !old(Repeats(pid)) && admission.Refused? ==>
                pubrec == [] && View() == old(View()).(alive := false)
      ensures envelope.Sound? && !old(Repeats(pid)) && admission.Admitted? ==>
                Takes(pid, retain, matched, upsert, pubrec, old(Full(maximum, others, Live(waiting, lastSeen, now))),
                      old(pid !in waiting), old(nextID))
      ensures old(Inv(View())) && persistent && pubrec != [] && pubrec[0] < 0x80 ==>
                pid in waiting && pid in durable && durable[pid] == waiting[pid]
    {
      if envelope.Invalid? {
        alive := false;
        return [];
      }
      if envelope.BadPayload? { return [0x99]; }
      if pid in waiting && !IsError(waiting[pid].reason) {
        Note(waiting[pid].origin);
        return [waiting[pid].reason];
      }
      pubrec := TakeNew(pid, retain, now, later, admission, others, matched, upsert);
    }

    /** The message is gone, its record too if the session lasts, and nothing else is touched. */
    ghost predicate Gone(pid: nat, was: map<nat, Message>, records: map<nat, Message>) reads this {
      waiting == was - {pid} && durable == if persistent then records - {pid} else records
    }

    /** The tail every completed PUBREL shares; `settled` is the history with its outcome. */
    method Complete(pid: nat, ghost settled: History, remove: Call) returns (ok: bool)
      requires Valid() && Honest(remove)
      modifies `durable, `waiting, `lastSeen, `alive, `h
      ensures Valid() && View() == Finish(old(View()).(h := settled), pid, remove)
      ensures ok <==> !persistent || remove.ok
      ensures if ok then Gone(pid, old(waiting), old(durable)) && alive == old(alive)
              else waiting == old(waiting) && !alive
    {
      h := settled;
      ok := RemoveRecord(pid, remove);
      if !ok {
        alive := false;
        return;
      }
      Delete(pid);
    }

    /** The last part of handlePubRel: hand the message to the router. */
    method Route(pid: nat, m: Message, route: Call, remove: Call) returns (completed: bool)
      requires Valid() && Honest(route) && Honest(remove)
      modifies this
      ensures Valid()
      ensures View() == old(var t := if route.applied then View().(h := h.(routed := h.routed + [m.origin]))
                                     else View();
                            if !route.ok then t.(alive := false) else Finish(t, pid, remove))
      ensures completed <==> route.ok && (!persistent || remove.ok)
      ensures if completed then Gone(pid, old(waiting), old(durable)) && alive == old(alive)
              else waiting == old(waiting) && !alive
      ensures h.routed == if route.applied then old(h.routed) + [m.origin] else old(h.routed)
    {
      if route.applied { h := h.(routed := h.routed + [m.origin]); }
      if !route.ok {
        alive := false;
        return false;
      }
      completed := Complete(pid, h, remove);
    }

    /** PUBREL for a message that is to be delivered: commit it if retained, then route it, unless
        nobody subscribed. */
    method Release(pid: nat, m: Message, commit: Call, route: Call, remove: Call) returns (completed: bool)
      requires Valid() && alive && pid in waiting && m == waiting[pid] && !IsError(m.reason)
      requires Honest(commit) && Honest(route) && Honest(remove)
      modifies this
      ensures Valid() && View() == old(PubRelStep(View(), pid, false, commit, route, remove))
      ensures completed <==>
                (!persistent || remove.ok) && (m.retain ==> commit.ok) && (m.reason == 0x10 || route.ok)
      ensures if completed then alive && Gone(pid, old(waiting), old(durable)) else waiting == old(waiting) && !alive
      ensures h.routed == old(h.routed) + if route.applied && m.reason != 0x10 && (m.retain ==> commit.ok)
                                          then [m.origin] else []
    {
      if m.retain && !commit.ok {
        alive := false;
        return false;
      }
      if m.reason == NO_MATCHING_SUBSCRIBERS {
        completed := Complete(pid, h.(unmatched := h.unmatched + {m.origin}), remove);
        return;
      }
      completed := Route(pid, m, route, remove);
    }

    /** handlePubRel. Returns whether PUBCOMP is sent. */
    method HandlePubRel(pid: nat, negative: bool, commit: Call, route: Call, remove: Call) returns (completed: bool)
      requires Valid() && alive && 0 < pid && Honest(commit) && Honest(route) && Honest(remove)
      modifies this
      ensures Valid()
      ensures Step(old(View()), PubRel(pid, negative, commit, route, remove), View())
      ensures completed <==>
                || pid !in old(waiting)
                || (&& (!persistent || remove.ok)
                    && (|| negative || old(waiting)[pid].reason >= 0x80
                        || (&& (old(waiting)[pid].retain ==> commit.ok)
                            && (old(waiting)[pid].reason == 0x10 || route.ok))))
      ensures if completed
              then alive && pid !in waiting && (pid in old(waiting) ==> Gone(pid, old(waiting), old(durable)))
              else waiting == old(waiting) && !alive
      ensures h.routed ==
              old(h.routed) + if && pid in old(waiting) && !negative && route.applied
                                 && old(waiting)[pid].reason < 0x80 && old(waiting)[pid].reason != 0x10
                                 && (old(waiting)[pid].retain ==> commit.ok)
                              then [old(waiting)[pid].origin] else []
    {
      if pid !in waiting { return true; }
      var m := waiting[pid];
      if negative || IsError(m.reason) {
        completed := Complete(pid, h.(withdrawn := h.withdrawn + {m.origin}), remove);
        return;
      }
      completed := Release(pid, m, commit, route, remove);
    }
  }
}
