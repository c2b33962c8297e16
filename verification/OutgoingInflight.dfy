/** internal/broker/client/outgoing_inflight.go: the downlink QoS 1 and QoS 2 messages
    that were sent and not yet completed, keyed by packet identifier.

    Times are nanoseconds since the Unix epoch. A task identifier is the number its UUID
    stands for; the order of UUID strings is the order of those numbers. */
module OutgoingInflight {
  import opened Options
  import opened Sequences

  /** A position in the client's task queue. */
  datatype Position = Position(ts: int, id: nat)

  predicate Before(a: Position, b: Position) {
    a.ts < b.ts || (a.ts == b.ts && a.id < b.id)
  }

  predicate NotAfter(a: Position, b: Position) {
    !Before(b, a)
  }

  datatype Stage = WaitingPubAck | WaitingPubRec | WaitingPubComp

  // `serial` stands for the identity of the Go object: one number per entry ever created.
  datatype Entry = Entry(
    serial: nat,
    packetID: nat,
    qos: nat,
    task: Position,
    generation: int,
    messageID: nat,
    retained: bool,
    publishPacket: seq<nat>,
    firstPub: Option<int>,
    lastSend: Option<int>,
    retryCount: nat,
    acked: bool,
    tokenHeld: bool,
    stage: Stage,
    persisted: bool)

  type Table = map<nat, Entry>

  /** Every entry is stored under its own non-zero packet identifier. */
  ghost predicate Keyed(m: Table) {
    forall p :: p in m ==> p != 0 && m[p].packetID == p
  }

  /** `es` lists the entries of m, each once. */
  ghost predicate Lists(m: Table, es: seq<Entry>) {
    && (forall i :: 0 <= i < |es| ==> es[i].packetID in m && m[es[i].packetID] == es[i])
    && (forall p :: p in m ==> m[p] in es)
    && (forall i, j :: 0 <= i < j < |es| ==> es[i].packetID != es[j].packetID)
  }

  ghost predicate Ascending(es: seq<Entry>) {
    forall i, j :: 0 <= i < j < |es| ==> NotAfter(es[i].task, es[j].task)
  }

  // ---- the order-preserving removal of acknowledged entries ----

  ghost function IDs(es: seq<Entry>): set<nat> {
    set e | e in es :: e.packetID
  }

  /** `out` leaves m in task order, all acknowledged, none after an entry that stays, and
      what stays is empty or starts with an unacknowledged entry. */
  ghost predicate Popped(m: Table, out: seq<Entry>, m': Table) {
    && (forall i :: 0 <= i < |out| ==> out[i].acked && out[i].packetID in m && m[out[i].packetID] == out[i])
    && (forall i, j :: 0 <= i < j < |out| ==> out[i].packetID != out[j].packetID)
    && Ascending(out)
    && m' == m - IDs(out)
    && (forall i, p :: 0 <= i < |out| && p in m' ==> NotAfter(out[i].task, m'[p].task))
    && (m' == map[] || exists p :: FirstOpen(m', p))
  }

  /** p is unacknowledged and no entry of m comes before it. */
  ghost predicate FirstOpen(m: Table, p: nat) {
    p in m && !m[p].acked && forall q :: q in m ==> NotAfter(m[p].task, m[q].task)
  }

  ghost predicate DistinctTasks(m: Table) {
    forall p, q :: p in m && q in m && p != q ==> m[p].task != m[q].task
  }

  /** With distinct tasks the entries that leave are exactly the longest acknowledged prefix. */
  lemma PoppedIsAckedPrefix(m: Table, out: seq<Entry>, m': Table, p: nat)
    requires Keyed(m) && DistinctTasks(m) && Popped(m, out, m') && p in m
    ensures p !in m' <==> forall q :: q in m && NotAfter(m[q].task, m[p].task) ==> m[q].acked
  {
    if p in m' {
      var o :| FirstOpen(m', o);
      assert o in m && !m[o].acked;
    } else {
      var i :| 0 <= i < |out| && out[i].packetID == p;
      forall q | q in m && NotAfter(m[q].task, m[p].task)
        ensures m[q].acked
      {
        assert q in m' ==> NotAfter(out[i].task, m'[q].task);
        assert q !in m' ==> exists j :: 0 <= j < |out| && out[j].packetID == q;
      }
    }
  }

  // ---- sorting ----

  method InsertByTask(es: seq<Entry>, x: Entry) returns (out: seq<Entry>)
    requires Ascending(es)
    ensures Ascending(out) && multiset(out) == multiset(es) + multiset{x}
  {
    var n := |es|;
    while n > 0 && Before(x.task, es[n - 1].task)
      invariant 0 <= n <= |es|
      invariant forall i :: n <= i < |es| ==> Before(x.task, es[i].task)
    {
      n := n - 1;
    }
    out := es[..n] + [x] + es[n..];
    InsertAscends(es, x, n);
    assert es == es[..n] + es[n..];
  }

  lemma InsertAscends(es: seq<Entry>, x: Entry, n: nat)
    requires n <= |es| && Ascending(es)
    requires n > 0 ==> NotAfter(es[n - 1].task, x.task)
    requires forall i :: n <= i < |es| ==> Before(x.task, es[i].task)
    ensures Ascending(es[..n] + [x] + es[n..])
  {
    forall i | 0 <= i < n
      ensures NotAfter(es[i].task, x.task)
    {
      assert NotAfter(es[i].task, es[n - 1].task);
    }
  }

  /** sort.Slice by outgoingInflightLess. */
  method SortByTask(es: seq<Entry>) returns (out: seq<Entry>)
    ensures Ascending(out) && multiset(out) == multiset(es)
  {
    out := [];
    for n := 0 to |es|
      invariant Ascending(out) && multiset(out) == multiset(es[..n])
    {
      out := InsertByTask(out, es[n]);
      assert es[..n + 1] == es[..n] + [es[n]];
    }
    assert es[..|es|] == es;
  }

  lemma PermutedLists(m: Table, es: seq<Entry>, out: seq<Entry>)
    requires Lists(m, es) && multiset(out) == multiset(es)
    ensures Lists(m, out)
  {
    SameMembers(es, out);
    forall i | 0 <= i < |out| ensures out[i].packetID in m && m[out[i].packetID] == out[i] {
      assert out[i] in es;
    }
  }

  /** outgoingInflightStore. Entries go in and out as copies; the table is replaced in place. */
  class Store {
    var m: Table

    ghost predicate Valid()
      reads this
    {
      Keyed(m)
    }

    constructor ()
      ensures Valid() && m == map[]
    {
      m := map[];
    }

    method Put(e: Entry) returns (replaced: bool)
      requires Valid()
      modifies this
      ensures Valid()
      ensures e.packetID == 0 ==> !replaced && m == old(m)
      ensures e.packetID != 0 ==> replaced == (e.packetID in old(m)) && m == old(m)[e.packetID := e]
    {
      if e.packetID == 0 {
        return false;
      }
      replaced := e.packetID in m;
      m := m[e.packetID := e];
    }

    method Get(packetID: nat) returns (e: Option<Entry>)
      requires Valid()
      ensures e == if packetID in m then Some(m[packetID]) else None
    {
      e := if packetID != 0 && packetID in m then Some(m[packetID]) else None;
    }

    method UpdateStage(packetID: nat, stage: Stage)
      requires Valid()
      modifies this
      ensures Valid()
      ensures m == if packetID in old(m) then old(m)[packetID := old(m)[packetID].(stage := stage)] else old(m)
    {
      if packetID != 0 && packetID in m {
        m := m[packetID := m[packetID].(stage := stage)];
      }
    }

    /** Marks an unacknowledged entry of the given QoS; the stage is not looked at. */
    method MarkAcked(packetID: nat, qos: nat) returns (e: Option<Entry>)
      requires Valid()
      modifies this
      ensures Valid()
      ensures if packetID in old(m) && old(m)[packetID].qos == qos && !old(m)[packetID].acked
              then e == Some(old(m)[packetID].(acked := true)) && m == old(m)[packetID := e.value]
              else e == None && m == old(m)
    {
      if packetID == 0 || packetID !in m || m[packetID].qos != qos || m[packetID].acked {
        return None;
      }
      m := m[packetID := m[packetID].(acked := true)];
      e := Some(m[packetID]);
    }

    method MarkTokenHeld(packetID: nat) returns (e: Option<Entry>)
      requires Valid()
      modifies this
      ensures Valid()
      ensures if packetID in old(m) && !old(m)[packetID].tokenHeld
              then e == Some(old(m)[packetID].(tokenHeld := true)) && m == old(m)[packetID := e.value]
              else e == None && m == old(m)
    {
      if packetID == 0 || packetID !in m || m[packetID].tokenHeld {
        return None;
      }
      m := m[packetID := m[packetID].(tokenHeld := true)];
      e := Some(m[packetID]);
    }

    method ClearTokenHeld(packetID: nat)
      requires Valid()
      modifies this
      ensures Valid()
      ensures m == if packetID in old(m) then old(m)[packetID := old(m)[packetID].(tokenHeld := false)] else old(m)
    {
      if packetID != 0 && packetID in m {
        m := m[packetID := m[packetID].(tokenHeld := false)];
      }
    }

    method Delete(packetID: nat) returns (found: bool)
      requires Valid()
      modifies this
      ensures Valid()
      ensures found == (packetID in old(m)) && m == old(m) - {packetID}
    {
      found := packetID != 0 && packetID in m;
      m := m - {packetID};
    }

    method MarkSent(packetID: nat, now: int) returns (found: bool)
      requires Valid()
      modifies this
      ensures Valid()
      ensures found == (packetID in old(m))
      ensures m == if found then old(m)[packetID := Resent(old(m)[packetID], now)] else old(m)
    {
      found := packetID != 0 && packetID in m;
      if found {
        m := m[packetID := Resent(m[packetID], now)];
      }
    }

    /** A copy of every entry, in no particular order. */
    method All() returns (es: seq<Entry>)
      requires Valid()
      ensures Lists(m, es)
    {
      es := [];
      var left := m.Keys;
      while left != {}
        invariant left <= m.Keys
        invariant forall i :: 0 <= i < |es| ==> es[i].packetID in m && m[es[i].packetID] == es[i]
        invariant forall i :: 0 <= i < |es| ==> es[i].packetID !in left
        invariant forall p :: p in m && p !in left ==> m[p] in es
        invariant forall i, j :: 0 <= i < j < |es| ==> es[i].packetID != es[j].packetID
        decreases left
      {
        var p :| p in left;
        es := es + [m[p]];
        left := left - {p};
      }
    }

    method PopAckedInOrder() returns (out: seq<Entry>)
      requires Valid()
      modifies this
      ensures Valid() && Popped(old(m), out, m)
    {
      var listed := All();
      var es := SortByTask(listed);
      PermutedLists(m, listed, es);
      out := [];
      var n := 0;
      while n < |es| && es[n].acked
        invariant 0 <= n <= |es| && out == es[..n]
        invariant forall i :: 0 <= i < n ==> es[i].acked
        invariant m == old(m) - IDs(es[..n])
      {
        out := out + [es[n]];
        m := m - {es[n].packetID};
        assert es[..n + 1] == es[..n] + [es[n]];
        n := n + 1;
      }
      PrefixPopped(old(m), es, n);
    }

    method FirstUnacked() returns (first: Option<Entry>)
      requires Valid()
      ensures first.None? <==> forall p :: p in m ==> m[p].acked
      ensures first.Some? ==> FirstUnackedIs(m, first.value.packetID) && m[first.value.packetID] == first.value
    {
      first := None;
      var left := m.Keys;
      while left != {}
        invariant left <= m.Keys
        invariant first.None? ==> forall p :: p in m && p !in left ==> m[p].acked
        invariant first.Some? ==>
                    && first.value.packetID in m && m[first.value.packetID] == first.value && !first.value.acked
                    && forall p :: p in m && p !in left && !m[p].acked ==> NotAfter(first.value.task, m[p].task)
        decreases left
      {
        var p :| p in left;
        if !m[p].acked && (first.None? || Before(m[p].task, first.value.task)) {
          first := Some(m[p]);
        }
        left := left - {p};
      }
    }

    method LastTask() returns (last: Option<Entry>)
      requires Valid()
      ensures last.None? <==> m == map[]
      ensures last.Some? ==> IsLast(m, last.value.packetID) && m[last.value.packetID] == last.value
    {
      last := None;
      var left := m.Keys;
      while left != {}
        invariant left <= m.Keys
        invariant last.None? ==> left == m.Keys
        invariant last.Some? ==>
                    && last.value.packetID in m && m[last.value.packetID] == last.value
                    && forall p :: p in m && p !in left ==> NotAfter(m[p].task, last.value.task)
        decreases left
      {
        var p :| p in left;
        if last.None? || Before(last.value.task, m[p].task) {
          last := Some(m[p]);
        }
        left := left - {p};
      }
    }
  }

  function Resent(e: Entry, now: int): Entry {
    e.(lastSend := Some(now), retryCount := e.retryCount + 1)
  }

  /** p is unacknowledged and no unacknowledged entry comes before it. */
  ghost predicate FirstUnackedIs(m: Table, p: nat) {
    p in m && !m[p].acked && forall q :: q in m && !m[q].acked ==> NotAfter(m[p].task, m[q].task)
  }

  ghost predicate IsLast(m: Table, p: nat) {
    p in m && forall q :: q in m ==> NotAfter(m[q].task, m[p].task)
  }

  /** What stays is not before any of the first n, nor before the one after them. */
  lemma StaysBehind(m: Table, es: seq<Entry>, n: nat, p: nat)
    requires Keyed(m) && Lists(m, es) && Ascending(es) && n <= |es| && p in m && p !in IDs(es[..n])
    ensures forall i :: 0 <= i < n ==> NotAfter(es[i].task, m[p].task)
    ensures n < |es| && NotAfter(es[n].task, m[p].task)
  {
    Survivor(m, es, n, p);
    var k :| n <= k < |es| && es[k] == m[p];
  }

  lemma RestStartsOpen(m: Table, es: seq<Entry>, n: nat)
    requires Keyed(m) && Lists(m, es) && Ascending(es) && n <= |es| && (n < |es| ==> !es[n].acked)
    ensures m - IDs(es[..n]) == map[] || exists p :: FirstOpen(m - IDs(es[..n]), p)
  {
    var m' := m - IDs(es[..n]);
    forall p | p in m' ensures n < |es| && NotAfter(es[n].task, m[p].task) {
      StaysBehind(m, es, n, p);
    }
    if n < |es| {
      SurvivesAt(es, n);
      assert FirstOpen(m', es[n].packetID);
    } else {
      assert m' == map[];
    }
  }

  lemma PrefixPopped(m: Table, es: seq<Entry>, n: nat)
    requires Keyed(m) && Lists(m, es) && Ascending(es) && n <= |es|
    requires forall i :: 0 <= i < n ==> es[i].acked
    requires n < |es| ==> !es[n].acked
    ensures Popped(m, es[..n], m - IDs(es[..n]))
  {
    RestStartsOpen(m, es, n);
    forall i, p | 0 <= i < n && p in m - IDs(es[..n]) ensures NotAfter(es[i].task, m[p].task) {
      StaysBehind(m, es, n, p);
    }
  }

  lemma Survivor(m: Table, es: seq<Entry>, n: nat, p: nat)
    requires Keyed(m) && Lists(m, es) && n <= |es| && p in m && p !in IDs(es[..n])
    ensures exists k :: n <= k < |es| && es[k] == m[p]
  {
    var k :| 0 <= k < |es| && es[k] == m[p];
  }

  lemma SurvivesAt(es: seq<Entry>, n: nat)
    requires n < |es| && forall i, j :: 0 <= i < j < |es| ==> es[i].packetID != es[j].packetID
    ensures es[n].packetID !in IDs(es[..n])
  {
    forall e | e in es[..n]
      ensures e.packetID != es[n].packetID
    {
      var i :| 0 <= i < n && es[..n][i] == e;
    }
  }
}
