/** The cursors that the acknowledgement path of the downlink engine hands to the store. */
module DownlinkOrder {
  import opened OutgoingInflight
  import opened Downlink

  ghost predicate Increasing(log: seq<Position>) {
    forall i, j :: 0 <= i < j < |log| ==> Before(log[i], log[j])
  }

  ghost predicate IsTask(m: Table, p: nat) {
    p in m && !m[p].retained
  }

  /** Every task in flight is at or before `c`. */
  ghost predicate Behind(m: Table, c: Position) {
    forall p :: IsTask(m, p) ==> NotAfter(m[p].task, c)
  }

  ghost predicate DistinctQueueTasks(m: Table) {
    forall p, q :: IsTask(m, p) && IsTask(m, q) && p != q ==> m[p].task != m[q].task
  }

  ghost predicate Below(log: seq<Position>, m: Table) {
    forall i, p :: 0 <= i < |log| && IsTask(m, p) ==> Before(log[i], m[p].task)
  }

  ghost predicate Ordered(s: Link) {
    && Behind(s.m, s.cursor) && DistinctQueueTasks(s.m)
    && Increasing(s.ackLog) && Below(s.ackLog, s.m)
    && (forall i :: 0 <= i < |s.ackLog| ==> NotAfter(s.ackLog[i], s.cursor))
  }

  /** The task positions among popped entries are theirs, in increasing order. */
  lemma {:induction false} PositionsOfPopped(m: Table, out: seq<Entry>)
    requires DistinctQueueTasks(m) && Ascending(out)
    requires forall i :: 0 <= i < |out| ==> out[i].packetID in m && m[out[i].packetID] == out[i]
    requires forall i, j :: 0 <= i < j < |out| ==> out[i].packetID != out[j].packetID
    ensures Increasing(TaskPositions(out))
    ensures forall x :: x in TaskPositions(out) ==> exists i :: 0 <= i < |out| && !out[i].retained && out[i].task == x
    decreases |out|
  {
    if out != [] {
      var n := |out| - 1;
      PositionsOfPopped(m, out[..n]);
      var init := TaskPositions(out[..n]);
      forall x | x in init
        ensures exists i :: 0 <= i < n && !out[i].retained && out[i].task == x
      {
        var i :| 0 <= i < n && !out[..n][i].retained && out[..n][i].task == x;
        assert out[i].task == x;
      }
      if !out[n].retained {
        assert IsTask(m, out[n].packetID);
        forall x | x in init
          ensures Before(x, out[n].task)
        {
          var i :| 0 <= i < n && !out[i].retained && out[i].task == x;
          assert IsTask(m, out[i].packetID);
        }
        AppendIncreasing(init, [out[n].task]);
        assert out[n].task == out[n].task;
      }
    }
  }

  lemma AppendIncreasing(a: seq<Position>, b: seq<Position>)
    requires Increasing(a) && Increasing(b)
    requires forall x, y :: x in a && y in b ==> Before(x, y)
    ensures Increasing(a + b)
  {
    forall i, j | 0 <= i < j < |a + b|
      ensures Before((a + b)[i], (a + b)[j])
    {
      if i < |a| <= j {
        assert a[i] in a && b[j - |a|] in b;
      }
    }
  }

  lemma AckedKeepsTasks(m: Table, p: nat)
    requires p in m && DistinctQueueTasks(m)
    ensures DistinctQueueTasks(Acked(m, p))
    ensures forall q :: IsTask(Acked(m, p), q) <==> IsTask(m, q)
    ensures forall q :: q in m ==> Acked(m, p)[q].task == m[q].task
  {
  }

  /** A position that leaves is after the log, before what stays, and not past the cursor. */
  lemma PoppedPosition(s: Link, p: nat, out: seq<Entry>, m': Table, i: nat)
    requires Ordered(s) && p in s.m && Popped(Acked(s.m, p), out, m') && i < |out| && !out[i].retained
    ensures NotAfter(out[i].task, s.cursor)
    ensures forall k :: 0 <= k < |s.ackLog| ==> Before(s.ackLog[k], out[i].task)
    ensures forall q :: IsTask(m', q) ==> Before(out[i].task, m'[q].task)
  {
    var m1, pid := Acked(s.m, p), out[i].packetID;
    AckedKeepsTasks(s.m, p);
    assert IsTask(m1, pid) && IsTask(s.m, pid);
    forall q | IsTask(m', q)
      ensures Before(out[i].task, m'[q].task)
    {
      assert pid in IDs(out) && q !in IDs(out);
      assert IsTask(m1, q) && m1[pid].task != m1[q].task;
    }
  }

  lemma ExtendLog(log: seq<Position>, more: seq<Position>, m: Table, c: Position)
    requires Increasing(log) && Increasing(more) && Below(log, m)
    requires forall i :: 0 <= i < |log| ==> NotAfter(log[i], c)
    requires forall x :: x in more ==> NotAfter(x, c)
    requires forall x, i :: x in more && 0 <= i < |log| ==> Before(log[i], x)
    requires forall x, q :: x in more && IsTask(m, q) ==> Before(x, m[q].task)
    ensures Increasing(log + more) && Below(log + more, m)
    ensures forall i :: 0 <= i < |log + more| ==> NotAfter((log + more)[i], c)
  {
    AppendIncreasing(log, more);
    forall i | |log| <= i < |log + more|
      ensures (log + more)[i] in more
    {
      assert (log + more)[i] == more[i - |log|];
    }
  }

  /** What stays after a pop are tasks that were there, at the same positions. */
  lemma PopKeepsTasks(m: Table, p: nat, out: seq<Entry>, m': Table, q: nat)
    requires p in m && Popped(Acked(m, p), out, m') && IsTask(m', q)
    ensures IsTask(m, q) && m'[q].task == m[q].task
  {
    assert q in Acked(m, p);
  }

  lemma AckOrdered(s: Link, p: nat, qos: nat, out: seq<Entry>, s': Link)
    requires Ordered(s) && AckStep(s, p, qos, out, s') && AckApplies(s, p, qos)
    ensures Ordered(s')
  {
    AckedKeepsTasks(s.m, p);
    PositionsOfPopped(Acked(s.m, p), out);
    forall q | IsTask(s'.m, q)
      ensures IsTask(s.m, q) && s'.m[q].task == s.m[q].task
    {
      PopKeepsTasks(s.m, p, out, s'.m, q);
    }
    forall x | x in TaskPositions(out)
      ensures NotAfter(x, s.cursor)
      ensures forall k :: 0 <= k < |s.ackLog| ==> Before(s.ackLog[k], x)
      ensures forall q :: IsTask(s'.m, q) ==> Before(x, s'.m[q].task)
    {
      var i :| 0 <= i < |out| && !out[i].retained && out[i].task == x;
      PoppedPosition(s, p, out, s'.m, i);
    }
    ExtendLog(s.ackLog, TaskPositions(out), s'.m, s.cursor);
  }

  lemma DeliverOrdered(s: Link, t: Task, p: nat, now: int, w: Write)
    requires Ordered(s) && s.tokens > 0 && Before(s.cursor, t.position) && p !in s.m
    ensures Ordered(DeliverStep(s, t, p, now, w))
  {
    var s' := DeliverStep(s, t, p, now, w);
    assert forall q :: IsTask(s'.m, q) && q != p ==> IsTask(s.m, q) && s'.m[q] == s.m[q];
    assert forall q :: IsTask(s.m, q) ==> Before(s.m[q].task, t.position);
  }

  lemma RetainedOrdered(s: Link, e: Entry, w: Write)
    requires Ordered(s) && s.tokens > 0 && e.packetID !in s.m && e.retained
    ensures Ordered(RetainedStep(s, e, w))
  {
    var s' := RetainedStep(s, e, w);
    assert forall q :: IsTask(s'.m, q) ==> IsTask(s.m, q) && s'.m[q] == s.m[q];
  }

  lemma StepOrdered(cfg: Config, s: Link, a: Action, s': Link)
    requires Ordered(s) && Step(cfg, s, a, s') && !a.Restore?
    ensures Ordered(s')
  {
    match a {
      case Deliver(t, p, now, w) => DeliverOrdered(s, t, p, now, w);
      case SendRetained(p, qos, ts, id, packet, w) =>
        RetainedOrdered(s, RetainedEntry(s.nextSerial, p, qos, ts, id, packet), w);
      case Ack(p, qos, out) =>
        if AckApplies(s, p, qos) {
          AckOrdered(s, p, qos, out, s');
        }
      case Retransmit(p, now, w) => SameTasksOrdered(s, s');
      case PubRec(p, w) => SameTasksOrdered(s, s');
      case _ =>
    }
  }

  lemma SameTasksOrdered(s: Link, s': Link)
    requires Ordered(s) && s'.cursor == s.cursor && s'.ackLog == s.ackLog
    requires forall q :: q in s'.m ==> q in s.m && s'.m[q].task == s.m[q].task && s'.m[q].retained == s.m[q].retained
    ensures Ordered(s')
  {
    assert forall q :: IsTask(s'.m, q) ==> IsTask(s.m, q);
  }

  /** From a state whose cursor is at or after every task in flight, the cursors of the
      acknowledgement path strictly increase over the whole run, never pass the runner's own
      position, and stay before every task still in flight. */
  lemma {:induction false} CursorsAdvance(cfg: Config, run: seq<Link>, acts: seq<Action>, i: nat)
    requires Run(cfg, run, acts) && Ordered(run[0]) && i < |run|
    requires forall k :: 0 <= k < |acts| ==> !acts[k].Restore?
    ensures Increasing(run[i].ackLog) && Below(run[i].ackLog, run[i].m)
    ensures Ordered(run[i])
    decreases i
  {
    if i > 0 {
      CursorsAdvance(cfg, run, acts, i - 1);
      assert Step(cfg, run[i - 1], acts[i - 1], run[i]);
      StepOrdered(cfg, run[i - 1], acts[i - 1], run[i]);
    }
  }

  /** Every task in flight is after `c`, and so is the runner unless it still is at `c`. */
  ghost predicate After(s: Link, c: Position) {
    NotAfter(c, s.cursor) && forall p :: IsTask(s.m, p) ==> Before(c, s.m[p].task)
  }

  lemma AckStaysAfter(s: Link, p: nat, qos: nat, out: seq<Entry>, s': Link, c: Position)
    requires After(s, c) && AckStep(s, p, qos, out, s')
    ensures After(s', c)
  {
    if AckApplies(s, p, qos) {
      forall q | IsTask(s'.m, q) ensures Before(c, s'.m[q].task) {
        PopKeepsTasks(s.m, p, out, s'.m, q);
      }
    }
  }

  lemma DeliverStaysAfter(s: Link, t: Task, p: nat, now: int, w: Write, c: Position)
    requires After(s, c) && s.tokens > 0 && Before(s.cursor, t.position) && p !in s.m
    ensures After(DeliverStep(s, t, p, now, w), c)
  {
    var s' := DeliverStep(s, t, p, now, w);
    assert forall q :: IsTask(s'.m, q) && q != p ==> IsTask(s.m, q) && s'.m[q].task == s.m[q].task;
  }

  /** A step that brings no new queue task and leaves the runner's position alone. */
  lemma SameTasksStayAfter(s: Link, s': Link, c: Position)
    requires After(s, c) && s'.cursor == s.cursor
    requires forall q :: IsTask(s'.m, q) ==> IsTask(s.m, q) && s'.m[q].task == s.m[q].task
    ensures After(s', c)
  {
  }

  lemma StepStaysAfter(cfg: Config, s: Link, a: Action, s': Link, c: Position)
    requires After(s, c) && Step(cfg, s, a, s') && !a.Restore?
    ensures After(s', c)
  {
    match a {
      case Ack(p, qos, out) => AckStaysAfter(s, p, qos, out, s', c);
      case Deliver(t, p, now, w) => DeliverStaysAfter(s, t, p, now, w, c);
      case Skip(_, _) => assert s'.m == s.m;
      case _ => SameTasksStayAfter(s, s', c);
    }
  }

  lemma {:induction false} RunStaysAfter(cfg: Config, run: seq<Link>, acts: seq<Action>, i: nat, c: Position)
    requires Run(cfg, run, acts) && After(run[0], c) && i < |run|
    requires forall k :: 0 <= k < |acts| ==> !acts[k].Restore?
    ensures After(run[i], c)
    decreases i
  {
    if i > 0 {
      RunStaysAfter(cfg, run, acts, i - 1, c);
      assert Step(cfg, run[i - 1], acts[i - 1], run[i]);
      StepStaysAfter(cfg, run[i - 1], acts[i - 1], run[i], c);
    }
  }

  /** Where the acknowledgement path alone moves the stored cursor, the stored cursor is before
      every task in flight, whatever was acknowledged in between. */
  lemma StoredCursorTrails(cfg: Config, run: seq<Link>, acts: seq<Action>, i: nat, stored: Position, p: nat)
    requires Run(cfg, run, acts) && run[0].m == map[] && run[0].ackLog == [] && i < |run|
    requires forall k :: 0 <= k < |acts| ==> !acts[k].Restore?
    requires stored == run[0].cursor || stored in run[i].ackLog
    requires IsTask(run[i].m, p)
    ensures Before(stored, run[i].m[p].task)
  {
    CursorsAdvance(cfg, run, acts, i);
    assert NotAfter(run[0].cursor, run[0].cursor);
    RunStaysAfter(cfg, run, acts, i, run[0].cursor);
  }
}
