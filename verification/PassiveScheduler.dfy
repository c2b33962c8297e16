/** pkg/scheduler: the indexed min-heap of tasks ordered by expiry and key.

    A task's key and expiry are fixed once it is scheduled. Keys are byte strings. */
module PassiveScheduler {
  import opened HeapOrder
  import opened Sequences
  import opened ContainerHeap

  type Bytes = seq<nat>

  datatype Task = Task(key: Bytes, expire: int, data: nat)

  // ---- the explicit-stack walk of GetExpired, on positions ----

  ghost predicate Due(h: seq<Rank>, t: int, k: nat) {
    k < |h| && h[k].at <= t
  }

  ghost predicate Under(stack: seq<nat>, k: nat) {
    exists n :: 0 <= n < |stack| && InSubtree(stack[n], k)
  }

  /** Between rounds every due position was seen or lies under exactly one stacked position. */
  ghost predicate Walk(h: seq<Rank>, t: int, stack: seq<nat>, seen: seq<nat>) {
    && (forall k :: Due(h, t, k) ==> k in seen || Under(stack, k))
    && (forall k :: k in seen ==> Due(h, t, k) && !Under(stack, k))
    && Distinct(seen)
    && (forall a, b, k :: 0 <= a < b < |stack| && InSubtree(stack[a], k) ==> !InSubtree(stack[b], k))
  }

  function Children(i: nat): seq<nat> {
    [2 * i + 1, 2 * i + 2]
  }

  lemma WalkSkips(h: seq<Rank>, t: int, stack: seq<nat>, seen: seq<nat>)
    requires IsHeap(h, |h|) && Walk(h, t, stack, seen) && stack != []
    requires !Due(h, t, stack[|stack| - 1])
    ensures Walk(h, t, stack[..|stack| - 1], seen)
  {
    var rest, i := stack[..|stack| - 1], stack[|stack| - 1];
    forall k | Due(h, t, k)
      ensures k in seen || Under(rest, k)
    {
      if InSubtree(i, k) {
        SubtreeIsBelow(i, k);
        NotDueBelow(h, i, k, t);
      } else if k !in seen {
        var n :| 0 <= n < |stack| && InSubtree(stack[n], k);
        assert rest[n] == stack[n];
      }
    }
    forall k, n | k in seen && 0 <= n < |rest|
      ensures !InSubtree(rest[n], k)
    {
      assert stack[n] == rest[n];
    }
  }

  lemma WalkVisits(h: seq<Rank>, t: int, rest: seq<nat>, i: nat, seen: seq<nat>)
    requires Walk(h, t, rest + [i], seen) && Due(h, t, i)
    ensures Walk(h, t, rest + Children(i), seen + [i])
  {
    var was, now := rest + [i], rest + Children(i);
    assert was[|rest|] == i && now[|rest|] == 2 * i + 1 && now[|rest| + 1] == 2 * i + 2;
    forall k: nat
      ensures Under(was, k) <==> k == i || Under(now, k)
    {
      SplitUnder(rest, i, k);
      SubtreeSplits(i, k);
    }
    SplitUnder(rest, i, i);
    forall a | 0 <= a < |rest|
      ensures !InSubtree(rest[a], i)
    {
      assert was[a] == rest[a];
    }
    assert Under(was, i) && !Under(now, i);
    forall a, b, k | 0 <= a < b < |now| && InSubtree(now[a], k)
      ensures !InSubtree(now[b], k)
    {
      SubtreeSplits(i, k);
      if a < |rest| {
        assert was[a] == now[a];
        assert b < |rest| ==> was[b] == now[b];
      }
    }
  }

  lemma SplitUnder(rest: seq<nat>, i: nat, k: nat)
    ensures Under(rest + [i], k) <==> Under(rest, k) || InSubtree(i, k)
    ensures Under(rest + Children(i), k) <==>
              Under(rest, k) || InSubtree(2 * i + 1, k) || InSubtree(2 * i + 2, k)
  {
    var was, now := rest + [i], rest + Children(i);
    assert was[|rest|] == i && now[|rest|] == 2 * i + 1 && now[|rest| + 1] == 2 * i + 2;
    forall n | 0 <= n < |rest|
      ensures was[n] == rest[n] == now[n]
    {
    }
  }

  /** A bound on the rounds still to come for a stacked position. */
  function Weight(i: nat, n: nat): (w: nat)
    ensures w >= 1
    decreases n - i
  {
    if i >= n then 1 else 1 + Weight(2 * i + 1, n) + Weight(2 * i + 2, n)
  }

  function TotalWeight(stack: seq<nat>, n: nat): nat {
    if stack == [] then 0 else Weight(stack[|stack| - 1], n) + TotalWeight(stack[..|stack| - 1], n)
  }

  lemma PushWeight(rest: seq<nat>, i: nat, n: nat)
    ensures TotalWeight(rest + [i], n) == TotalWeight(rest, n) + Weight(i, n)
    ensures TotalWeight(rest + Children(i), n) ==
              TotalWeight(rest, n) + Weight(2 * i + 1, n) + Weight(2 * i + 2, n)
  {
    assert (rest + [i])[..|rest|] == rest;
    var two := rest + Children(i);
    assert two[..|rest| + 1] == rest + [2 * i + 1];
    assert (rest + [2 * i + 1])[..|rest|] == rest;
  }

  /** One round: the top of the stack is dropped with its subtree, or visited. */
  lemma WalkRound(h: seq<Rank>, t: int, stack: seq<nat>, seen: seq<nat>)
    requires IsHeap(h, |h|) && Walk(h, t, stack, seen) && stack != []
    ensures var rest, i := stack[..|stack| - 1], stack[|stack| - 1];
            if Due(h, t, i) then
              && Walk(h, t, rest + Children(i), seen + [i])
              && TotalWeight(rest + Children(i), |h|) < TotalWeight(stack, |h|)
            else
              Walk(h, t, rest, seen) && TotalWeight(rest, |h|) < TotalWeight(stack, |h|)
  {
    var rest, i := stack[..|stack| - 1], stack[|stack| - 1];
    PushWeight(rest, i, |h|);
    assert stack == rest + [i];
    if Due(h, t, i) {
      WalkVisits(h, t, rest, i, seen);
    } else {
      WalkSkips(h, t, stack, seen);
    }
  }

  lemma WalkStarts(h: seq<Rank>, t: int)
    ensures Walk(h, t, [0], [])
  {
    var stack: seq<nat> := [0];
    forall k | Due(h, t, k) ensures Under(stack, k) {
      SubtreeOfRoot(k);
      assert InSubtree(stack[0], k);
    }
  }

  /** The loop of GetExpired. `seen` lists the positions it visited. */
  method CollectExpired(items: seq<Item<Task>>, now: int) returns (expired: seq<Task>, ghost seen: seq<nat>)
    requires IsHeap(Ranks(items), |items|)
    requires forall i :: 0 <= i < |items| ==> items[i].payload.expire == items[i].at
    ensures Walk(Ranks(items), now, [], seen) && |expired| == |seen|
    ensures forall m :: 0 <= m < |seen| ==> seen[m] < |items| && expired[m] == items[seen[m]].payload
  {
    expired, seen := [], [];
    ghost var h := Ranks(items);
    var n := |items|;
    var stack: seq<nat> := [0];
    WalkStarts(h, now);
    while stack != []
      invariant Walk(h, now, stack, seen) && |expired| == |seen|
      invariant forall m :: 0 <= m < |seen| ==> seen[m] < n && expired[m] == items[seen[m]].payload
      decreases TotalWeight(stack, n)
    {
      WalkRound(h, now, stack, seen);
      var last := |stack| - 1;
      var index := stack[last];
      stack := stack[..last];
      if index >= n || items[index].payload.expire > now {
        continue;
      }
      seen := seen + [index];
      expired := expired + [items[index].payload];
      stack := stack + Children(index);
    }
  }

  class Scheduler {
    const heap: PriorityHeap<Task>
    var entries: map<Bytes, Item<Task>>
    ghost var tasks: map<Bytes, Task>  // what is scheduled, by key

    ghost predicate Indexes()
      reads this, heap, heap.own
    {
      && tasks.Keys == entries.Keys && [] !in tasks
      && (forall k :: k in entries ==>
            && entries[k] in heap.own
            && entries[k].payload == tasks[k] && tasks[k].key == k
            && entries[k].at == tasks[k].expire && entries[k].tie == k)
      && (forall e :: e in heap.own ==> e.tie in entries && entries[e.tie] == e)
    }

    ghost predicate Valid()
      reads this, heap, heap.own
    {
      heap.Valid() && Indexes()
    }

    constructor ()
      ensures Valid() && tasks == map[] && fresh(heap)
    {
      heap := new PriorityHeap();
      entries, tasks := map[], map[];
    }

    /** Adds or replaces a task by key; a task without a key is ignored. */
    method Add(task: Task)
      requires Valid()
      modifies this, heap, heap.own
      ensures Valid() && fresh(heap.own - old(heap.own))
      ensures tasks == if task.key == [] then old(tasks) else old(tasks)[task.key := task]
    {
      var key := task.key;
      if key == [] {
        return;
      }
      if key in entries {
        heap.Replace(entries[key], task.expire, task);
        tasks := tasks[key := task];
        AddKeepsIndex(task, entries[key]);
      } else {
        Insert(task);
      }
    }

    // Changing the index alone leaves the heap as it is.
    method SetIndex(index: map<Bytes, Item<Task>>)
      requires heap.Valid()
      modifies `entries
      ensures heap.Valid() && entries == index
    {
      entries := index;
    }

    method PushNew(task: Task) returns (item: Item<Task>)
      requires heap.Valid()
      modifies heap, heap.own`index
      ensures heap.Valid() && fresh(item) && heap.own == old(heap.own) + {item}
      ensures item.payload == task && item.at == task.expire && item.tie == task.key
    {
      item := new Item(task.expire, task.key, task);
      heap.Add(item);
    }

    method Insert(task: Task)
      requires Valid() && task.key != [] && task.key !in entries
      modifies this, heap, heap.own
      ensures Valid() && fresh(heap.own - old(heap.own))
      ensures tasks == old(tasks)[task.key := task]
    {
      tasks := tasks[task.key := task];
      var item := PushNew(task);
      SetIndex(entries[task.key := item]);
      AddKeepsIndex(task, item);
    }

    twostate lemma AddKeepsIndex(task: Task, new item: Item<Task>)
      requires old(Indexes()) && task.key != [] && tasks == old(tasks)[task.key := task]
      requires heap.own == old(heap.own) + {item} && entries == old(entries)[task.key := item]
      requires task.key in old(entries) ==> old(entries)[task.key] == item
      requires task.key !in old(entries) ==> item !in old(heap.own)
      requires forall e :: e in old(heap.own) && e != item ==> unchanged(e`at) && unchanged(e`payload)
      requires item.payload == task && item.at == task.expire && item.tie == task.key
      ensures Indexes()
    {
    }

    method Remove(key: Bytes) returns (found: bool)
      requires Valid()
      modifies this, heap, heap.own
      ensures Valid() && heap.own <= old(heap.own)
      ensures found == (key in old(tasks)) && tasks == old(tasks) - {key}
    {
      if key == [] || key !in entries {
        return false;
      }
      tasks := tasks - {key};
      heap.Delete(entries[key]);
      SetIndex(entries - {key});
      RemoveKeepsIndex(key);
      return true;
    }

    twostate lemma RemoveKeepsIndex(key: Bytes)
      requires old(Indexes()) && key in old(entries) && tasks == old(tasks) - {key}
      requires heap.own == old(heap.own) - {old(entries)[key]} && entries == old(entries) - {key}
      requires forall e :: e in heap.own ==> unchanged(e`at) && unchanged(e`payload)
      ensures Indexes()
    {
    }

    /** The tasks with expiry at or before `now`: each once, none else. */
    method GetExpired(now: int) returns (expired: seq<Task>)
      requires Valid()
      ensures forall k :: k in tasks && tasks[k].expire <= now ==> tasks[k] in expired
      ensures forall x :: x in expired ==> x.key in tasks && tasks[x.key] == x && x.expire <= now
      ensures Distinct(expired)
    {
      if heap.items == [] || heap.items[0].payload.expire > now {
        NothingDue(now);
        return [];
      }
      ghost var seen;
      expired, seen := CollectExpired(heap.items, now);
      SeenIsExpired(now, Ranks(heap.items), seen, expired);
    }

    lemma NothingDue(now: int)
      requires Valid() && (heap.items == [] || heap.items[0].at > now)
      ensures forall k :: k in tasks ==> tasks[k].expire > now
    {
      forall k | k in tasks
        ensures tasks[k].expire > now
      {
        heap.HeadIsLeast(entries[k]);
      }
    }

    lemma SeenIsExpired(now: int, h: seq<Rank>, seen: seq<nat>, expired: seq<Task>)
      requires Valid() && h == Ranks(heap.items) && Walk(h, now, [], seen) && |expired| == |seen|
      requires forall m :: 0 <= m < |seen| ==> seen[m] < |h| && expired[m] == heap.items[seen[m]].payload
      ensures forall k :: k in tasks && tasks[k].expire <= now ==> tasks[k] in expired
      ensures forall x :: x in expired ==> x.key in tasks && tasks[x.key] == x && x.expire <= now
      ensures Distinct(expired)
    {
      forall k | k in tasks && tasks[k].expire <= now
        ensures tasks[k] in expired
      {
        assert Due(h, now, entries[k].index);
        var m :| 0 <= m < |seen| && seen[m] == entries[k].index;
        assert expired[m] == tasks[k];
      }
      forall m | 0 <= m < |seen|
        ensures expired[m].key in tasks && tasks[expired[m].key] == expired[m]
        ensures expired[m].expire <= now && entries[expired[m].key].index == seen[m]
      {
        assert seen[m] in seen;
        assert heap.items[seen[m]] in heap.own;
      }
    }
  }
}
