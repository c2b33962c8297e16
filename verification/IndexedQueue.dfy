/** pkg/indexedheap: a min-heap indexed by key.

    The heap array, the back-pointers and the key index together behave as one
    map from key to priority, value and first-insertion counter. */
module IndexedQueue {
  import opened Options
  import opened HeapOrder
  import opened Sequences
  import opened ContainerHeap

  datatype Payload<K, V> = Payload(key: K, value: V)

  function Tie(seqNo: nat): seq<nat> { [seqNo] }

  // What the queue stores for one key.
  datatype Slot<V> = Slot(priority: int, value: V, seqNo: nat) {
    function Key(): Rank { Rank(priority, Tie(seqNo)) }
  }

  datatype Op<K, V> = Put(key: K, priority: int, value: V) | Drop(key: K)

  // The queue as a map: the abstract counterpart of every method below.
  datatype Table<!K, V> = Table(slots: map<K, Slot<V>>, next: nat) {
    /** Insertion counters are below `next` and differ between keys. */
    ghost predicate Numbered() {
      && (forall k :: k in slots ==> slots[k].seqNo < next)
      && (forall k, l :: k in slots && l in slots && k != l ==> slots[k].seqNo != slots[l].seqNo)
    }

    function Upsert(key: K, priority: int, value: V): Table<K, V> {
      if key in slots then Table(slots[key := Slot(priority, value, slots[key].seqNo)], next)
      else Table(slots[key := Slot(priority, value, next)], next + 1)
    }

    function Remove(key: K): Table<K, V> {
      Table(slots - {key}, next)
    }

    function Apply(op: Op<K, V>): Table<K, V> {
      match op
      case Put(k, p, v) => Upsert(k, p, v)
      case Drop(k) => Remove(k)
    }
  }

  lemma UpsertNumbered<K, V>(t: Table<K, V>, key: K, priority: int, value: V)
    requires t.Numbered()
    ensures t.Upsert(key, priority, value).Numbered()
  {
  }

  lemma UpsertMeans<K, V>(t: Table<K, V>, key: K, priority: int, value: V)
    ensures var u := t.Upsert(key, priority, value).slots;
            && key in u && u[key].priority == priority && u[key].value == value
            && u[key].seqNo == (if key in t.slots then t.slots[key].seqNo else t.next)
            && u.Keys == t.slots.Keys + {key} && forall k :: k in t.slots && k != key ==> u[k] == t.slots[k]
  {
  }

  function ApplyAll<K, V>(t: Table<K, V>, ops: seq<Op<K, V>>): Table<K, V>
    decreases |ops|
  {
    if ops == [] then t else ApplyAll(t, ops[..|ops| - 1]).Apply(ops[|ops| - 1])
  }

  predicate Concerns<K(==), V>(op: Op<K, V>, key: K) {
    op.key == key
  }

  /** What operations in sequence leave for a key: the last one about it decides, and without
      any it keeps what it had. */
  lemma {:induction false} LastOpDecides<K, V>(t: Table<K, V>, ops: seq<Op<K, V>>, key: K, n: nat)
    requires n < |ops| && Concerns(ops[n], key) && forall i :: n < i < |ops| ==> !Concerns(ops[i], key)
    ensures var slots := ApplyAll(t, ops).slots;
            match ops[n]
            case Put(_, p, v) => key in slots && slots[key].priority == p && slots[key].value == v
            case Drop(_) => key !in slots
    decreases |ops|
  {
    var last := |ops| - 1;
    if n < last {
      assert !Concerns(ops[last], key);
      assert forall i :: 0 <= i < last ==> ops[..last][i] == ops[i];
      LastOpDecides(t, ops[..last], key, n);
    }
  }

  lemma {:induction false} UntouchedStays<K, V>(t: Table<K, V>, ops: seq<Op<K, V>>, key: K)
    requires forall i :: 0 <= i < |ops| ==> !Concerns(ops[i], key)
    ensures (key in ApplyAll(t, ops).slots <==> key in t.slots)
            && (key in t.slots ==> ApplyAll(t, ops).slots[key] == t.slots[key])
    decreases |ops|
  {
    if ops != [] {
      var last := |ops| - 1;
      assert !Concerns(ops[last], key);
      UntouchedStays(t, ops[..last], key);
    }
  }

  class Queue<K(==), V> {
    const heap: PriorityHeap<Payload<K, V>>
    var byKey: map<K, Item<Payload<K, V>>>
    var next: nat
    ghost var table: Table<K, V>  // what the queue means

    /** The key index and the heap hold the same entries, one per key. */
    ghost predicate Bijective()
      reads this, heap, heap.own
    {
      && (forall k :: k in byKey ==> byKey[k] in heap.own && byKey[k].payload.key == k)
      && (forall e :: e in heap.own ==> e.payload.key in byKey && byKey[e.payload.key] == e)
    }

    /** Every entry holds what the table says about its key. */
    ghost predicate Represents()
      reads this, heap, heap.own
    {
      && table.next == next
      && table.slots.Keys == byKey.Keys
      && forall k :: k in byKey && byKey[k] in heap.own ==>
           Holds(byKey[k], table.slots[k])
    }

    ghost predicate Holds(e: Item<Payload<K, V>>, s: Slot<V>)
      reads e
    {
      e.at == s.priority && e.tie == Tie(s.seqNo) && e.payload.value == s.value
    }

    ghost predicate Valid()
      reads this, heap, heap.own
    {
      heap.Valid() && Bijective() && Represents() && table.Numbered()
    }

    constructor ()
      ensures Valid() && table == Table(map[], 0) && fresh(heap)
    {
      heap := new PriorityHeap();
      byKey, next, table := map[], 0, Table(map[], 0);
    }

    method Upsert(key: K, priority: int, value: V)
      requires Valid()
      modifies this, heap, heap.own
      ensures Valid() && fresh(heap.own - old(heap.own))
      ensures table == old(table).Upsert(key, priority, value)
      ensures key in table.slots && table.slots[key].priority == priority && table.slots[key].value == value
      ensures table.slots[key].seqNo == if key in old(table).slots then old(table).slots[key].seqNo else old(next)
      ensures table.slots.Keys == old(table).slots.Keys + {key}
      ensures forall k :: k in old(table).slots && k != key ==> table.slots[k] == old(table).slots[k]
    {
      UpsertMeans(table, key, priority, value);
      if key in byKey {
        Update(key, priority, value);
      } else {
        Insert(key, priority, value);
      }
    }

    method Update(key: K, priority: int, value: V)
      requires Valid() && key in byKey
      modifies this, heap, heap.own
      ensures Valid() && heap.own == old(heap.own)
      ensures table == old(table).Upsert(key, priority, value)
    {
      heap.Replace(byKey[key], priority, Payload(key, value));
      UpsertNumbered(table, key, priority, value);
      table := table.Upsert(key, priority, value);
      UpdateKeepsIndex(key);
    }

    twostate lemma UpdateKeepsIndex(key: K)
      requires old(Bijective() && Represents() && key in byKey)
      requires heap.own == old(heap.own) && byKey == old(byKey) && next == old(next)
      requires forall e :: e in heap.own && e != byKey[key] ==> unchanged(e`at) && unchanged(e`payload)
      requires byKey[key] in heap.own && byKey[key].payload.key == key
      requires table == old(table).Upsert(key, byKey[key].at, byKey[key].payload.value)
      ensures Bijective() && Represents()
    {
    }

    // Changing the index alone leaves the heap as it is.
    method SetIndex(index: map<K, Item<Payload<K, V>>>)
      requires heap.Valid()
      modifies `byKey
      ensures heap.Valid() && byKey == index
    {
      byKey := index;
    }

    method PushNew(priority: int, seqNo: nat, payload: Payload<K, V>) returns (item: Item<Payload<K, V>>)
      requires heap.Valid()
      modifies heap, heap.own`index
      ensures heap.Valid() && fresh(item) && heap.own == old(heap.own) + {item}
      ensures item.at == priority && item.tie == Tie(seqNo) && item.payload == payload
    {
      item := new Item(priority, Tie(seqNo), payload);
      heap.Add(item);
    }

    method Insert(key: K, priority: int, value: V)
      requires Valid() && key !in byKey
      modifies this, heap, heap.own
      ensures Valid() && fresh(heap.own - old(heap.own))
      ensures table == old(table).Upsert(key, priority, value)
    {
      UpsertNumbered(table, key, priority, value);
      table := table.Upsert(key, priority, value);
      var seqNo := next;
      next := next + 1;
      var item := PushNew(priority, seqNo, Payload(key, value));
      SetIndex(byKey[key := item]);
      InsertKeepsIndex(key, item);
    }

    twostate lemma InsertKeepsIndex(key: K, new item: Item<Payload<K, V>>)
      requires old(Bijective() && Represents() && key !in byKey)
      requires heap.own == old(heap.own) + {item} && byKey == old(byKey)[key := item]
      requires next == old(next) + 1
      requires forall e :: e in old(heap.own) ==> unchanged(e`at) && unchanged(e`payload)
      requires item !in old(heap.own) && item.payload.key == key && item.tie == Tie(old(next))
      requires table == old(table).Upsert(key, item.at, item.payload.value)
      ensures Bijective() && Represents()
    {
    }

    method Remove(key: K) returns (found: bool)
      requires Valid()
      modifies this, heap, heap.own
      ensures Valid() && heap.own <= old(heap.own)
      ensures found == (key in old(table).slots)
      ensures table == old(table).Remove(key) && table.slots == old(table).slots - {key}
    {
      table := table.Remove(key);
      found := key in byKey;
      if found {
        heap.Delete(byKey[key]);
        SetIndex(byKey - {key});
        RemoveKeepsIndex(key);
      }
    }

    twostate lemma RemoveKeepsIndex(key: K)
      requires old(Bijective() && Represents() && key in byKey)
      requires heap.own == old(heap.own) - {old(byKey)[key]} && byKey == old(byKey) - {key}
      requires next == old(next) && table == old(table).Remove(key)
      requires forall e :: e in heap.own ==> unchanged(e`at) && unchanged(e`payload)
      ensures Bijective() && Represents()
    {
    }

    method Do(op: Op<K, V>)
      requires Valid()
      modifies this, heap, heap.own
      ensures Valid() && fresh(heap.own - old(heap.own))
      ensures table == old(table).Apply(op)
    {
      match op
      case Put(k, p, v) => Upsert(k, p, v);
      case Drop(k) => var _ := Remove(k);
    }

    /** Applying any operations, in order, is applying them to the map. */
    method Run(ops: seq<Op<K, V>>)
      requires Valid()
      modifies this, heap, heap.own
      ensures Valid() && fresh(heap.own - old(heap.own))
      ensures table == ApplyAll(old(table), ops)
    {
      for n := 0 to |ops|
        invariant Valid() && fresh(heap.own - old(heap.own))
        invariant table == ApplyAll(old(table), ops[..n])
      {
        Do(ops[n]);
        assert ops[..n + 1][..n] == ops[..n];
      }
      assert ops[..|ops|] == ops;
    }
  
    method Get(key: K) returns (value: Option<V>)
      requires Valid()
      ensures value == if key in table.slots then Some(table.slots[key].value) else None
    {
      if key in byKey {
        value := Some(byKey[key].payload.value);
      } else {
        value := None;
      }
    }

    /** The entry with the least (priority, counter), if there is one. */
    method Peek() returns (head: Option<(K, int, V)>)
      requires Valid()
      ensures head.None? <==> table.slots == map[]
      ensures head.Some? ==>
                var (k, priority, value) := head.value;
                && k in table.slots
                && priority == table.slots[k].priority && value == table.slots[k].value
                && forall l :: l in table.slots ==> AtMost(table.slots[k].Key(), table.slots[l].Key())
    {
      if heap.items == [] {
        return None;
      }
      var item := heap.items[0];
      assert item in heap.own;
      forall l | l in table.slots
        ensures AtMost(item.Key(), table.slots[l].Key())
      {
        heap.HeadIsLeast(byKey[l]);
      }
      head := Some((item.payload.key, item.at, item.payload.value));
    }

    /** The values due by `t`, in (priority, counter) order. */
    method ValuesAtOrBefore(t: int) returns (out: seq<V>)
      requires Valid()
      ensures exists order :: DueOrder(table, t, order) && ValuesOf(table, order, out)
    {
      var due := heap.DueEntries(t);
      var sorted := SortByRank(due);
      SameMembers(due, sorted);
      out := [];
      ghost var order := [];
      for n := 0 to |sorted|
        invariant |out| == |order| == n
        invariant forall i :: 0 <= i < n ==> order[i] == sorted[i].payload.key && out[i] == sorted[i].payload.value
      {
        out := out + [sorted[n].payload.value];
        order := order + [sorted[n].payload.key];
      }
      OrderIsDue(t, sorted, order);
      assert ValuesOf(table, order, out);
    }

    lemma OrderIsDue(t: int, sorted: seq<Item<Payload<K, V>>>, order: seq<K>)
      requires Valid() && Distinct(sorted) && Ascending(sorted) && |order| == |sorted|
      requires forall e :: e in sorted <==> e in heap.own && e.at <= t
      requires forall i :: 0 <= i < |order| ==> order[i] == sorted[i].payload.key
      ensures DueOrder(table, t, order)
    {
      forall k | k in table.slots && table.slots[k].priority <= t
        ensures k in order
      {
        var i :| 0 <= i < |sorted| && sorted[i] == byKey[k];
        assert order[i] == k;
      }
      forall i, j | 0 <= i < j < |order|
        ensures Less(table.slots[order[i]].Key(), table.slots[order[j]].Key())
      {
        assert sorted[i] in sorted && sorted[j] in sorted;
        assert table.slots[order[i]].seqNo != table.slots[order[j]].seqNo;
        LessTotal(sorted[i].Key(), sorted[j].Key());
      }
    }
  }

  ghost predicate ValuesOf<K, V>(table: Table<K, V>, order: seq<K>, values: seq<V>) {
    && |values| == |order|
    && forall i :: 0 <= i < |order| ==> order[i] in table.slots && values[i] == table.slots[order[i]].value
  }

  /** `order` lists every key due by `t` once, strictly by (priority, counter). */
  ghost predicate DueOrder<K, V>(table: Table<K, V>, t: int, order: seq<K>) {
    && (forall k :: k in order ==> k in table.slots && table.slots[k].priority <= t)
    && (forall k :: k in table.slots && table.slots[k].priority <= t ==> k in order)
    && (forall i, j :: 0 <= i < j < |order| ==> Less(table.slots[order[i]].Key(), table.slots[order[j]].Key()))
  }
}
