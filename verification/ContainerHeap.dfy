/** Go's container/heap over a slice of entry objects that each know their own
    position. The slice is a value that the methods take and give back; the
    entries are shared objects whose `index` field is updated in place. */
module ContainerHeap {
  import opened HeapOrder
  import opened Sequences

  class Item<P> {
    var at: int
    const tie: seq<nat>
    var payload: P
    var index: int

    constructor (at: int, tie: seq<nat>, payload: P)
      ensures this.at == at && this.tie == tie && this.payload == payload
    {
      this.at, this.tie, this.payload, this.index := at, tie, payload, 0;
    }

    function Key(): Rank
      reads this
    {
      Rank(at, tie)
    }
  }

  ghost function Ranks<P>(items: seq<Item<P>>): (r: seq<Rank>)
    reads items
    ensures |r| == |items|
    ensures forall i {:trigger r[i]} :: 0 <= i < |items| ==> r[i] == items[i].Key()
  {
    seq(|items|, i requires 0 <= i < |items| reads items => items[i].Key())
  }

  /** `items` lists exactly the entries in `own`, each at the position it records. */
  ghost predicate Linked<P>(items: seq<Item<P>>, own: set<Item<P>>)
    reads own
  {
    && (forall i :: 0 <= i < |items| ==> items[i] in own && items[i].index == i)
    && (forall e :: e in own ==> 0 <= e.index < |items| && items[e.index] == e)
  }

  /** priorityHeap.Swap and taskHeap.Swap. */
  method Swap<P>(items: seq<Item<P>>, i: nat, j: nat, ghost own: set<Item<P>>) returns (out: seq<Item<P>>)
    requires i < |items| && j < |items| && i != j && Linked(items, own)
    modifies own`index
    ensures out == Swapped(items, i, j)
    ensures Linked(out, own) && |out| == |items|
    ensures Ranks(out) == Swapped(old(Ranks(items)), i, j)
  {
    out := Swapped(items, i, j);
    out[i].index := i;
    out[j].index := j;
    assert Ranks(out) == Swapped(Ranks(items), i, j);
  }

  /** up: the loop behind heap.Push, heap.Fix and heap.Remove. */
  method SiftUp<P>(items: seq<Item<P>>, start: nat, ghost own: set<Item<P>>) returns (out: seq<Item<P>>)
    requires start < |items| && Linked(items, own)
    modifies own`index
    ensures Linked(out, own) && |out| == |items|
    ensures Ranks(out) == Up(old(Ranks(items)), start)
    ensures forall k :: start < k < |items| ==> out[k] == items[k]
  {
    out := items;
    var j := start;
    while true
      invariant 0 <= j <= start
      invariant Linked(out, own) && |out| == |items|
      invariant Up(Ranks(out), j) == Up(old(Ranks(items)), start)
      invariant forall k :: start < k < |items| ==> out[k] == items[k]
      decreases j
    {
      var i := if j == 0 then 0 else Parent(j);
      if i == j || !Less(out[j].Key(), out[i].Key()) {
        return;
      }
      out := Swap(out, i, j, own);
      j := i;
    }
  }

  /** One round of down: swap i with its least child when that child is less. */
  method SinkOnce<P>(items: seq<Item<P>>, i: nat, n: nat, ghost own: set<Item<P>>)
    returns (out: seq<Item<P>>, next: nat)
    requires i < n <= |items| && Linked(items, own)
    modifies own`index
    ensures Linked(out, own) && |out| == |items|
    ensures i <= next < n && (next > i <==> Sinks(old(Ranks(items)), i, n))
    ensures next == i ==> out == items
    ensures next > i ==> next == Child(old(Ranks(items)), i, n)
    ensures next > i ==> Ranks(out) == Swapped(old(Ranks(items)), i, next)
    ensures forall k :: n <= k < |items| ==> out[k] == items[k]
  {
    out, next := items, i;
    var left := 2 * i + 1;
    if left < n {
      var j := left;
      if left + 1 < n && Less(out[left + 1].Key(), out[left].Key()) {
        j := left + 1;
      }
      if Less(out[j].Key(), out[i].Key()) {
        out := Swap(out, i, j, own);
        next := j;
      }
    }
  }

  /** down on the first n elements; reports whether anything moved. */
  method SiftDown<P>(items: seq<Item<P>>, start: nat, n: nat, ghost own: set<Item<P>>)
    returns (out: seq<Item<P>>, moved: bool)
    requires start < n <= |items| && Linked(items, own)
    modifies own`index
    ensures Linked(out, own) && |out| == |items|
    ensures Ranks(out) == Down(old(Ranks(items)), start, n)
    ensures moved == Sinks(old(Ranks(items)), start, n)
    ensures forall k :: n <= k < |items| ==> out[k] == items[k]
  {
    var i;
    out, i := SinkOnce(items, start, n, own);
    moved := i > start;
    if !moved {
      return;
    }
    ghost var before := old(Ranks(items));
    while true
      invariant start < i < n
      invariant Linked(out, own) && |out| == |items|
      invariant Down(Ranks(out), i, n) == Down(before, start, n)
      invariant forall k :: n <= k < |items| ==> out[k] == items[k]
      decreases n - i
    {
      var next;
      out, next := SinkOnce(out, i, n, own);
      if next == i {
        return;
      }
      i := next;
    }
  }

  /** heap.Fix restricted to the first n elements. */
  method Fix<P>(items: seq<Item<P>>, i: nat, n: nat, ghost own: set<Item<P>>) returns (out: seq<Item<P>>)
    requires i < n <= |items| && Linked(items, own)
    modifies own`index
    ensures Linked(out, own) && |out| == |items|
    ensures Ranks(out) == Fixed(old(Ranks(items)), i, n)
    ensures forall k :: n <= k < |items| ==> out[k] == items[k]
  {
    var moved;
    out, moved := SiftDown(items, i, n, own);
    if !moved {
      out := SiftUp(out, i, own);
    }
  }

  /** heap.Push. */
  method Push<P>(items: seq<Item<P>>, x: Item<P>, ghost own: set<Item<P>>) returns (out: seq<Item<P>>)
    requires Linked(items, own) && x !in items
    modifies own`index, x`index
    ensures Linked(out, own + {x}) && |out| == |items| + 1
    ensures Ranks(out) == Up(old(Ranks(items)) + [old(x.Key())], |items|)
  {
    x.index := |items|;
    out := items + [x];
    assert Ranks(out) == old(Ranks(items)) + [old(x.Key())];
    out := SiftUp(out, |items|, own + {x});
  }

  /** Pop of priorityHeap and taskHeap: cut off the last entry. */
  method Pop<P>(items: seq<Item<P>>, ghost own: set<Item<P>>) returns (out: seq<Item<P>>)
    requires items != [] && Linked(items, own)
    modifies own`index
    ensures out == items[..|items| - 1] && Linked(out, own - {items[|items| - 1]})
    ensures Ranks(out) == old(Ranks(items))[..|items| - 1]
    ensures items[|items| - 1].index == -1
  {
    var n := |items| - 1;
    items[n].index := -1;
    out := items[..n];
  }

  /** heap.Remove: swap with the last element, fix the rest, pop. */
  method Remove<P>(items: seq<Item<P>>, i: nat, ghost own: set<Item<P>>) returns (out: seq<Item<P>>)
    requires i < |items| && Linked(items, own)
    modifies own`index
    ensures Linked(out, own - {items[i]}) && |out| == |items| - 1
    ensures Ranks(out) == Removed(old(Ranks(items)), i)
    ensures items[i].index == -1
  {
    var n := |items| - 1;
    out := items;
    if i != n {
      out := Swap(out, i, n, own);
      out := Fix(out, i, n, own);
    }
    assert out[n] == items[i];
    out := Pop(out, own);
  }

  /** priorityHeap and taskHeap: the slice with heap.Push, heap.Fix and heap.Remove
      applied to it. `own` is the set of entries it holds. */
  class PriorityHeap<P> {
    var items: seq<Item<P>>
    ghost var own: set<Item<P>>

    ghost predicate Valid()
      reads this, own
    {
      && Linked(items, own)
      && IsHeap(Ranks(items), |items|)
    }

    constructor ()
      ensures Valid() && own == {}
    {
      items, own := [], {};
    }

    method Add(x: Item<P>)
      requires Valid() && x !in own
      modifies this, own`index, x`index
      ensures Valid() && own == old(own) + {x}
    {
      PushIsHeap(Ranks(items), x.Key());
      items := Push(items, x, own);
      own := own + {x};
    }

    /** Replace the time and payload of one entry and restore the order around it. */
    method Replace(x: Item<P>, at: int, payload: P)
      requires Valid() && x in own
      modifies this, own`index, x`at, x`payload
      ensures Valid() && own == old(own) && x.at == at && x.payload == payload
    {
      var i := x.index;
      ghost var before := Ranks(items);
      x.at, x.payload := at, payload;
      assert Ranks(items) == before[i := x.Key()];
      FixIsHeap(before, i, x.Key(), |items|);
      items := Fix(items, i, |items|, own);
    }

    method Delete(x: Item<P>)
      requires Valid() && x in own
      modifies this, own`index
      ensures Valid() && own == old(own) - {x}
    {
      var i := x.index;
      RemoveIsHeap(Ranks(items), i);
      items := Remove(items, i, own);
      own := own - {x};
    }

    lemma HeadIsLeast(e: Item<P>)
      requires Valid() && e in own
      ensures items != [] && items[0] in own && AtMost(items[0].Key(), e.Key())
    {
      RootIsLeast(Ranks(items), e.index);
    }
  
    /** The entries due by `t` in the subtree at `i`: a recursive walk that stops at the
        first entry that is not due. */
    method CollectDue(i: nat, t: int) returns (due: seq<Item<P>>)
      requires Valid()
      ensures |due| == |DueFrom(Ranks(items), i, t)|
      ensures forall n :: 0 <= n < |due| ==>
                DueFrom(Ranks(items), i, t)[n] < |items| && due[n] == items[DueFrom(Ranks(items), i, t)[n]]
      decreases |items| - i
    {
      if i >= |items| || items[i].at > t {
        return [];
      }
      var left := CollectDue(2 * i + 1, t);
      var right := CollectDue(2 * i + 2, t);
      due := [items[i]] + left + right;
    }

    /** The whole walk returns exactly the entries due by `t`, each once. */
    method DueEntries(t: int) returns (due: seq<Item<P>>)
      requires Valid()
      ensures Distinct(due)
      ensures forall e :: e in due <==> e in own && e.at <= t
    {
      due := CollectDue(0, t);
      ghost var h, at := Ranks(items), DueFrom(Ranks(items), 0, t);
      DueFromDistinct(h, 0, t);
      forall n | 0 <= n < |due|
        ensures due[n] in own && due[n].at <= t && due[n].index == at[n]
      {
        DueFromExact(h, 0, t, at[n]);
      }
      forall e | e in own && e.at <= t
        ensures e in due
      {
        SubtreeOfRoot(e.index);
        DueFromExact(h, 0, t, e.index);
        var n :| 0 <= n < |at| && at[n] == e.index;
        assert due[n] == e;
      }
    }
  }

  /** Ascending by rank. */
  ghost predicate Ascending<P>(s: seq<Item<P>>)
    reads s
  {
    forall i, j :: 0 <= i < j < |s| ==> AtMost(s[i].Key(), s[j].Key())
  }

  /** sort.Slice by rank, as an insertion sort. */
  method SortByRank<P>(s: seq<Item<P>>) returns (out: seq<Item<P>>)
    ensures Ascending(out) && multiset(out) == multiset(s)
  {
    out := [];
    for n := 0 to |s|
      invariant Ascending(out) && multiset(out) == multiset(s[..n])
    {
      out := InsertByRank(out, s[n]);
      assert s[..n + 1] == s[..n] + [s[n]];
    }
    assert s[..|s|] == s;
  }

  method InsertByRank<P>(s: seq<Item<P>>, x: Item<P>) returns (out: seq<Item<P>>)
    requires Ascending(s)
    ensures Ascending(out) && multiset(out) == multiset(s) + multiset{x}
  {
    var n := |s|;
    while n > 0 && Less(x.Key(), s[n - 1].Key())
      invariant 0 <= n <= |s|
      invariant forall i :: n <= i < |s| ==> Less(x.Key(), s[i].Key())
    {
      n := n - 1;
    }
    out := s[..n] + [x] + s[n..];
    InsertAscends(s, x, n);
    assert s == s[..n] + s[n..];
  }

  lemma InsertAscends<P>(s: seq<Item<P>>, x: Item<P>, n: nat)
    requires n <= |s| && Ascending(s)
    requires n > 0 ==> AtMost(s[n - 1].Key(), x.Key())
    requires forall i :: n <= i < |s| ==> Less(x.Key(), s[i].Key())
    ensures Ascending(s[..n] + [x] + s[n..])
  {
    var out := s[..n] + [x] + s[n..];
    forall i, j | 0 <= i < j < |out|
      ensures AtMost(out[i].Key(), out[j].Key())
    {
      if i == n {
        LessIsAtMost(x.Key(), s[j - 1].Key());
      } else if j == n && i < n - 1 {
        AtMostTransitive(s[i].Key(), s[n - 1].Key(), x.Key());
      }
    }
  }
}
