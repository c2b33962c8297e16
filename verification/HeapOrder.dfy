/** The binary-heap algorithms of Go's container/heap, on sequences of ranks.

    Both indexed heaps of the broker order their entries by a time and a tie
    break: the indexed queue by its insertion counter, the passive scheduler by
    the bytes of the task key. A rank holds both; a counter is a one-element tie. */
module HeapOrder {
  import opened Sequences

  datatype Rank = Rank(at: int, tie: seq<nat>)

  // Byte-wise string order: a proper prefix comes first.
  predicate TieLess(a: seq<nat>, b: seq<nat>)
    decreases |a|
  {
    if b == [] then false
    else if a == [] then true
    else a[0] < b[0] || (a[0] == b[0] && TieLess(a[1..], b[1..]))
  }

  predicate Less(a: Rank, b: Rank) {
    if a.at == b.at then TieLess(a.tie, b.tie) else a.at < b.at
  }

  predicate AtMost(a: Rank, b: Rank) {
    !Less(b, a)
  }

  lemma {:induction false} TieTotal(a: seq<nat>, b: seq<nat>)
    ensures TieLess(a, b) || TieLess(b, a) || a == b
    ensures !(TieLess(a, b) && TieLess(b, a))
    decreases |a|
  {
    if a != [] && b != [] && a[0] == b[0] {
      TieTotal(a[1..], b[1..]);
      assert a == [a[0]] + a[1..] && b == [b[0]] + b[1..];
    }
  }

  lemma {:induction false} TieTransitive(a: seq<nat>, b: seq<nat>, c: seq<nat>)
    requires TieLess(a, b) && TieLess(b, c)
    ensures TieLess(a, c)
    decreases |a|
  {
    if a != [] && a[0] == b[0] && b[0] == c[0] {
      TieTransitive(a[1..], b[1..], c[1..]);
    }
  }

  lemma LessTotal(a: Rank, b: Rank)
    ensures Less(a, b) || Less(b, a) || a == b
    ensures !(Less(a, b) && Less(b, a))
  {
    TieTotal(a.tie, b.tie);
  }

  lemma LessTransitive(a: Rank, b: Rank, c: Rank)
    requires Less(a, b) && Less(b, c)
    ensures Less(a, c)
  {
    if a.at == b.at && b.at == c.at {
      TieTransitive(a.tie, b.tie, c.tie);
    }
  }

  lemma AtMostTransitive(a: Rank, b: Rank, c: Rank)
    requires AtMost(a, b) && AtMost(b, c)
    ensures AtMost(a, c)
  {
    LessTotal(a, b);
    LessTotal(b, c);
    LessTotal(a, c);
    if Less(a, b) && Less(b, c) {
      LessTransitive(a, b, c);
    }
  }

  lemma LessIsAtMost(a: Rank, b: Rank)
    requires Less(a, b)
    ensures AtMost(a, b)
  {
    LessTotal(a, b);
  }

  function Parent(k: int): (p: int)
    requires 1 <= k
    ensures 0 <= p < k
  {
    (k - 1) / 2
  }

  /** Every element of h[..n] is at least its parent. */
  predicate IsHeap(h: seq<Rank>, n: nat)
    requires n <= |h|
  {
    forall k :: 1 <= k < n ==> AtMost(h[Parent(k)], h[k])
  }

  function Swapped<T>(h: seq<T>, i: nat, j: nat): (r: seq<T>)
    requires i < |h| && j < |h|
    ensures |r| == |h|
  {
    h[i := h[j]][j := h[i]]
  }

  /** heap.up: move h[j] towards the root while it is less than its parent. */
  function Up(h: seq<Rank>, j: nat): (r: seq<Rank>)
    requires j < |h|
    ensures |r| == |h|
    decreases j
  {
    if j == 0 || !Less(h[j], h[Parent(j)]) then h
    else Up(Swapped(h, Parent(j), j), Parent(j))
  }

  /** The child that heap.down compares with: the smaller one, the left one on a tie. */
  function Child(h: seq<Rank>, i: nat, n: nat): (c: nat)
    requires n <= |h| && 2 * i + 1 < n
    ensures c < n && 1 <= c && Parent(c) == i && i < c
  {
    if 2 * i + 2 < n && Less(h[2 * i + 2], h[2 * i + 1]) then 2 * i + 2 else 2 * i + 1
  }

  predicate Sinks(h: seq<Rank>, i: nat, n: nat)
    requires i < n <= |h|
  {
    2 * i + 1 < n && Less(h[Child(h, i, n)], h[i])
  }

  /** heap.down on h[..n]: move h[i] towards the leaves while a child is less. */
  function Down(h: seq<Rank>, i: nat, n: nat): (r: seq<Rank>)
    requires i < n <= |h|
    ensures |r| == |h|
    decreases n - i
  {
    if !Sinks(h, i, n) then h
    else Down(Swapped(h, i, Child(h, i, n)), Child(h, i, n), n)
  }

  /** heap.Fix on h[..n]: down, and up only when down moved nothing. */
  function Fixed(h: seq<Rank>, i: nat, n: nat): (r: seq<Rank>)
    requires i < n <= |h|
    ensures |r| == |h|
  {
    if Sinks(h, i, n) then Down(h, i, n) else Up(h, i)
  }

  /** heap.Remove: the last element takes the place of element i. */
  function Removed(h: seq<Rank>, i: nat): (r: seq<Rank>)
    requires i < |h|
    ensures |r| == |h| - 1
  {
    var n := |h| - 1;
    if i == n then h[..n] else Fixed(Swapped(h, i, n), i, n)[..n]
  }

  // ---- heap order is restored ----

  /** Heap order holds except between j and its parent. */
  predicate HeapButUp(h: seq<Rank>, j: nat, n: nat)
    requires j < n <= |h|
  {
    && (forall k :: 1 <= k < n && k != j ==> AtMost(h[Parent(k)], h[k]))
    && (j > 0 ==> forall k :: 1 <= k < n && Parent(k) == j ==> AtMost(h[Parent(j)], h[k]))
  }

  /** Heap order holds except between i and its children. */
  predicate HeapButDown(h: seq<Rank>, i: nat, n: nat)
    requires i < n <= |h|
  {
    && (forall k :: 1 <= k < n && Parent(k) != i ==> AtMost(h[Parent(k)], h[k]))
    && (i > 0 ==> forall k :: 1 <= k < n && Parent(k) == i ==> AtMost(h[Parent(i)], h[k]))
  }

  lemma UpStep(h: seq<Rank>, j: nat, n: nat)
    requires 0 < j < n <= |h| && HeapButUp(h, j, n) && Less(h[j], h[Parent(j)])
    ensures HeapButUp(Swapped(h, Parent(j), j), Parent(j), n)
  {
    var p := Parent(j);
    var s := Swapped(h, p, j);
    LessIsAtMost(h[j], h[p]);
    forall k | 1 <= k < n && k != p
      ensures AtMost(s[Parent(k)], s[k])
    {
      if k != j && Parent(k) == p {
        AtMostTransitive(h[j], h[p], h[k]);
      }
    }
    if p > 0 {
      forall k | 1 <= k < n && Parent(k) == p
        ensures AtMost(s[Parent(p)], s[k])
      {
        if k != j {
          AtMostTransitive(h[Parent(p)], h[p], h[k]);
        }
      }
    }
  }

  lemma {:induction false} UpRestores(h: seq<Rank>, j: nat, n: nat)
    requires j < n <= |h| && HeapButUp(h, j, n)
    ensures IsHeap(Up(h, j), n)
    ensures forall k :: n <= k < |h| ==> Up(h, j)[k] == h[k]
    decreases j
  {
    if j > 0 && Less(h[j], h[Parent(j)]) {
      UpStep(h, j, n);
      UpRestores(Swapped(h, Parent(j), j), Parent(j), n);
    }
  }

  lemma ChildIsLeast(h: seq<Rank>, i: nat, n: nat, k: nat)
    requires n <= |h| && 2 * i + 1 < n && 1 <= k < n && Parent(k) == i
    ensures AtMost(h[Child(h, i, n)], h[k])
  {
    assert k == 2 * i + 1 || k == 2 * i + 2;
    LessTotal(h[Child(h, i, n)], h[k]);
  }

  lemma DownStep(h: seq<Rank>, i: nat, n: nat)
    requires i < n <= |h| && HeapButDown(h, i, n) && Sinks(h, i, n)
    ensures HeapButDown(Swapped(h, i, Child(h, i, n)), Child(h, i, n), n)
  {
    var c := Child(h, i, n);
    var s := Swapped(h, i, c);
    LessIsAtMost(h[c], h[i]);
    forall k | 1 <= k < n && Parent(k) != c
      ensures AtMost(s[Parent(k)], s[k])
    {
      if Parent(k) == i {
        ChildIsLeast(h, i, n, k);
      }
    }
    forall k | 1 <= k < n && Parent(k) == c
      ensures AtMost(s[Parent(c)], s[k])
    {
      assert k != i && k != c;
    }
  }

  lemma {:induction false} DownRestores(h: seq<Rank>, i: nat, n: nat)
    requires i < n <= |h| && HeapButDown(h, i, n)
    ensures IsHeap(Down(h, i, n), n)
    ensures forall k :: n <= k < |h| ==> Down(h, i, n)[k] == h[k]
    decreases n - i
  {
    if Sinks(h, i, n) {
      DownStep(h, i, n);
      DownRestores(Swapped(h, i, Child(h, i, n)), Child(h, i, n), n);
    } else {
      forall k | 1 <= k < n
        ensures AtMost(h[Parent(k)], h[k])
      {
        if Parent(k) == i {
          ChildIsLeast(h, i, n, k);
          AtMostTransitive(h[i], h[Child(h, i, n)], h[k]);
        }
      }
    }
  }

  // ---- no rank is lost or added ----

  lemma SwapPermutes(h: seq<Rank>, i: nat, j: nat)
    requires i < |h| && j < |h|
    ensures multiset(Swapped(h, i, j)) == multiset(h)
  {
  }

  lemma {:induction false} UpPermutes(h: seq<Rank>, j: nat)
    requires j < |h|
    ensures multiset(Up(h, j)) == multiset(h)
    decreases j
  {
    if j > 0 && Less(h[j], h[Parent(j)]) {
      SwapPermutes(h, Parent(j), j);
      UpPermutes(Swapped(h, Parent(j), j), Parent(j));
    }
  }

  lemma {:induction false} DownPermutes(h: seq<Rank>, i: nat, n: nat)
    requires i < n <= |h|
    ensures multiset(Down(h, i, n)) == multiset(h)
    decreases n - i
  {
    if Sinks(h, i, n) {
      SwapPermutes(h, i, Child(h, i, n));
      DownPermutes(Swapped(h, i, Child(h, i, n)), Child(h, i, n), n);
    }
  }

  lemma FixPermutes(h: seq<Rank>, i: nat, n: nat)
    requires i < n <= |h|
    ensures multiset(Fixed(h, i, n)) == multiset(h)
  {
    UpPermutes(h, i);
    DownPermutes(h, i, n);
  }

  lemma {:induction false} UpKeepsTail(h: seq<Rank>, j: nat, k: nat)
    requires j < k < |h|
    ensures Up(h, j)[k] == h[k]
    decreases j
  {
    if j > 0 && Less(h[j], h[Parent(j)]) {
      UpKeepsTail(Swapped(h, Parent(j), j), Parent(j), k);
    }
  }

  lemma {:induction false} DownKeepsTail(h: seq<Rank>, i: nat, n: nat, k: nat)
    requires i < n <= k < |h|
    ensures Down(h, i, n)[k] == h[k]
    decreases n - i
  {
    if Sinks(h, i, n) {
      DownKeepsTail(Swapped(h, i, Child(h, i, n)), Child(h, i, n), n, k);
    }
  }

  lemma FixKeepsTail(h: seq<Rank>, i: nat, n: nat, k: nat)
    requires i < n <= k < |h|
    ensures Fixed(h, i, n)[k] == h[k]
  {
    UpKeepsTail(h, i, k);
    DownKeepsTail(h, i, n, k);
  }

  lemma DropLast(h: seq<Rank>)
    requires h != []
    ensures multiset(h[..|h| - 1]) == multiset(h) - multiset{h[|h| - 1]}
  {
    assert h == h[..|h| - 1] + [h[|h| - 1]];
  }

  lemma FixIsHeap(h: seq<Rank>, i: nat, r: Rank, n: nat)
    requires i < n <= |h| && IsHeap(h, n)
    ensures IsHeap(Fixed(h[i := r], i, n), n)
    ensures forall k :: n <= k < |h| ==> Fixed(h[i := r], i, n)[k] == h[k]
  {
    var g := h[i := r];
    if i > 0 {
      forall k | 1 <= k < n && Parent(k) == i
        ensures AtMost(g[Parent(i)], g[k])
      {
        AtMostTransitive(h[Parent(i)], h[i], h[k]);
      }
    }
    if Sinks(g, i, n) {
      var c := Child(g, i, n);
      LessIsAtMost(g[c], g[i]);
      if i > 0 {
        AtMostTransitive(g[Parent(i)], g[c], g[i]);
      }
      DownRestores(g, i, n);
    } else {
      forall k | 1 <= k < n && k != i
        ensures AtMost(g[Parent(k)], g[k])
      {
        if Parent(k) == i {
          ChildIsLeast(g, i, n, k);
          AtMostTransitive(g[i], g[Child(g, i, n)], g[k]);
        }
      }
      UpRestores(g, i, n);
    }
  }

  /** Replacing one element of a heap and fixing it gives a heap of the other elements and the
      new one. */
  lemma FixRestores(h: seq<Rank>, i: nat, r: Rank, n: nat)
    requires i < n <= |h| && IsHeap(h, n)
    ensures IsHeap(Fixed(h[i := r], i, n), n)
    ensures forall k :: n <= k < |h| ==> Fixed(h[i := r], i, n)[k] == h[k]
    ensures multiset(Fixed(h[i := r], i, n)) == multiset(h) - multiset{h[i]} + multiset{r}
  {
    FixIsHeap(h, i, r, n);
    FixPermutes(h[i := r], i, n);
  }

  lemma PushIsHeap(h: seq<Rank>, r: Rank)
    requires IsHeap(h, |h|)
    ensures IsHeap(Up(h + [r], |h|), |h| + 1)
  {
    UpRestores(h + [r], |h|, |h| + 1);
  }

  /** Pushing gives a heap of the old elements and the new one. */
  lemma PushRestores(h: seq<Rank>, r: Rank)
    requires IsHeap(h, |h|)
    ensures IsHeap(Up(h + [r], |h|), |h| + 1)
    ensures multiset(Up(h + [r], |h|)) == multiset(h) + multiset{r}
  {
    PushIsHeap(h, r);
    UpPermutes(h + [r], |h|);
  }

  lemma RemoveIsHeap(h: seq<Rank>, i: nat)
    requires i < |h| && IsHeap(h, |h|)
    ensures IsHeap(Removed(h, i), |h| - 1)
  {
    var n := |h| - 1;
    if i != n {
      FixIsHeap(h[n := h[i]], i, h[n], n);
      assert Swapped(h, i, n) == h[n := h[i]][i := h[n]];
    }
  }

  /** A permutation of `h` without its last element `x`. */
  lemma CutLast(h: seq<Rank>, f: seq<Rank>, x: Rank)
    requires multiset(f) == multiset(h) && f != [] && f[|f| - 1] == x
    ensures multiset(f[..|f| - 1]) == multiset(h) - multiset{x}
  {
    DropLast(f);
  }

  lemma FixedCut(h: seq<Rank>, i: nat)
    requires i < |h| - 1
    ensures var f := Fixed(Swapped(h, i, |h| - 1), i, |h| - 1); multiset(f) == multiset(h) && f[|h| - 1] == h[i]
  {
    var n := |h| - 1;
    SwapPermutes(h, i, n);
    FixPermutes(Swapped(h, i, n), i, n);
    FixKeepsTail(Swapped(h, i, n), i, n, n);
  }

  lemma RemovePermutes(h: seq<Rank>, i: nat)
    requires i < |h|
    ensures multiset(Removed(h, i)) == multiset(h) - multiset{h[i]}
  {
    var n := |h| - 1;
    if i == n {
      DropLast(h);
    } else {
      FixedCut(h, i);
      CutLast(h, Fixed(Swapped(h, i, n), i, n), h[i]);
    }
  }

  /** Removing gives a heap of exactly the other elements. */
  lemma RemoveRestores(h: seq<Rank>, i: nat)
    requires i < |h| && IsHeap(h, |h|)
    ensures IsHeap(Removed(h, i), |h| - 1)
    ensures multiset(Removed(h, i)) == multiset(h) - multiset{h[i]}
  {
    RemoveIsHeap(h, i);
    RemovePermutes(h, i);
  }

  // ---- what heap order means ----

  lemma {:induction false} RootIsLeast(h: seq<Rank>, k: nat)
    requires k < |h| && IsHeap(h, |h|)
    ensures AtMost(h[0], h[k])
    decreases k
  {
    if k == 0 {
      LessTotal(h[0], h[0]);
    } else {
      RootIsLeast(h, Parent(k));
      AtMostTransitive(h[0], h[Parent(k)], h[k]);
    }
  }

  /** k lies in the subtree rooted at i. */
  predicate InSubtree(i: nat, k: nat)
    decreases k
  {
    k == i || (k > i && InSubtree(i, Parent(k)))
  }

  lemma {:induction false} SubtreeOfRoot(k: nat)
    ensures InSubtree(0, k)
    decreases k
  {
    if k > 0 {
      SubtreeOfRoot(Parent(k));
    }
  }

  /** A subtree is its root and the two disjoint subtrees of the root's children. */
  lemma {:induction false} SubtreeSplits(i: nat, k: nat)
    ensures InSubtree(i, k) <==> k == i || InSubtree(2 * i + 1, k) || InSubtree(2 * i + 2, k)
    ensures !(InSubtree(2 * i + 1, k) && InSubtree(2 * i + 2, k))
    decreases k
  {
    if k > 0 {
      SubtreeSplits(i, Parent(k));
    }
  }

  /** Pruning is sound: below an element that is not due, nothing is due. */
  lemma {:induction false} NotDueBelow(h: seq<Rank>, i: nat, k: nat, t: int)
    requires i < |h| && k < |h| && IsHeap(h, |h|) && InSubtree(i, k) && h[i].at > t
    ensures h[k].at > t
    decreases k
  {
    if k != i {
      NotDueBelow(h, i, Parent(k), t);
      assert AtMost(h[Parent(k)], h[k]);
    }
  }

  /** collectAtOrBefore: the positions due by t under i, pruned at the first one that is not. */
  function DueFrom(h: seq<Rank>, i: nat, t: int): (due: seq<nat>)
    decreases |h| - i
  {
    if i >= |h| || h[i].at > t then []
    else [i] + DueFrom(h, 2 * i + 1, t) + DueFrom(h, 2 * i + 2, t)
  }

  lemma {:induction false} SubtreeIsBelow(i: nat, k: nat)
    requires InSubtree(i, k)
    ensures i <= k
  {
  }

  /** Pruning loses nothing: the walk finds exactly the due positions of the subtree. */
  lemma {:induction false} DueFromExact(h: seq<Rank>, i: nat, t: int, k: nat)
    requires IsHeap(h, |h|)
    ensures k in DueFrom(h, i, t) <==> k < |h| && InSubtree(i, k) && h[k].at <= t
    decreases |h| - i
  {
    if i < |h| && h[i].at <= t {
      DueFromExact(h, 2 * i + 1, t, k);
      DueFromExact(h, 2 * i + 2, t, k);
      SubtreeSplits(i, k);
    } else if i < |h| && k < |h| && InSubtree(i, k) {
      NotDueBelow(h, i, k, t);
    }
  }

  lemma {:induction false} DueFromDistinct(h: seq<Rank>, i: nat, t: int)
    requires IsHeap(h, |h|)
    ensures Distinct(DueFrom(h, i, t))
    decreases |h| - i
  {
    if i < |h| && h[i].at <= t {
      var left, right := DueFrom(h, 2 * i + 1, t), DueFrom(h, 2 * i + 2, t);
      DueFromDistinct(h, 2 * i + 1, t);
      DueFromDistinct(h, 2 * i + 2, t);
      forall k | k in left
        ensures k != i && k !in right
      {
        DueFromExact(h, 2 * i + 1, t, k);
        DueFromExact(h, 2 * i + 2, t, k);
        SubtreeSplits(i, k);
      }
      DueFromExact(h, 2 * i + 2, t, i);
      JoinDistinct([i], left);
      JoinDistinct([i] + left, right);
    }
  }
}
