/** internal/broker/client/incoming_rate_limiter.go: a fixed-window counter.

    Times are instants on one axis; ZERO is the instant Go calls the zero time, which the
    limiter also uses to mean that no window has started. */
module RateLimiter {

  const ZERO: int := 0

  class Limiter {
    const limit: nat
    const window: nat
    var windowStart: int
    var count: nat
    ghost var calls: seq<int>          // times of the calls so far
    ghost var admitted: seq<int>       // times of the admitted ones

    ghost predicate Valid() reads this {
      && 0 < limit && 0 < window && count <= limit
      && Answers(limit, window, calls).windowStart == windowStart
      && Answers(limit, window, calls).count == count
      && Answers(limit, window, calls).admitted == admitted
    }

    constructor (limit: nat, window: nat)
      requires 0 < limit && 0 < window
      ensures Valid() && calls == [] && this.limit == limit && this.window == window
    {
      this.limit, this.window := limit, window;
      windowStart, count, calls, admitted := ZERO, 0, [], [];
    }

    method Allow(now: int) returns (ok: bool)
      requires Valid()
      modifies this
      ensures Valid() && calls == old(calls) + [now]
      ensures admitted == if ok then old(admitted) + [now] else old(admitted)
    {
      if windowStart == ZERO || now - windowStart >= window {
        windowStart := now;
        count := 0;
      }
      calls := calls + [now];
      assert calls[..|calls| - 1] == old(calls);
      if count >= limit {
        return false;
      }
      count := count + 1;
      admitted := admitted + [now];
      return true;
    }
  }

  datatype State = State(windowStart: int, count: nat, admitted: seq<int>)

  function Admitted(s: State, now: int): State {
    s.(count := s.count + 1, admitted := s.admitted + [now])
  }

  /** What one call makes of a state. */
  function Called(s: State, limit: nat, window: nat, now: int): State {
    var t := if s.windowStart == ZERO || now - s.windowStart >= window then s.(windowStart := now, count := 0) else s;
    if t.count >= limit then t else Admitted(t, now)
  }

  /** The limiter's state after a sequence of calls. */
  function Answers(limit: nat, window: nat, calls: seq<int>): (s: State) {
    if calls == [] then State(ZERO, 0, [])
    else
      var now := calls[|calls| - 1];
      Called(Answers(limit, window, calls[..|calls| - 1]), limit, window, now)
  }

  ghost predicate Ascending(q: seq<int>) {
    forall i, j :: 0 <= i < j < |q| ==> q[i] <= q[j]
  }

  /** How many elements of `q` lie in the half-open interval from `lo` of length `len`. */
  function Inside(q: seq<int>, lo: int, len: nat): nat {
    if q == [] then 0
    else Inside(q[..|q| - 1], lo, len) + if lo <= q[|q| - 1] < lo + len then 1 else 0
  }

  lemma {:induction false} InsideSum(a: seq<int>, b: seq<int>, lo: int, len: nat)
    ensures Inside(a + b, lo, len) == Inside(a, lo, len) + Inside(b, lo, len)
    decreases |b|
  {
    if b == [] {
      assert a + b == a;
    } else {
      var n := |b| - 1;
      assert (a + b)[..|a + b| - 1] == a + b[..n];
      InsideSum(a, b[..n], lo, len);
    }
  }

  lemma {:induction false} InsideAtMost(q: seq<int>, lo: int, len: nat)
    ensures Inside(q, lo, len) <= |q|
    ensures (forall i :: 0 <= i < |q| ==> q[i] < lo) ==> Inside(q, lo, len) == 0
    decreases |q|
  {
    if q != [] {
      InsideAtMost(q[..|q| - 1], lo, len);
    }
  }

  // Admitted before the current window, and in it.
  ghost function Earlier(s: State): seq<int>
    requires s.count <= |s.admitted|
  {
    s.admitted[..|s.admitted| - s.count]
  }

  ghost function Current(s: State): seq<int>
    requires s.count <= |s.admitted|
  {
    s.admitted[|s.admitted| - s.count..]
  }

  /** The current window holds the last `count` admissions, at most `limit`. */
  ghost predicate Shaped(s: State, limit: nat, calls: seq<int>) {
    && s.count <= limit && s.count <= |s.admitted|
    && (forall i :: 0 <= i < |Earlier(s)| ==> Earlier(s)[i] <= s.windowStart)
    && (forall i :: 0 <= i < |Current(s)| ==> Current(s)[i] >= s.windowStart)
    && (calls == [] ==> s == State(ZERO, 0, []))
    && (calls != [] ==> s.windowStart <= calls[|calls| - 1]
                        && forall i :: 0 <= i < |s.admitted| ==> s.admitted[i] <= calls[|calls| - 1])
  }

  ghost predicate Excludes(lo: int, window: nat) {
    !(lo <= ZERO < lo + window)
  }

  /** An interval that reaches into the current window holds few earlier admissions. */
  ghost predicate Within(s: State, limit: nat, window: nat, lo: int)
    requires s.count <= |s.admitted|
  {
    && (s.windowStart < lo + window ==> Inside(Earlier(s), lo, window) <= limit)
    && Inside(s.admitted, lo, window) <= 2 * limit
  }

  lemma Reaches(s: State, limit: nat, window: nat, calls: seq<int>, now: int, lo: int)
    requires Shaped(s, limit, calls) && Excludes(lo, window)
    requires calls != [] ==> calls[|calls| - 1] <= now
    requires s.windowStart == ZERO || now - s.windowStart >= window
    requires now < lo + window
    ensures Inside(s.admitted, lo, window) <= limit
  {
    assert s.admitted == Earlier(s) + Current(s);
    InsideSum(Earlier(s), Current(s), lo, window);
    InsideAtMost(Current(s), lo, window);
    InsideAtMost(Earlier(s), lo, window);
  }

  /** `now` opens a new window. */
  lemma OpenWindow(s: State, limit: nat, window: nat, calls: seq<int>, now: int, lo: int)
    requires Shaped(s, limit, calls) && Within(s, limit, window, lo) && Excludes(lo, window)
    requires calls != [] ==> calls[|calls| - 1] <= now
    requires s.windowStart == ZERO || now - s.windowStart >= window
    ensures var t := s.(windowStart := now, count := 0);
            Shaped(t, limit, calls + [now]) && Within(t, limit, window, lo)
  {
    var t := s.(windowStart := now, count := 0);
    assert Earlier(t) == s.admitted;
    if now < lo + window {
      Reaches(s, limit, window, calls, now, lo);
    }
  }

  lemma AdmitSplits(s: State, now: int)
    requires s.count <= |s.admitted|
    ensures Earlier(Admitted(s, now)) == Earlier(s) && Current(Admitted(s, now)) == Current(s) + [now]
  {
  }

  lemma AdmitShaped(s: State, limit: nat, calls: seq<int>, now: int)
    requires Shaped(s, limit, calls) && s.count < limit && calls != [] && calls[|calls| - 1] == now
    ensures Shaped(Admitted(s, now), limit, calls)
  {
    AdmitSplits(s, now);
    var t := Admitted(s, now);
    forall i | 0 <= i < |Current(t)| ensures Current(t)[i] >= t.windowStart {
      if i < |Current(s)| {
        assert Current(s)[i] >= s.windowStart;
      }
    }
  }

  /** `now` is admitted in the current window. */
  lemma AdmitWithin(s: State, limit: nat, window: nat, now: int, lo: int)
    requires s.count <= |s.admitted| && Within(s, limit, window, lo) && s.count < limit && s.windowStart <= now
    ensures Within(Admitted(s, now), limit, window, lo)
  {
    AdmitSplits(s, now);
    var t := Admitted(s, now);
    if lo <= now < lo + window {
      assert t.admitted == Earlier(t) + Current(t);
      InsideSum(Earlier(t), Current(t), lo, window);
      InsideAtMost(Current(t), lo, window);
    } else {
      InsideSum(s.admitted, [now], lo, window);
      assert Inside([now], lo, window) == 0;
    }
  }

  lemma Later(s: State, limit: nat, calls: seq<int>, now: int)
    requires Shaped(s, limit, calls) && calls != [] && calls[|calls| - 1] <= now
    ensures Shaped(s, limit, calls + [now])
  {
  }

  lemma CallKeeps(s: State, limit: nat, window: nat, before: seq<int>, now: int, lo: int)
    requires Shaped(s, limit, before) && Within(s, limit, window, lo) && Excludes(lo, window)
    requires 0 < limit && 0 < window && (before != [] ==> before[|before| - 1] <= now)
    ensures Shaped(Called(s, limit, window, now), limit, before + [now])
    ensures Within(Called(s, limit, window, now), limit, window, lo)
  {
    var t := s;
    if s.windowStart == ZERO || now - s.windowStart >= window {
      t := s.(windowStart := now, count := 0);
      OpenWindow(s, limit, window, before, now, lo);
    } else {
      Later(s, limit, before, now);
    }
    if t.count < limit {
      AdmitShaped(t, limit, before + [now], now);
      AdmitWithin(t, limit, window, now, lo);
    }
  }

  lemma {:induction false} EveryCall(limit: nat, window: nat, calls: seq<int>, lo: int)
    requires 0 < limit && 0 < window && Ascending(calls) && Excludes(lo, window)
    ensures Shaped(Answers(limit, window, calls), limit, calls)
    ensures Within(Answers(limit, window, calls), limit, window, lo)
    decreases |calls|
  {
    if calls != [] {
      var n := |calls| - 1;
      var now, before := calls[n], calls[..n];
      assert calls == before + [now];
      EveryCall(limit, window, before, lo);
      CallKeeps(Answers(limit, window, before), limit, window, before, now, lo);
      NextAnswer(limit, window, before, now);
    }
  }

  lemma NextAnswer(limit: nat, window: nat, before: seq<int>, now: int)
    ensures Answers(limit, window, before + [now]) == Called(Answers(limit, window, before), limit, window, now)
  {
    var calls := before + [now];
    assert calls[..|calls| - 1] == before;
  }

  /** `n` calls at the zero instant. */
  function AtZero(n: nat): seq<int> {
    seq(n, _ => ZERO)
  }

  lemma {:induction false} ZeroAdmitsAll(limit: nat, window: nat, n: nat)
    requires 0 < limit && 0 < window
    ensures Answers(limit, window, AtZero(n)).windowStart == ZERO
    ensures Answers(limit, window, AtZero(n)).admitted == AtZero(n)
    decreases n
  {
    if n > 0 {
      ZeroAdmitsAll(limit, window, n - 1);
      assert AtZero(n)[..n - 1] == AtZero(n - 1);
      assert AtZero(n) == AtZero(n - 1) + [ZERO];
    }
  }

  lemma {:induction false} ZeroInside(n: nat, lo: int, len: nat)
    requires lo <= ZERO < lo + len
    ensures Inside(AtZero(n), lo, len) == n
    decreases n
  {
    if n > 0 {
      ZeroInside(n - 1, lo, len);
      assert AtZero(n)[..n - 1] == AtZero(n - 1);
    }
  }

  // ---- main results ----

  ghost predicate AtMostTwice(limit: nat, window: nat, calls: seq<int>, lo: int) {
    Inside(Answers(limit, window, calls).admitted, lo, window) <= 2 * limit
  }

  lemma Bounded(limit: nat, window: nat, calls: seq<int>, lo: int)
    requires 0 < limit && 0 < window && Ascending(calls) && Excludes(lo, window)
    ensures AtMostTwice(limit, window, calls, lo)
  {
    EveryCall(limit, window, calls, lo);
  }

  lemma ZeroExceeds(limit: nat, window: nat, lo: int) returns (calls: seq<int>)
    requires 0 < limit && 0 < window && lo <= ZERO < lo + window
    ensures Ascending(calls) && !AtMostTwice(limit, window, calls, lo)
  {
    calls := AtZero(2 * limit + 1);
    ZeroAdmitsAll(limit, window, 2 * limit + 1);
    ZeroInside(2 * limit + 1, lo, window);
  }

  /** An interval as long as the window never admits more than twice the limit, whatever the
      nondecreasing call times, exactly when it does not contain the zero instant. */
  lemma TwiceTheLimit(limit: nat, window: nat, lo: int)
    requires 0 < limit && 0 < window
    ensures (forall calls :: Ascending(calls) ==> AtMostTwice(limit, window, calls, lo))
            <==> !(lo <= ZERO < lo + window)
  {
    if lo <= ZERO < lo + window {
      var calls := ZeroExceeds(limit, window, lo);
    } else {
      forall calls | Ascending(calls) ensures AtMostTwice(limit, window, calls, lo) {
        Bounded(limit, window, calls, lo);
      }
    }
  }

  lemma {:induction false} InsideAll(q: seq<int>, lo: int, len: nat)
    requires forall i :: 0 <= i < |q| ==> lo <= q[i] < lo + len
    ensures Inside(q, lo, len) == |q|
    decreases |q|
  {
    if q != [] {
      InsideAll(q[..|q| - 1], lo, len);
    }
  }

  lemma CurrentIsInside(s: State, limit: nat, window: nat, calls: seq<int>, now: int)
    requires Shaped(s, limit, calls) && calls != [] && calls[|calls| - 1] <= now && now - s.windowStart < window
    ensures Inside(s.admitted, now - window + 1, window) >= s.count
  {
    assert s.admitted == Earlier(s) + Current(s);
    forall i | 0 <= i < |Current(s)| ensures now - window < Current(s)[i] <= now {
      assert Current(s)[i] == s.admitted[|s.admitted| - s.count + i];
    }
    InsideSum(Earlier(s), Current(s), now - window + 1, window);
    InsideAll(Current(s), now - window + 1, window);
  }

  /** A call is refused only when `limit` calls were admitted within one window length up to it. */
  lemma RefusedOnlyWhenFull(limit: nat, window: nat, calls: seq<int>, now: int)
    requires 0 < limit && 0 < window && Ascending(calls) && (calls != [] ==> calls[|calls| - 1] <= now)
    requires Answers(limit, window, calls + [now]).admitted == Answers(limit, window, calls).admitted
    ensures Inside(Answers(limit, window, calls).admitted, now - window + 1, window) >= limit
  {
    var s := Answers(limit, window, calls);
    EveryCall(limit, window, calls, ZERO + 1);
    NextAnswer(limit, window, calls, now);
    if calls != [] {
      CurrentIsInside(s, limit, window, calls, now);
    }
  }

  /** Each window admits at most `limit` calls: at any moment the calls admitted since the
      window opened number `count`, all lie between its opening and the last call, and unless
      it opened at the zero instant the last call is within the window's length. */
  lemma WindowAdmitsLimit(limit: nat, window: nat, calls: seq<int>)
    requires 0 < limit && 0 < window && Ascending(calls) && calls != []
    ensures var s := Answers(limit, window, calls);
            && s.count <= |s.admitted| && |Current(s)| == s.count <= limit
            && (forall i :: 0 <= i < |Current(s)| ==> s.windowStart <= Current(s)[i] <= calls[|calls| - 1])
            && (forall i :: 0 <= i < |Earlier(s)| ==> Earlier(s)[i] <= s.windowStart)
            && (s.windowStart != ZERO ==> calls[|calls| - 1] < s.windowStart + window)
  {
    EveryCall(limit, window, calls, ZERO + 1);
    var n := |calls| - 1;
    assert calls == calls[..n] + [calls[n]];
    NextAnswer(limit, window, calls[..n], calls[n]);
    var s := Answers(limit, window, calls);
    forall i | 0 <= i < |Current(s)| ensures Current(s)[i] <= calls[n] {
      assert Current(s)[i] == s.admitted[|s.admitted| - s.count + i];
    }
  }
}
