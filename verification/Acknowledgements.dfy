/** client_handler_subscribe.go: the reason codes of SUBACK and UNSUBACK. Items that fail the
    checks are left out of the request to the backend, whose answers must then be put back in
    line with the original items. */
module Acknowledgements {

  type Byte = b: nat | b < 256

  const UNSPECIFIED: Byte := 0x80
  const FILTER_INVALID: Byte := 0x8F

  /** How many of the first `i` items were not rejected. */
  function Rank(rejected: seq<Byte>, i: nat): (r: nat)
    requires i <= |rejected|
    ensures r <= i
  {
    if i == 0 then 0 else Rank(rejected, i - 1) + if rejected[i - 1] == 0 then 1 else 0
  }

  /** No two items share an answer, and answers keep the order of the items. */
  lemma {:induction false} RankIncreases(rejected: seq<Byte>, i: nat, j: nat)
    requires i < j <= |rejected| && rejected[i] == 0
    ensures Rank(rejected, i) < Rank(rejected, j)
    decreases j
  {
    if i < j - 1 {
      RankIncreases(rejected, i, j - 1);
    }
  }

  /** The loops of precheckUnsubscribeTopics and buildFilteredSubscribe: item `i` of the
      request becomes item Rank(i) of what the backend is asked for. */
  method KeepAccepted<T>(items: seq<T>, rejected: seq<Byte>) returns (kept: seq<T>)
    requires |items| == |rejected|
    ensures |kept| == Rank(rejected, |rejected|)
    ensures forall i :: 0 <= i < |items| && rejected[i] == 0 ==>
              Rank(rejected, i) < |kept| && kept[Rank(rejected, i)] == items[i]
  {
    kept := [];
    for n := 0 to |items|
      invariant |kept| == Rank(rejected, n)
      invariant forall i :: 0 <= i < n && rejected[i] == 0 ==>
                  Rank(rejected, i) < |kept| && kept[Rank(rejected, i)] == items[i]
    {
      if rejected[n] == 0 {
        kept := kept + [items[n]];
      }
    }
  }

  function Capped(granted: int, maxQoS: nat): int {
    if granted >= 0 && granted > maxQoS then maxQoS else granted
  }

  /** Int32ToQoS. */
  function QoSCode(qos: int): Byte {
    if qos == 1 then 1 else if qos == 2 then 2 else 0
  }

  function SubReason(answer: int, maxQoS: nat): Byte {
    if answer < 0 then UNSPECIFIED else QoSCode(Capped(answer, maxQoS))
  }

  /** buildSubAckReasons. */
  method BuildSubAck<T>(items: seq<T>, rejected: seq<Byte>, granted: seq<int>, maxQoS: nat)
    returns (reasons: seq<Byte>, succeeded: seq<T>, levels: seq<int>, ghost picked: seq<nat>)
    requires |items| == |rejected|
    ensures |reasons| == |items|
    ensures forall i :: 0 <= i < |items| ==>
              reasons[i] == if rejected[i] != 0 then rejected[i]
                            else if Rank(rejected, i) >= |granted| then UNSPECIFIED
                            else SubReason(granted[Rank(rejected, i)], maxQoS)
    ensures |succeeded| == |levels|
    ensures forall k :: 0 <= k < |levels| ==> 0 <= levels[k] <= maxQoS
    ensures |picked| == |levels|
    ensures forall k :: 0 <= k < |levels| ==>
              && picked[k] < |items| && items[picked[k]] == succeeded[k] && Succeeds(rejected, granted, picked[k])
              && levels[k] == Least(granted[Rank(rejected, picked[k])], maxQoS)
    ensures forall x :: x in succeeded <==>
              exists i :: 0 <= i < |items| && items[i] == x && Succeeds(rejected, granted, i)
  {
    reasons, succeeded, levels, picked := [], [], [], [];
    var valid := 0;
    for n := 0 to |items|
      invariant |reasons| == n && |succeeded| == |levels|
      invariant valid == if Rank(rejected, n) <= |granted| then Rank(rejected, n) else |granted|
      invariant forall i :: 0 <= i < n ==>
                  reasons[i] == if rejected[i] != 0 then rejected[i]
                                else if Rank(rejected, i) >= |granted| then UNSPECIFIED
                                else SubReason(granted[Rank(rejected, i)], maxQoS)
      invariant forall k :: 0 <= k < |levels| ==> 0 <= levels[k] <= maxQoS
      invariant |picked| == |levels|
      invariant forall k :: 0 <= k < |picked| ==>
                  && picked[k] < n && items[picked[k]] == succeeded[k] && Succeeds(rejected, granted, picked[k])
                  && levels[k] == Least(granted[Rank(rejected, picked[k])], maxQoS)
      invariant forall x :: x in succeeded <==>
                  exists i :: 0 <= i < n && items[i] == x && Succeeds(rejected, granted, i)
    {
      if rejected[n] != 0 {
        reasons := reasons + [rejected[n]];
        continue;
      }
      if valid >= |granted| {
        reasons := reasons + [UNSPECIFIED];
        continue;
      }
      var ack := Capped(granted[valid], maxQoS);
      valid := valid + 1;
      if ack < 0 {
        reasons := reasons + [UNSPECIFIED];
        continue;
      }
      reasons := reasons + [QoSCode(ack)];
      succeeded, levels, picked := succeeded + [items[n]], levels + [ack], picked + [n];
    }
  }

  function Marks(invalid: seq<bool>): (rejected: seq<Byte>)
    ensures |rejected| == |invalid|
    ensures forall i :: 0 <= i < |invalid| ==> (rejected[i] == 0 <==> !invalid[i])
  {
    seq(|invalid|, i requires 0 <= i < |invalid| => if invalid[i] then FILTER_INVALID else 0)
  }

  /** precheckSubscribe and precheckUnsubscribeTopics mark the items with a malformed filter. */
  method MarkInvalid(invalid: seq<bool>) returns (rejected: seq<Byte>)
    ensures rejected == Marks(invalid)
  {
    rejected := [];
    for n := 0 to |invalid|
      invariant rejected == Marks(invalid[..n])
    {
      rejected := rejected + [if invalid[n] then FILTER_INVALID else 0];
    }
    assert invalid[..|invalid|] == invalid;
  }

  function Least(a: int, b: int): int {
    if a < b then a else b
  }

  ghost function AcceptedBefore(invalid: seq<bool>, i: nat): set<nat>
    requires i <= |invalid|
  {
    set k: nat | k < i && !invalid[k]
  }

  /** How many items before the i-th are sent on to the backend. */
  ghost function Accepted(invalid: seq<bool>, i: nat): nat
    requires i <= |invalid|
  {
    |AcceptedBefore(invalid, i)|
  }

  lemma {:induction false} RankCounts(invalid: seq<bool>, i: nat)
    requires i <= |invalid|
    ensures Rank(Marks(invalid), i) == Accepted(invalid, i)
    decreases i
  {
    if i == 0 {
      assert AcceptedBefore(invalid, 0) == {};
    } else {
      RankCounts(invalid, i - 1);
      if invalid[i - 1] {
        assert AcceptedBefore(invalid, i) == AcceptedBefore(invalid, i - 1);
      } else {
        assert AcceptedBefore(invalid, i) == AcceptedBefore(invalid, i - 1) + {i - 1};
      }
    }
  }

  /** The reason code of one subscription: malformed, refused or not answered, else the granted
      QoS, capped. */
  predicate SubAnswered(reason: nat, invalid: bool, answered: bool, answer: int, maxQoS: nat) {
    && (invalid ==> reason == 0x8F)
    && (!invalid && (answer < 0 || !answered) ==> reason == 0x80)
    && (!invalid && answer >= 0 && answered && (answer <= 2 || maxQoS <= 2) ==> reason == Least(answer, maxQoS))
  }

  /** The same for the end of a subscription; the backend answers with a reason code or -1. */
  predicate UnsubAnswered(reason: nat, invalid: bool, answered: bool, answer: int) {
    && (invalid ==> reason == 0x8F)
    && (!invalid && (answer == -1 || !answered) ==> reason == 0x80)
    && (!invalid && 0 <= answer < 256 && answered ==> reason == answer)
  }

  lemma ReasonsExact(answer: int, maxQoS: nat)
    ensures answer < 0 ==> SubReason(answer, maxQoS) == 0x80
    ensures answer >= 0 && (answer <= 2 || maxQoS <= 2) ==> SubReason(answer, maxQoS) == Least(answer, maxQoS)
    ensures UnsubReason(-1) == 0x80 && (0 <= answer < 256 ==> UnsubReason(answer) == answer)
  {
  }

  /** The backend's answers to the first `answered` items it was asked about. */
  method Ask<T>(kept: seq<T>, backend: T -> int, answered: nat) returns (answers: seq<int>)
    ensures |answers| == if answered < |kept| then answered else |kept|
    ensures forall k :: 0 <= k < |answers| ==> answers[k] == backend(kept[k])
  {
    var n := if answered < |kept| then answered else |kept|;
    answers := seq(n, k requires 0 <= k < n => backend(kept[k]));
  }

  /** handleSub from the checks to the SUBACK: every item is answered in its own place, with
      what the backend said about that very item. */
  method Subscribe<T>(items: seq<T>, invalid: seq<bool>, backend: T -> int, answered: nat, maxQoS: nat)
    returns (reasons: seq<Byte>)
    requires |items| == |invalid|
    ensures |reasons| == |items|
    ensures forall i :: 0 <= i < |items| && invalid[i] ==> reasons[i] == FILTER_INVALID
    ensures forall i :: 0 <= i < |items| && !invalid[i] ==>
              reasons[i] == if Rank(Marks(invalid), i) < answered then SubReason(backend(items[i]), maxQoS)
                            else UNSPECIFIED
    ensures forall i :: 0 <= i < |items| ==>
              SubAnswered(reasons[i], invalid[i], Accepted(invalid, i) < answered, backend(items[i]), maxQoS)
  {
    var rejected := MarkInvalid(invalid);
    var kept := KeepAccepted(items, rejected);
    if kept == [] {
      reasons := rejected;
    } else {
      var granted := Ask(kept, backend, answered);
      var succeeded, levels;
      ghost var picked;
      reasons, succeeded, levels, picked := BuildSubAck(items, rejected, granted, maxQoS);
    }
    forall i | 0 <= i < |items|
      ensures SubAnswered(reasons[i], invalid[i], Accepted(invalid, i) < answered, backend(items[i]), maxQoS)
    {
      RankCounts(invalid, i);
      ReasonsExact(backend(items[i]), maxQoS);
    }
  }

  ghost predicate Succeeds(rejected: seq<Byte>, granted: seq<int>, i: nat)
    requires i < |rejected|
  {
    rejected[i] == 0 && Rank(rejected, i) < |granted| && granted[Rank(rejected, i)] >= 0
  }

  /** byte(ack): the low eight bits. */
  function LowByte(answer: int): Byte {
    answer % 256
  }

  function UnsubReason(answer: int): Byte {
    if answer == -1 then UNSPECIFIED else LowByte(answer)
  }

  /** buildUnsubAckReasons. */
  method BuildUnsubAck(topics: seq<string>, rejected: seq<Byte>, answers: seq<int>)
    returns (reasons: seq<Byte>, gone: set<string>)
    requires |topics| == |rejected|
    ensures |reasons| == |topics|
    ensures forall i :: 0 <= i < |topics| ==>
              reasons[i] == if rejected[i] != 0 then rejected[i]
                            else if Rank(rejected, i) >= |answers| then UNSPECIFIED
                            else UnsubReason(answers[Rank(rejected, i)])
    ensures forall t :: t in gone <==> exists i :: 0 <= i < |topics| && topics[i] == t && reasons[i] == 0
  {
    reasons, gone := [], {};
    var valid := 0;
    for n := 0 to |topics|
      invariant |reasons| == n
      invariant valid == if Rank(rejected, n) <= |answers| then Rank(rejected, n) else |answers|
      invariant forall i :: 0 <= i < n ==>
                  reasons[i] == if rejected[i] != 0 then rejected[i]
                                else if Rank(rejected, i) >= |answers| then UNSPECIFIED
                                else UnsubReason(answers[Rank(rejected, i)])
      invariant forall t :: t in gone <==> exists i :: 0 <= i < n && topics[i] == t && reasons[i] == 0
    {
      if rejected[n] != 0 {
        reasons := reasons + [rejected[n]];
        continue;
      }
      if valid >= |answers| {
        reasons := reasons + [UNSPECIFIED];
        continue;
      }
      var ack := answers[valid];
      valid := valid + 1;
      if ack == -1 {
        reasons := reasons + [UNSPECIFIED];
        continue;
      }
      reasons := reasons + [LowByte(ack)];
      if LowByte(ack) == 0 {
        gone := gone + {topics[n]};
      }
    }
  }

  /** handleUnsub from the checks to the UNSUBACK. */
  method Unsubscribe(topics: seq<string>, invalid: seq<bool>, backend: string -> int, answered: nat)
    returns (reasons: seq<Byte>)
    requires |topics| == |invalid|
    ensures |reasons| == |topics|
    ensures forall i :: 0 <= i < |topics| && invalid[i] ==> reasons[i] == FILTER_INVALID
    ensures forall i :: 0 <= i < |topics| && !invalid[i] ==>
              reasons[i] == if Rank(Marks(invalid), i) < answered then UnsubReason(backend(topics[i])) else UNSPECIFIED
    ensures forall i :: 0 <= i < |topics| ==>
              UnsubAnswered(reasons[i], invalid[i], Accepted(invalid, i) < answered, backend(topics[i]))
  {
    var rejected := MarkInvalid(invalid);
    var kept := KeepAccepted(topics, rejected);
    if kept == [] {
      reasons := rejected;
    } else {
      var answers := Ask(kept, backend, answered);
      var gone;
      reasons, gone := BuildUnsubAck(topics, rejected, answers);
    }
    forall i | 0 <= i < |topics|
      ensures UnsubAnswered(reasons[i], invalid[i], Accepted(invalid, i) < answered, backend(topics[i]))
    {
      RankCounts(invalid, i);
      ReasonsExact(backend(topics[i]), 0);
    }
  }
}
