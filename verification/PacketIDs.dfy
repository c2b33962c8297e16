/** internal/broker/client/internal/packetid and NextPacketID: packet identifiers for
    downlink QoS 1 and QoS 2 messages. */
module PacketIDs {
  import opened OutgoingInflight

  const MAX_ID := 65535

  /** How many calls after `from` the factory hands out p. */
  function Distance(from: nat, p: nat): int {
    if p > from then p - from else p - from + MAX_ID
  }

  /** Every identifier is taken. */
  ghost predicate Exhausted(m: Table) {
    forall p :: 1 <= p <= MAX_ID ==> p in m
  }

  class Factory {
    var id: nat

    ghost predicate Valid()
      reads this
    {
      id <= MAX_ID
    }

    constructor (start: nat)
      requires start <= MAX_ID
      ensures Valid() && id == start
    {
      id := start;
    }

    method Next() returns (p: nat)
      requires Valid()
      modifies this
      ensures Valid() && p == id && 1 <= p <= MAX_ID && Distance(old(id), p) == 1
    {
      if id == MAX_ID {
        id := 1;
      } else {
        id := id + 1;
      }
      p := id;
    }

    /** An identifier that no entry of m uses; 0 exactly when there is none. */
    method NextPacketID(m: Table) returns (p: nat)
      requires Valid()
      modifies this
      ensures Valid() && p <= MAX_ID
      ensures p == 0 <==> Exhausted(m)
      ensures p != 0 ==> p !in m
      ensures p == 0 <==> forall q :: 1 <= q <= 65535 ==> q in m
    {
      ghost var start := id;
      for attempts := 0 to MAX_ID
        invariant Valid()
        invariant attempts == 0 ==> id == start
        invariant attempts > 0 ==> id >= 1 && Distance(start, id) == attempts
        invariant forall q :: 1 <= q <= MAX_ID && Distance(start, q) <= attempts ==> q in m
      {
        var next := Next();
        if next !in m {
          return next;
        }
      }
      p := 0;
    }
  }
}
