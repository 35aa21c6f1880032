/**
  The receiver's reorder ring as a value: what its slots hold, what they weigh, and
  where the next packet is found (librist-master/src/rist-common.c:420-438 and 857-891,
  librist-master/src/flow.c:46-64).
 */
module ReorderRing {
  import opened Wrappers

  /** Slots in the ring, and numbers a sequence number can take. */
  const QUEUE_MAX := 65536

  /** A packet waiting for output. */
  datatype Buffer = Buffer(data: seq<bv8>, seqNum: nat, sourceTime: nat, time: nat, packetTime: nat, targetOutputTime: nat)

  type Ring = seq<Option<Buffer>>

  /** The number after a 16-bit sequence number. */
  function Successor(n: nat): nat {
    (n + 1) % QUEUE_MAX
  }

  /** Every packet stands in the slot its sequence number selects. */
  ghost predicate SlotsMatch(ring: Ring) {
    && |ring| == QUEUE_MAX
    && forall i :: 0 <= i < QUEUE_MAX && ring[i].Some? ==> ring[i].value.seqNum == i && ring[i].value.data != []
  }

  ghost predicate AllEmpty(ring: Ring) {
    forall i :: 0 <= i < |ring| ==> ring[i] == None
  }

  // ----- weights -----

  function Weight(slot: Option<Buffer>): nat {
    match slot
    case None => 0
    case Some(b) => |b.data|
  }

  /** The payload bytes in the first n slots. */
  ghost function Bytes(ring: Ring, n: nat): nat
    requires n <= |ring|
  {
    if n == 0 then 0 else Bytes(ring, n - 1) + Weight(ring[n - 1])
  }

  /** How often x waits in a ring whose packets stand in their own slots. */
  ghost function Held(ring: Ring, x: Buffer): nat {
    if x.seqNum < |ring| && ring[x.seqNum] == Some(x) then 1 else 0
  }

  lemma {:induction false} UpdateBytes(ring: Ring, n: nat, i: nat, slot: Option<Buffer>)
    requires n <= |ring| && i < |ring|
    ensures Bytes(ring[i := slot], n) == Bytes(ring, n) + (if i < n then Weight(slot) - Weight(ring[i]) else 0)
  {
    if n > 0 {
      UpdateBytes(ring, n - 1, i, slot);
    }
  }

  lemma {:induction false} OccupiedHasWeight(ring: Ring, n: nat, i: nat)
    requires i < n <= |ring| && ring[i].Some?
    ensures Weight(ring[i]) <= Bytes(ring, n)
  {
    if i < n - 1 {
      OccupiedHasWeight(ring, n - 1, i);
    }
  }

  lemma {:induction false} EmptyHasNothing(ring: Ring, n: nat)
    requires n <= |ring| && AllEmpty(ring)
    ensures Bytes(ring, n) == 0
  {
    if n > 0 {
      EmptyHasNothing(ring, n - 1);
    }
  }

  /** A ring whose bytes have run out is empty exactly if no packet without a payload waits in it. */
  lemma WeightlessIsEmpty(ring: Ring)
    requires Bytes(ring, |ring|) == 0
    ensures AllEmpty(ring) <==> forall i :: 0 <= i < |ring| && ring[i].Some? ==> ring[i].value.data != []
  {
    forall i | 0 <= i < |ring| && ring[i].Some?
      ensures ring[i].value.data == []
    {
      OccupiedHasWeight(ring, |ring|, i);
    }
  }

  // ----- finding the next packet -----

  /** The slot k places behind slot from. */
  function Behind(from: nat, k: nat): (i: nat)
    ensures i < QUEUE_MAX
  {
    (from + k) % QUEUE_MAX
  }

  /** The least distance of at least k from slot from to an occupied slot, QUEUE_MAX if the ring is empty from there on. */
  ghost function Distance(ring: Ring, from: nat, k: nat): (d: nat)
    requires |ring| == QUEUE_MAX && k <= QUEUE_MAX
    ensures k <= d <= QUEUE_MAX
    ensures forall j :: k <= j < d ==> ring[Behind(from, j)] == None
    ensures d < QUEUE_MAX ==> ring[Behind(from, d)].Some?
    decreases QUEUE_MAX - k
  {
    if k == QUEUE_MAX || ring[Behind(from, k)].Some? then k else Distance(ring, from, k + 1)
  }

  lemma BehindReaches(from: nat, i: nat)
    requires from < QUEUE_MAX && i < QUEUE_MAX
    ensures Behind(from, if i >= from then i - from else i - from + QUEUE_MAX) == i
  {
  }

  lemma DistanceMeansEmpty(ring: Ring, from: nat)
    requires |ring| == QUEUE_MAX && from < QUEUE_MAX && Distance(ring, from, 0) == QUEUE_MAX
    ensures AllEmpty(ring)
  {
    forall i | 0 <= i < QUEUE_MAX
      ensures ring[i] == None
    {
      BehindReaches(from, i);
      var j := if i >= from then i - from else i - from + QUEUE_MAX;
      hide Behind;
      assert ring[Behind(from, j)] == None;
    }
  }
}
