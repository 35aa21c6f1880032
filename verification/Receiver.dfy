/**
  The receiver of a flow as an object: its ring is an array and its counters are fields
  that queueing (librist-master/src/rist-common.c:420-715), output
  (librist-master/src/rist-common.c:847-1040), emptying (librist-master/src/flow.c:46-64)
  and the request pass (librist-master/src/rist-common.c:1082-1227) change. ReceiverFlow
  says what each step does and what every run keeps.
 */
module Receiver {
  import opened Arithmetic
  import opened Wrappers
  import opened ReorderRing
  import opened MissingQueue
  import opened ReceiverFlow

  /** The first n slots from slot from on are empty. */
  ghost predicate Cleared(ring: Ring, from: nat, n: nat) {
    |ring| == QUEUE_MAX && n <= QUEUE_MAX && forall j :: 0 <= j < n ==> ring[Behind(from, j)] == None
  }

  lemma ClearedNext(ring: Ring, from: nat, n: nat)
    requires Cleared(ring, from, n) && n < QUEUE_MAX
    ensures Cleared(ring[Behind(from, n) := None], from, n + 1)
    ensures ring[Behind(from, n)] == None ==> Cleared(ring, from, n + 1)
  {
  }

  lemma ClearedAll(ring: Ring, from: nat)
    requires Cleared(ring, from, QUEUE_MAX) && from < QUEUE_MAX
    ensures AllEmpty(ring)
  {
    forall i | 0 <= i < QUEUE_MAX
      ensures ring[i] == None
    {
      BehindReaches(from, i);
      var j := if i >= from then i - from else i - from + QUEUE_MAX;
      hide Behind;
      assert ring[Behind(from, j)] == None;
    }
  }

  lemma BehindNext(from: nat, n: nat)
    requires from < QUEUE_MAX && n < QUEUE_MAX
    ensures Behind(from, n + 1) == Successor(Behind(from, n)) && Behind(from, 0) == from
    ensures Behind(from, n + 1) == from <==> n + 1 == QUEUE_MAX
  {
  }

  /** What freeing slots without delivering them leaves in place. */
  ghost predicate OnlyFreed(s: State, r: Run, s': State, r': Run) {
    && |s.queue| == |s'.queue| == QUEUE_MAX
    && s'.queueSize - Bytes(s'.queue, QUEUE_MAX) == s.queueSize - Bytes(s.queue, QUEUE_MAX)
    && s' == s.(queue := s'.queue, queueSize := s'.queueSize)
    && r' == r.(discarded := r'.discarded)
    && forall x: Buffer :: r'.discarded[x] + Held(s'.queue, x) == r.discarded[x] + Held(s.queue, x)
  }

  /** While the ring is emptied: the first n slots from the output index on have been visited. */
  ghost predicate Emptying(s: State, r: Run, s': State, r': Run, counter: nat, n: nat) {
    && OnlyFreed(s, r, s', r') && Inv(s', r')
    && Cleared(s'.queue, s'.outputIdx, n) && counter == Behind(s'.outputIdx, n)
  }

  lemma EmptyingStarts(s: State, r: Run)
    requires Inv(s, r)
    ensures Emptying(s, r, s, r, s.outputIdx, 0) && |s.queue| == QUEUE_MAX
  {
    BehindNext(s.outputIdx, 0);
  }

  lemma FreedNext(s: State, r: Run, s': State, r': Run, i: nat)
    requires OnlyFreed(s, r, s', r') && Inv(s', r') && i < QUEUE_MAX && s'.queue[i].Some?
    ensures OnlyFreed(s, r, s'.(queue := s'.queue[i := None], queueSize := s'.queueSize - |s'.queue[i].value.data|),
                      r'.(discarded := r'.discarded + multiset{s'.queue[i].value}))
  {
    hide Delivered, Conserved, Continuous;
    UpdateBytes(s'.queue, QUEUE_MAX, i, None);
  }

  lemma EmptyingNext(s: State, r: Run, s': State, r': Run, counter: nat, n: nat)
    requires Emptying(s, r, s', r', counter, n) && n < QUEUE_MAX
    ensures Inv(s', r') && counter < |s'.queue| == QUEUE_MAX && s'.outputIdx < QUEUE_MAX
    ensures s'.queue[counter] == None ==> Emptying(s, r, s', r', Successor(counter), n + 1)
    ensures s'.queue[counter].Some? ==>
              Emptying(s, r, s'.(queue := s'.queue[counter := None], queueSize := s'.queueSize - |s'.queue[counter].value.data|),
                       r'.(discarded := r'.discarded + multiset{s'.queue[counter].value}), Successor(counter), n + 1)
    ensures Successor(counter) == s'.outputIdx <==> n + 1 == QUEUE_MAX
  {
    Shape(s', r');
    BehindNext(s'.outputIdx, n);
    ClearedNext(s'.queue, s'.outputIdx, n);
    hide Inv, OnlyFreed, Cleared, Successor, Behind;
    if s'.queue[counter].Some? {
      FreedNext(s, r, s', r', counter);
      FreeKeepsInv(s', r', counter, |s'.queue[counter].value.data|);
    }
  }

  /** Once the bytes have run out, or every slot was visited, the ring is empty. */
  lemma FreedAll(s: State, r: Run, s': State, r': Run, counter: nat, n: nat)
    requires Emptying(s, r, s', r', counter, n)
    requires s'.queueSize <= 0 || n == QUEUE_MAX
    ensures Inv(s', r') && |s.queue| == QUEUE_MAX && s'.queueSize >= 0
    ensures s' == s.(queue := Empty(), queueSize := s.queueSize - Bytes(s.queue, QUEUE_MAX))
    ensures AllFreed(s.queue, r, r')
  {
    if n == QUEUE_MAX {
      ClearedAll(s'.queue, s'.outputIdx);
    } else {
      WeightlessIsEmpty(s'.queue);
    }
    EmptyHasNothing(s'.queue, QUEUE_MAX);
  }

  /** A turn that does not go on leaves no bytes, or a state in which the same turn would be found again. */
  lemma StopsFor(s: State, r: Run, now: nat, now': nat, recovery: nat, scaling: bool)
    requires Inv(s, r)
    ensures var turn := TurnOf(s, now, now', recovery, scaling);
            && (turn.Drop? || turn.Release? ==> turn.slot < |s.queue| && s.queue[turn.slot].Some?)
            && var s' := AfterTurn(s, turn, now', recovery);
               && |s'.queue| == QUEUE_MAX && s'.queueSize >= 0
               && (!GoesOn(s', turn) ==> s'.queueSize == 0 || TurnOf(s', now, now', recovery, scaling) in {Wait, GiveUp})
  {
    TurnKeepsInv(s, r, now, now', recovery, scaling);
    var turn := TurnOf(s, now, now', recovery, scaling);
    Shape(AfterTurn(s, turn, now', recovery), RunAfterTurn(s, r, turn));
    hide Inv;
  }

  /** A turn that takes a packet out takes its bytes, of which there are some, and never more than are counted. */
  lemma TurnIsSafe(s: State, r: Run, now: nat, now': nat, recovery: nat, scaling: bool)
    requires Inv(s, r)
    ensures var turn := TurnOf(s, now, now', recovery, scaling);
            && (turn.Drop? || turn.Release? ==> turn.slot < |s.queue| && s.queue[turn.slot].Some?)
            && var s' := AfterTurn(s, turn, now', recovery);
               && Inv(s', RunAfterTurn(s, r, turn)) && 0 <= s'.queueSize <= s.queueSize
               && RunAfterTurn(s, r, turn).inserted == r.inserted
               && (turn.Drop? || turn.Release? ==> s'.queueSize < s.queueSize)
  {
    hide Inv, TurnOf;
    Shape(s, r);
    TurnKeepsInv(s, r, now, now', recovery, scaling);
    var turn := TurnOf(s, now, now', recovery, scaling);
    Shape(AfterTurn(s, turn, now', recovery), RunAfterTurn(s, r, turn));
  }

  /** How far slot i lies behind slot from. */
  function Offset(from: nat, i: nat): (n: nat)
    requires from < QUEUE_MAX && i < QUEUE_MAX
    ensures n < QUEUE_MAX && Behind(from, n) == i
  {
    (i - from) % QUEUE_MAX
  }

  function SlotOffset(b: Block, from: nat): nat
    requires from < QUEUE_MAX
  {
    Offset(from, b.buffer.seqNum % QUEUE_MAX)
  }

  /** From the base-th on, the blocks come in the order of their slots around the ring, all within the first n slots. */
  ghost predicate InRingOrder(delivered: seq<Block>, base: nat, from: nat, n: nat) {
    && from < QUEUE_MAX && base <= |delivered|
    && (forall k :: base <= k < |delivered| ==> SlotOffset(delivered[k], from) < n)
    && (forall j, k :: base <= j < k < |delivered| ==> SlotOffset(delivered[j], from) < SlotOffset(delivered[k], from))
  }

  /** An output pass that started at slot from, with base blocks delivered before, has swept n slots. */
  ghost predicate Swept(s: State, r: Run, before: seq<Block>, from: nat, n: nat) {
    && from < QUEUE_MAX && Cleared(s.queue, from, n) && s.outputIdx == Behind(from, n)
    && before <= r.delivered && InRingOrder(r.delivered, |before|, from, n)
  }

  lemma SweepStarts(s: State, r: Run)
    requires Inv(s, r)
    ensures Swept(s, r, r.delivered, s.outputIdx, 0)
  {
    BehindNext(s.outputIdx, 0);
  }

  lemma BehindAdds(from: nat, n: nat, d: nat)
    ensures Behind(Behind(from, n), d) == Behind(from, n + d)
  {
  }

  lemma BehindWraps(from: nat, n: nat)
    requires n >= QUEUE_MAX
    ensures Behind(from, n) == Behind(from, n - QUEUE_MAX)
  {
  }

  /** The slots up to the next packet are empty, so its place in the sweep is past all those before. */
  lemma SweepReaches(s: State, from: nat, n: nat, d: nat)
    requires Cleared(s.queue, from, n) && from < QUEUE_MAX && s.outputIdx == Behind(from, n)
    requires d == Distance(s.queue, s.outputIdx, 0) < QUEUE_MAX
    ensures n + d < QUEUE_MAX && Behind(s.outputIdx, d) == Behind(from, n + d)
    ensures Cleared(s.queue[Behind(from, n + d) := None], from, n + d + 1)
  {
    BehindAdds(from, n, d);
    hide Behind, Distance;
    if n + d >= QUEUE_MAX {
      BehindWraps(from, n + d);
      assert false;
    }
    forall j | 0 <= j < n + d
      ensures s.queue[Behind(from, j)] == None
    {
      if j >= n {
        BehindAdds(from, n, j - n);
        assert s.queue[Behind(s.outputIdx, j - n)] == None;
      }
    }
  }

  lemma OrderNext(delivered: seq<Block>, b: Block, base: nat, from: nat, n: nat, m: nat)
    requires InRingOrder(delivered, base, from, n) && n <= m && SlotOffset(b, from) == m
    ensures InRingOrder(delivered + [b], base, from, m + 1)
  {
  }

  lemma OrderGrows(delivered: seq<Block>, base: nat, from: nat, n: nat, m: nat)
    requires InRingOrder(delivered, base, from, n) && n <= m
    ensures InRingOrder(delivered, base, from, m)
  {
  }

  lemma OffsetOfBehind(from: nat, m: nat)
    requires from < QUEUE_MAX && m < QUEUE_MAX
    ensures Offset(from, Behind(from, m)) == m
  {
  }

  lemma SweepEnds(s: State, r: Run, before: seq<Block>, from: nat, n: nat)
    requires Swept(s, r, before, from, n)
    ensures before <= r.delivered && InRingOrder(r.delivered, |before|, from, QUEUE_MAX)
  {
    OrderGrows(r.delivered, |before|, from, n, QUEUE_MAX);
  }

  lemma SweepOne(s: State, r: Run, before: seq<Block>, from: nat, n: nat, m: nat, turn: Turn)
    requires from < QUEUE_MAX && n <= m < QUEUE_MAX
    requires before <= r.delivered && InRingOrder(r.delivered, |before|, from, n)
    requires |s.queue| == QUEUE_MAX && Cleared(s.queue[Behind(from, m) := None], from, m + 1)
    requires (turn.Drop? || turn.Release?) && turn.slot == Behind(from, m) && s.queue[turn.slot].Some?
    requires s.queue[turn.slot].value.seqNum == turn.slot
    ensures (turn.slot + 1) % QUEUE_MAX == Behind(from, m + 1)
    ensures before <= RunAfterTurn(s, r, turn).delivered
    ensures InRingOrder(RunAfterTurn(s, r, turn).delivered, |before|, from, m + 1)
  {
    hide InRingOrder, Cleared, Offset, Behind;
    BehindNext(from, m);
    OffsetOfBehind(from, m);
    if turn.Release? {
      OrderNext(r.delivered, BlockFor(s, turn.slot, turn.holes), |before|, from, n, m);
    } else {
      OrderGrows(r.delivered, |before|, from, n, m + 1);
    }
  }

  /** Every turn that takes a packet out sweeps on to the slot behind it. */
  lemma SweepNext(s: State, r: Run, before: seq<Block>, from: nat, n: nat,
                  now: nat, now': nat, recovery: nat, scaling: bool) returns (n': nat)
    requires Inv(s, r) && Swept(s, r, before, from, n)
    ensures var turn := TurnOf(s, now, now', recovery, scaling);
            && (turn.Drop? || turn.Release? ==> turn.slot < |s.queue| && s.queue[turn.slot].Some?)
            && Swept(AfterTurn(s, turn, now', recovery), RunAfterTurn(s, r, turn), before, from, n')
  {
    hide Inv, InRingOrder, Cleared, Offset, Behind, Distance, BlockFor;
    Shape(s, r);
    n' := n;
    var turn := TurnOf(s, now, now', recovery, scaling);
    if turn.Drop? || turn.Release? {
      var d := Distance(s.queue, s.outputIdx, 0);
      SweepReaches(s, from, n, d);
      SlotHolds(s, r, turn.slot);
      SweepOne(s, r, before, from, n, n + d, turn);
      n' := n + d + 1;
    }
  }

  lemma Replaced(s: State, k: Intake, r: Run, a: Arrival, v: Verdict, b: Buffer, s1: State, r1: Run, time: nat, recovery: nat)
    requires Inv(s, r) && |s.queue| == QUEUE_MAX && a.seqNum < QUEUE_MAX && a.data != [] && v.Accepted? && s.hasItems
    requires b == Stored(a, v, time, recovery)
    requires s1 == if s.queue[a.seqNum].Some? then s.(queue := s.queue[a.seqNum := None]) else s
    requires r1 == if s.queue[a.seqNum].Some? then r.(discarded := r.discarded + multiset{s.queue[a.seqNum].value}) else r
    ensures b.seqNum == a.seqNum < |s1.queue| && b.packetTime == a.packetTime && b.time == time
    ensures var s2, r2 := Inserted(s1, b), r1.(inserted := r1.inserted + multiset{b});
            && s2.queue == s.queue[a.seqNum := Some(b)] && s2.outputIdx == s.outputIdx
            && Inv(s2, r2) && Arrived(s, k, r, a, v, b, s2, IntakeAfter(k, v, a), r2, recovery)
  {
    hide Inv;
    assert Inserted(s1, b) == AfterArrival(s, k, v, b);
    ArrivalKeepsInv(s, k, v, b, r, r1.(inserted := r1.inserted + multiset{b}));
  }

  /** A packet that is not stored leaves ring and run alone, apart from what makes the next one a first packet. */
  lemma Untouched(s: State, k: Intake, r: Run, a: Arrival, v: Verdict, b: Buffer, recovery: nat)
    requires Inv(s, r) && |s.queue| == QUEUE_MAX && a.seqNum < QUEUE_MAX && !v.First? && !v.Accepted?
    requires b == Stored(a, v, b.time, recovery)
    ensures var s' := s.(hasItems := s.hasItems && KeepsItems(v, k));
            Inv(s', r) && Arrived(s, k, r, a, v, b, s', IntakeAfter(k, v, a), r, recovery)
  {
    hide Continuous, Conserved, SlotsMatch, Bytes;
  }

  lemma JudgeMeans(s: State, lastSeqFound: nat, a: Arrival, recovery: nat)
    requires a.seqNum < |s.queue|
    ensures VerdictOf(s, lastSeqFound, a, recovery).Accepted? ==> s.hasItems
  {
  }

  lemma FirstArrival(s: State, k: Intake, r: Run, b: Buffer, s1: State, r1: Run, a: Arrival, time: nat, recovery: nat)
    requires Inv(s, r) && b == Stored(a, First, time, recovery) && |s.queue| == QUEUE_MAX
    requires a.seqNum < QUEUE_MAX && a.data != []
    requires s1 == s.(queue := Empty(), queueSize := s.queueSize - Bytes(s.queue, QUEUE_MAX), bufferStart := true,
                      lastSeqOutput := (a.seqNum - 1) % WORD32)
    requires AllFreed(s.queue, r, r1)
    ensures b.seqNum < |s1.queue| == QUEUE_MAX && b.time == time
    ensures var s2, r2 := Inserted(s1, b).(outputIdx := a.seqNum, hasItems := true), r1.(inserted := r1.inserted + multiset{b});
            Inv(s2, r2) && Arrived(s, k, r, a, First, b, s2, Intake(a.seqNum, 0, 0, 0), r2, recovery)
  {
    hide Inv, Empty, Held, Bytes;
    ArrivalKeepsInv(s, k, First, b, r, r1.(inserted := r1.inserted + multiset{b}));
  }

  lemma GapEnds(last: nat, current: nat)
    requires last < QUEUE_MAX && current < QUEUE_MAX
    ensures InGap(last, GapLength(last, current)) == current
  {
  }

  /** The k-th number of the gap is not its end, so one more follows. */
  lemma GapGoesOn(last: nat, current: nat, k: nat)
    requires last < QUEUE_MAX && current < QUEUE_MAX && k <= GapLength(last, current) && InGap(last, k) != current
    ensures k < GapLength(last, current)
  {
    hide InGap;
    if k == GapLength(last, current) {
      GapEnds(last, current);
    }
  }

  lemma GapStops(last: nat, current: nat, k: nat)
    requires last < QUEUE_MAX && current < QUEUE_MAX && k <= GapLength(last, current) && InGap(last, k) == current
    ensures k == GapLength(last, current)
  {
    if k < GapLength(last, current) {
      GapOnce(last, current, k, GapLength(last, current));
    }
  }

  lemma EvenNext(start: nat, step: nat, k: nat)
    ensures EvenTime(start, step, k + 1) == (EvenTime(start, step, k) + step) % WORD64 && EvenTime(start, step, 0) == start
  {
  }

  lemma GapStarts(last: nat, current: nat)
    requires last < QUEUE_MAX && current < QUEUE_MAX
    ensures GapLength(last, current) == 0 <==> InGap(last, 0) == current
  {
  }

  /** A ring whose bytes have run out is empty. */
  lemma AlreadyEmpty(s: State, r: Run)
    requires Inv(s, r)
    ensures |s.queue| == QUEUE_MAX
    ensures s.queueSize <= 0 ==>
              s.queue == Empty() && s.queueSize == Bytes(s.queue, QUEUE_MAX) == 0 && AllFreed(s.queue, r, r)
  {
    if s.queueSize <= 0 {
      WeightlessIsEmpty(s.queue);
    }
  }

  lemma Sizes()
    ensures QUEUE_MAX == 65536 && WORD32 > 0 && WORD64 > 0
  {
  }

  lemma MarkCounts(last: nat, current: nat, bloat: bool, missingCounter: int, missingCounterMax: int)
    requires last < QUEUE_MAX && current < QUEUE_MAX
    ensures MarkCount(last, current, bloat, missingCounter, missingCounterMax)
            == if (current - last) % QUEUE_MAX > 32768 || bloat || missingCounter > missingCounterMax then 0
               else GapLength(last, current)
  {
  }

  lemma StartsThere(queue: Ring, last: nat, start: nat)
    requires last < |queue| && (queue[last].Some? ==> start == queue[last].value.packetTime)
    ensures StartsAt(queue, last, start)
  {
  }

  /** Storing a packet leaves the slot a gap starts from alone, unless that is its own. */
  lemma StartsAsBefore(queue: Ring, s: State, last: nat, a: Arrival, start: nat)
    requires a.seqNum < |queue| == |s.queue| && StartsAt(queue, last, start)
    requires queue[a.seqNum].Some? && queue[a.seqNum].value.packetTime == a.packetTime
    requires last != a.seqNum ==> queue[last] == s.queue[last]
    ensures if last == a.seqNum then start == a.packetTime else StartsAt(s.queue, last, start)
  {
  }

  lemma GapTaken(k: Intake, outOfOrder: bool, a: Arrival)
    ensures IntakeAfter(k, Accepted(outOfOrder), a)
            == k.(received := k.received + 1, lastSeqFound := if a.retry || outOfOrder then k.lastSeqFound else a.seqNum)
  {
  }

  /** Nothing is marked for a packet that comes out of order, for the second time, or next in line. */
  lemma MissingKept(entries: seq<Entry>, s: State, last: nat, outOfOrder: bool, a: Arrival, link: GapLink, start: nat,
                    from: nat, to: nat, recovery: nat)
    requires a.seqNum < |s.queue| == QUEUE_MAX && last < QUEUE_MAX
    ensures a.retry || outOfOrder || (a.seqNum - 1) % QUEUE_MAX == last ==>
              MissingAfter(entries, entries, s, last, Accepted(outOfOrder), a, link, start, from, to, recovery)
  {
  }

  /** A first packet makes the list empty. */
  lemma MissingForgotten(before: seq<Entry>, s: State, last: nat, a: Arrival, link: GapLink, from: nat, to: nat, recovery: nat)
    requires a.seqNum < |s.queue| == QUEUE_MAX && last < QUEUE_MAX
    ensures MissingAfter(before, [], s, last, First, a, link, 0, from, to, recovery)
  {
  }

  /** The values that queueing returns. */
  lemma Returns()
    ensures Returned(First) == 0 && Returned(Dupe) == 1
    ensures forall outOfOrder :: Returned(Accepted(outOfOrder)) == 0
    ensures forall v: Verdict :: v in {Refused, Late, Full} ==> Returned(v) == -1
  {
  }

  lemma MissingMarked(before: seq<Entry>, entries: seq<Entry>, s: State, last: nat, outOfOrder: bool, a: Arrival,
                      link: GapLink, start: nat, from: nat, to: nat, recovery: nat)
    requires a.seqNum < |s.queue| == QUEUE_MAX && last < QUEUE_MAX
    requires !a.retry && !outOfOrder && (a.seqNum - 1) % QUEUE_MAX != last
    requires if last == a.seqNum then start == a.packetTime else StartsAt(s.queue, last, start)
    requires Marked(before, entries, last, MarkCount(last, a.seqNum, link.bloat, link.missingCounter, link.missingCounterMax),
                    link.peer, link.rtt, start, EvenStep(start, a.packetTime, last, a.seqNum), from, to, recovery)
    ensures MissingAfter(before, entries, s, last, Accepted(outOfOrder), a, link, start, from, to, recovery)
  {
    hide Marked;
  }

  class Flow {
    const queue: array<Option<Buffer>>
    var hasItems: bool
    var queueSize: int
    var outputIdx: nat
    var bufferStart: bool
    var lastSeqOutput: nat
    var tooLateCtr: nat
    var lastOutputTime: nat
    var lastSeqFound: nat
    var received: nat
    var droppedLate: nat
    var droppedFull: nat
    const missing: MissingList
    /** The buffer time, which is rescaled while the flow runs. */
    var recovery: nat
    /** Set once by another thread. */
    var shutdown: bool
    /** The latest reading of the system clock. */
    var clock: nat

    ghost var run: Run

    ghost function View(): State
      reads this, queue
    {
      State(queue[..], hasItems, queueSize, outputIdx, bufferStart, lastSeqOutput, tooLateCtr, lastOutputTime)
    }

    ghost function Taken(): Intake
      reads `lastSeqFound, `received, `droppedLate, `droppedFull
    {
      Intake(lastSeqFound, received, droppedLate, droppedFull)
    }

    ghost predicate Valid()
      reads this, queue, missing, missing.nodes
    {
      Inv(View(), run) && lastSeqFound < QUEUE_MAX && missing.Valid() && queue as object != missing.nacks
    }

    /** The fields of the values that the specification speaks of. */
    lemma Fields()
      ensures QUEUE_MAX > 0
      ensures View() == State(queue[..], hasItems, queueSize, outputIdx, bufferStart, lastSeqOutput, tooLateCtr, lastOutputTime)
      ensures Taken() == Intake(lastSeqFound, received, droppedLate, droppedFull)
    {
    }

    lemma Parts()
      ensures Valid() <==> Inv(View(), run) && lastSeqFound < QUEUE_MAX && missing.Valid() && queue as object != missing.nacks
    {
      hide Inv, MissingList.Valid;
    }

    constructor (recovery: nat)
      ensures Valid() && fresh(queue) && fresh(missing) && fresh(missing.nacks) && this.recovery == recovery
      ensures !hasItems && run == Run(multiset{}, multiset{}, []) && missing.entries == [] && missing.nodes == []
    {
      queue := new Option<Buffer>[QUEUE_MAX](_ => None);
      hasItems, queueSize, outputIdx, bufferStart, lastSeqOutput := false, 0, 0, false, 0;
      tooLateCtr, lastOutputTime, lastSeqFound, received, droppedLate, droppedFull := 0, 0, 0, 0, 0, 0;
      missing := new MissingList();
      this.recovery, shutdown := recovery, false;
      clock, run := 0, Run(multiset{}, multiset{}, []);
      new;
      EmptyHasNothing(queue[..], QUEUE_MAX);
    }

    /** A reading of the clock, which never runs backwards. */
    method ReadClock() returns (now: nat)
      modifies `clock
      ensures clock == now >= old(clock)
    {
      var passed: int := *;
      if passed > 0 {
        clock := clock + passed;
      }
      now := clock;
    }

    /** A reading of the flag that ends the flow. */
    method ReadShutdown() returns (stop: bool)
      modifies `shutdown
      ensures stop == shutdown && (old(shutdown) ==> shutdown)
    {
      var ended: bool := *;
      if ended {
        shutdown := true;
      }
      stop := shutdown;
    }

    /** One step of scaling the buffer: packets that wait keep the output time they were given. */
    method Rescale(ticks: nat)
      requires Valid()
      modifies `recovery
      ensures Valid() && recovery == ticks
    {
      recovery := ticks;
    }

    /** A changed flow id: the next packet is a first one. */
    method Reset()
      requires Valid()
      modifies `hasItems
      ensures Valid() && View() == old(View()).(hasItems := false)
    {
      ResetKeepsInv(View(), run, tooLateCtr, false);
      hide Inv;
      hasItems := false;
    }

    /** Frees the packet in slot i and gives its bytes back. */
    method FreeSlot(i: nat)
      requires Inv(View(), run) && i < queue.Length == QUEUE_MAX && queue[i].Some?
      modifies queue, `queueSize, `run
      ensures Inv(View(), run)
      ensures View() == old(View()).(queue := old(queue[..])[i := None],
                                     queueSize := old(queueSize) - |old(queue[i]).value.data|)
      ensures run == old(run).(discarded := old(run).discarded + multiset{old(queue[i]).value})
      ensures queueSize >= 0
    {
      hide Inv;
      ghost var s := View();
      FreeKeepsInv(s, run, i, |queue[i].value.data|);
      run := run.(discarded := run.discarded + multiset{queue[i].value});
      queueSize := queueSize - |queue[i].value.data|;
      queue[i] := None;
      assert queue[..] == s.queue[i := None];
    }

    /** One turn of the emptying loop. */
    method EmptyStep(counter: nat, ghost s: State, ghost r: Run, ghost n: nat) returns (next: nat)
      requires queue.Length == QUEUE_MAX && n < QUEUE_MAX && Emptying(s, r, View(), run, counter, n)
      modifies queue, `queueSize, `run
      ensures Emptying(s, r, View(), run, next, n + 1) && (next == outputIdx <==> n + 1 == QUEUE_MAX)
    {
      EmptyingNext(s, r, View(), run, counter, n);
      hide Inv, Emptying, Successor;
      if queue[counter].Some? {
        FreeSlot(counter);
      }
      next := Successor(counter);
    }

    /**
      empty_receiver_queue: frees everything that waits, going round from the output
      index until no bytes are left. No subtraction takes the count below zero, and no
      packet stays behind.
     */
    method EmptyQueue()
      requires Inv(View(), run)
      modifies queue, `queueSize, `run
      ensures Inv(View(), run) && queueSize >= 0
      ensures View() == old(View()).(queue := Empty(), queueSize := old(queueSize) - Bytes(old(queue[..]), QUEUE_MAX))
      ensures AllFreed(old(queue[..]), old(run), run)
    {
      hide *;
      EmptyingStarts(View(), run);
      Fields();
      ghost var s, r := View(), run;
      var counter := outputIdx;
      ghost var n: nat := 0;
      while queueSize > 0
        invariant queue.Length == QUEUE_MAX && n < QUEUE_MAX
        invariant Emptying(s, r, View(), run, counter, n)
        decreases QUEUE_MAX - n
      {
        counter := EmptyStep(counter, s, r, n);
        n := n + 1;
        if counter == outputIdx {
          break;
        }
      }
      Fields();
      FreedAll(s, r, View(), run, counter, n);
    }

    /** The scan for the first packet from the output index on, which goes round the ring once at most. */
    method Scan() returns (holes: nat, idx: nat)
      requires queue.Length == QUEUE_MAX && outputIdx < QUEUE_MAX
      ensures holes == Distance(queue[..], outputIdx, 0)
      ensures holes < QUEUE_MAX ==> idx == Behind(outputIdx, holes) && queue[idx].Some?
    {
      hide Behind, Successor;
      BehindNext(outputIdx, 0);
      holes, idx := 0, outputIdx;
      while queue[idx] == None
        invariant holes < QUEUE_MAX && idx == Behind(outputIdx, holes)
        invariant Distance(queue[..], outputIdx, 0) == Distance(queue[..], outputIdx, holes)
        decreases QUEUE_MAX - holes
      {
        BehindNext(outputIdx, holes);
        idx := Successor(idx);
        holes := holes + 1;
        if idx == outputIdx {
          break;
        }
      }
    }

    /** Takes the packet in slot i out, delivered or not, and moves the output index behind it. */
    method TakeOut(i: nat, now': nat)
      requires i < queue.Length == QUEUE_MAX && queue[i].Some?
      modifies queue, `queueSize, `outputIdx, `hasItems, `lastOutputTime
      ensures View() == TakenOut(old(View()).(queue := old(queue[..])[i := None],
                                              queueSize := old(queueSize) - |old(queue[i]).value.data|), i, now', recovery)
    {
      ghost var q := queue[..];
      queueSize := queueSize - |queue[i].value.data|;
      queue[i] := None;
      assert queue[..] == q[i := None];
      outputIdx := (i + 1) % QUEUE_MAX;
      if queueSize == 0 {
        if lastOutputTime == 0 {
          lastOutputTime := now';
        }
        if Sub64(now', lastOutputTime) > recovery {
          hasItems := false;
        }
      } else {
        lastOutputTime := now';
      }
    }

    /** Carries out what was decided. */
    method Act(turn: Turn, now': nat)
      requires turn.Drop? || turn.Release? ==> turn.slot < queue.Length && queue[turn.slot].Some?
      requires queue.Length == QUEUE_MAX
      modifies queue, `hasItems, `queueSize, `outputIdx, `bufferStart, `lastSeqOutput, `tooLateCtr, `lastOutputTime, `run
      ensures View() == AfterTurn(old(View()), turn, now', recovery)
      ensures run == RunAfterTurn(old(View()), old(run), turn)
    {
      hide TakenOut;
      match turn {
        case Wait =>
        case NothingFound =>
          hasItems := false;
          queueSize := 0;
        case GiveUp =>
          tooLateCtr := tooLateCtr + 1;
          hasItems := false;
        case Drop(i) =>
          tooLateCtr := tooLateCtr + 1;
          run := run.(discarded := run.discarded + multiset{queue[i].value});
          TakeOut(i, now');
        case Release(i, holes) =>
          tooLateCtr := 0;
          lastOutputTime := now';
          var b := queue[i].value;
          var discontinuity := holes || b.seqNum != (lastSeqOutput + 1) % QUEUE_MAX;
          run := run.(delivered := run.delivered + [Block(b, discontinuity, bufferStart)]);
          bufferStart := false;
          lastSeqOutput := b.seqNum;
          TakeOut(i, now');
      }
    }

    /** Finds the next packet and decides what becomes of it; now is an earlier reading of the clock. */
    method Decide(now: nat, scaling: bool) returns (turn: Turn, now': nat)
      requires queue.Length == QUEUE_MAX && outputIdx < QUEUE_MAX && clock >= now
      modifies `clock
      ensures clock >= now' >= now && clock >= old(clock) && turn == TurnOf(View(), now, now', recovery, scaling)
    {
      hide Distance, Behind, Sub64;
      var holes, idx := Scan();
      now' := now;
      if holes == QUEUE_MAX {
        return NothingFound, now;
      }
      var b := queue[idx].value;
      if holes > 0 {
        if Sub64(now, b.time) > 2 * recovery {
        } else if b.targetOutputTime > now {
          return Wait, now;
        }
      }
      now' := ReadClock();
      var delay := Sub64(now', b.time);
      if 10 * delay > 11 * recovery {
        if delay > 2 * recovery {
          if tooLateCtr + 1 > 100 {
            return GiveUp, now';
          }
          return Drop(idx), now';
        }
      } else if b.targetOutputTime > now' && (!scaling || b.packetTime + recovery > now') {
        return Wait, now';
      }
      turn := Release(idx, holes > 0);
    }

    /** One turn of the output loop; goes on while a packet was taken out and bytes are left. */
    method TakeTurn(now: nat, scaling: bool) returns (more: bool, now': nat)
      requires Inv(View(), run) && clock >= now
      modifies queue, `hasItems, `queueSize, `outputIdx, `bufferStart, `lastSeqOutput, `tooLateCtr, `lastOutputTime,
               `clock, `run
      ensures Inv(View(), run) && clock >= now' >= now && clock >= old(clock)
      ensures var turn := TurnOf(old(View()), now, now', recovery, scaling);
              && View() == AfterTurn(old(View()), turn, now', recovery)
              && run == RunAfterTurn(old(View()), old(run), turn)
              && more == GoesOn(View(), turn)
      ensures 0 <= queueSize <= old(queueSize) && (more ==> 0 < queueSize < old(queueSize))
      ensures run.inserted == old(run).inserted
    {
      ghost var s, r := View(), run;
      Shape(s, r);
      var turn;
      turn, now' := Decide(now, scaling);
      TurnIsSafe(s, r, now, now', recovery, scaling);
      hide Inv, TurnOf, AfterTurn, RunAfterTurn, Distance, Behind;
      Act(turn, now');
      more := (turn.Drop? || turn.Release?) && queueSize != 0;
    }

    lemma PassStarts() returns (excess: int)
      requires Inv(View(), run)
      ensures queue.Length == QUEUE_MAX && excess == Excess(View())
      ensures forall from: nat, to: nat, scaling: bool :: LeftInTime(run.delivered, |run.delivered|, from, to, recovery, scaling)
      ensures forall from: nat, to: nat :: FreedOld(run.discarded, run.discarded, from, to, recovery)
    {
      excess := Excess(View());
    }

    /**
      receiver_output: packets leave in the order of their slots around the ring, none
      overtaking another, until the bytes run out, the next packet has to wait, too many
      were too old, or the flow is shut down.
     */
    method Output(scaling: bool) returns (ghost last: nat, ghost last': nat)
      requires Valid()
      modifies queue, `hasItems, `queueSize, `outputIdx, `bufferStart, `lastSeqOutput, `tooLateCtr, `lastOutputTime,
               `clock, `run, `shutdown
      ensures Valid() && old(clock) <= last <= last' <= clock
      ensures old(run).delivered <= run.delivered && run.inserted == old(run).inserted
      ensures InRingOrder(run.delivered, |old(run).delivered|, old(outputIdx), QUEUE_MAX)
      ensures LeftInTime(run.delivered, |old(run).delivered|, old(clock), clock, recovery, scaling)
      ensures queueSize == 0 || shutdown || TurnOf(View(), last, last', recovery, scaling) in {Wait, GiveUp}
      ensures queue.Length == QUEUE_MAX && (queueSize == 0 || shutdown || Stopped(View(), old(clock), clock, recovery))
      ensures FreedOld(old(run).discarded, run.discarded, old(clock), clock, recovery)
      ensures AllEmpty(queue[..]) && !shutdown ==> queueSize == 0 && (old(Excess(View())) > 0 ==> !hasItems)
    {
      hide Inv, InRingOrder, TurnOf, LeftInTime, Excess, AllEmpty, Swept, AfterTurn, RunAfterTurn, GoesOn, MissingList.Valid,
           Requested, Stopped, FreedOld;
      ghost var excess := PassStarts();
      ghost var before, from, n: nat := run.delivered, outputIdx, 0;
      Shape(View(), run);
      SweepStarts(View(), run);
      var now := ReadClock();
      last, last' := now, now;
      var more, stop := queueSize > 0, false;
      if more {
        stop := ReadShutdown();
      }
      while more && !stop
        invariant Inv(View(), run) && Swept(View(), run, before, from, n) && run.inserted == old(run).inserted
        invariant old(clock) <= last <= last' == now <= clock
        invariant 0 <= queueSize && (more ==> queueSize > 0)
        invariant !more ==> queueSize == 0 || TurnOf(View(), last, last', recovery, scaling) in {Wait, GiveUp}
        invariant LeftInTime(run.delivered, |before|, old(clock), clock, recovery, scaling)
        invariant queue.Length == QUEUE_MAX && (Excess(View()) == excess || !hasItems)
        invariant FreedOld(old(run).discarded, run.discarded, old(clock), clock, recovery)
        invariant !more ==> queueSize == 0 || Stopped(View(), old(clock), clock, recovery)
        invariant stop ==> shutdown
        decreases queueSize, more
      {
        ghost var s, r, c := View(), run, clock;
        var now';
        more, now' := TakeTurn(now, scaling);
        n := SweepNext(s, r, before, from, n, now, now', recovery, scaling);
        StopsFor(s, r, now, now', recovery, scaling);
        NoneLeavesEarly(s, r, |before|, old(clock), c, now, now', clock, recovery, scaling);
        OnlyOldIsFreed(s, r, old(run).discarded, old(clock), c, now, now', clock, recovery, scaling);
        StopMeans(s, r, now, now', recovery, scaling);
        if !more && queueSize != 0 {
          StoppedLater(View(), now, now', old(clock), clock, recovery);
        }
        PassExcess(s, r, now, now', recovery, scaling, excess);
        last, last', now := now, now', now';
        if more {
          stop := ReadShutdown();
        }
      }
      SweepEnds(View(), run, before, from, n);
      if !more {
        PassEmpties(View(), run, last, last', recovery, scaling, excess);
      }
    }

    /** receiver_insert_queue_packet. */
    method Insert(a: Arrival, ghost v: Verdict, packetTime: nat) returns (ghost b: Buffer)
      requires a.seqNum < queue.Length == QUEUE_MAX && packetTime == (if v.First? then a.now else a.packetTime)
      modifies queue, `queueSize, `clock, `run
      ensures clock >= old(clock) && b == Stored(a, v, clock, recovery)
      ensures View() == Inserted(old(View()), b) && run == old(run).(inserted := old(run).inserted + multiset{b})
    {
      ghost var q := queue[..];
      var now := ReadClock();
      var x := Buffer(a.data, a.seqNum, a.sourceTime, now, packetTime, packetTime + recovery);
      b := x;
      queue[a.seqNum] := Some(x);
      assert queue[..] == q[a.seqNum := Some(x)];
      queueSize := queueSize + |a.data|;
      run := run.(inserted := run.inserted + multiset{b});
    }

    /** Makes the ring ready for a first packet; if its bytes have run out, it is empty already. */
    method Prepare(seqNum: nat)
      requires Inv(View(), run)
      modifies queue, `queueSize, `bufferStart, `lastSeqOutput, `run
      ensures queue.Length == QUEUE_MAX && AllFreed(old(queue[..]), old(run), run)
      ensures View() == old(View()).(queue := Empty(), queueSize := old(queueSize) - Bytes(old(queue[..]), QUEUE_MAX),
                                     bufferStart := true, lastSeqOutput := (seqNum - 1) % WORD32)
    {
      hide *;
      Sizes();
      Fields();
      AlreadyEmpty(View(), run);
      if queueSize > 0 {
        EmptyQueue();
      }
      Fields();
      bufferStart := true;
      lastSeqOutput := (seqNum - 1) % WORD32;
      Fields();
    }

    /** Numbering starts at a first packet. */
    method StartNumbers(seqNum: nat)
      modifies `hasItems, `outputIdx, `lastSeqFound, `received, `droppedLate, `droppedFull
      ensures View() == old(View()).(outputIdx := seqNum, hasItems := true)
      ensures Taken() == Intake(seqNum, 0, 0, 0) && lastSeqFound == seqNum
    {
      lastSeqFound, received, droppedLate, droppedFull := seqNum, 0, 0, 0;
      outputIdx := seqNum;
      hasItems := true;
    }

    /** The first packet of a flow, or of what comes after a reset. */
    method Start(a: Arrival) returns (ghost b: Buffer)
      requires Inv(View(), run) && a.seqNum < QUEUE_MAX && a.data != []
      modifies queue, `hasItems, `queueSize, `outputIdx, `bufferStart, `lastSeqOutput, `clock, `run,
               `lastSeqFound, `received, `droppedLate, `droppedFull
      ensures Inv(View(), run) && old(clock) <= b.time <= clock
      ensures Arrived(old(View()), old(Taken()), old(run), a, First, b, View(), Taken(), run, recovery)
      ensures lastSeqFound == a.seqNum
    {
      hide *;
      Fields();
      Shape(View(), run);
      ghost var s, k, r := View(), Taken(), run;
      Prepare(a.seqNum);
      ghost var s1, r1 := View(), run;
      b := Insert(a, First, a.now);
      FirstArrival(s, k, r, b, s1, r1, a, clock, recovery);
      StartNumbers(a.seqNum);
    }

    /** One turn of the marking loop. */
    method MarkOne(peer: Config, nackTime: nat, missingSeq: nat, rtt: nat,
                   ghost before: seq<Entry>, ghost n: nat, ghost start: nat, ghost step: nat, ghost from: nat)
      requires missing.Valid() && missingSeq == InGap(lastSeqFound, n) && nackTime == EvenTime(start, step, n + 1)
      requires Marked(before, missing.entries, lastSeqFound, n, peer, rtt, start, step, from, clock, recovery)
      requires from <= clock
      modifies `clock, missing`missing, missing`missingTail, missing`nodes, missing`entries, missing.nodes`next
      ensures missing.Valid() && clock >= old(clock)
      ensures forall i :: 0 <= i < |missing.nodes| ==> missing.nodes[i] in old(missing.nodes) || fresh(missing.nodes[i])
      ensures Marked(before, missing.entries, lastSeqFound, n + 1, peer, rtt, start, step, from, clock, recovery)
    {
      hide Marked, EvenTime, InGap, ClampedTime;
      ghost var to, nodes := clock, missing.nodes;
      var now := ReadClock();
      MarkedNext(before, missing.entries, lastSeqFound, n, peer, rtt, start, step, from, to, recovery, now);
      missing.Append(peer, nackTime, missingSeq, rtt, now, recovery);
      assert missing.nodes == nodes + [missing.nodes[|missing.nodes| - 1]];
    }

    /** The loop of receiver_mark_missing. The bound on its turns is never reached. */
    method MarkLoop(peer: Config, bloat: bool, missingCounterMax: int, current: nat, rtt: nat, start: nat, step: nat)
      requires missing.Valid() && lastSeqFound < QUEUE_MAX && current < QUEUE_MAX
      modifies `clock, missing`missing, missing`missingTail, missing`nodes, missing`entries, missing.nodes`next
      ensures missing.Valid() && clock >= old(clock)
      ensures forall i :: 0 <= i < |missing.nodes| ==> missing.nodes[i] in old(missing.nodes) || fresh(missing.nodes[i])
      ensures Marked(old(missing.entries), missing.entries, lastSeqFound,
                     if bloat || missing.missingCounter > missingCounterMax then 0 else GapLength(lastSeqFound, current),
                     peer, rtt, start, step, old(clock), clock, recovery)
    {
      hide *;
      Sizes();
      EvenNext(start, step, 0);
      GapStarts(lastSeqFound, current);
      MarkedNone(missing.entries, lastSeqFound, peer, rtt, start, step, clock, clock, recovery);
      var counter, missingSeq, nackTime := 1, InGap(lastSeqFound, 0), start;
      ghost var before, nodes0 := missing.entries, missing.nodes;
      while missingSeq != current
        invariant 1 <= counter <= GapLength(lastSeqFound, current) + 1
        invariant missingSeq == InGap(lastSeqFound, counter - 1)
        invariant missing.Valid() && old(clock) <= clock
        invariant forall i :: 0 <= i < |missing.nodes| ==> missing.nodes[i] in nodes0 || fresh(missing.nodes[i])
        invariant nackTime == EvenTime(start, step, counter - 1)
        invariant Marked(before, missing.entries, lastSeqFound, counter - 1, peer, rtt, start, step, old(clock), clock, recovery)
        invariant counter > 1 ==> !bloat && missing.missingCounter <= missingCounterMax
        decreases GapLength(lastSeqFound, current) + 1 - counter
      {
        EvenNext(start, step, counter - 1);
        nackTime := (nackTime + step) % WORD64;
        if bloat || missing.missingCounter > missingCounterMax {
          break;
        }
        MarkOne(peer, nackTime, missingSeq, rtt, before, counter - 1, start, step, old(clock));
        GapGoesOn(lastSeqFound, current, counter - 1);
        if counter == QUEUE_MAX {
          break;
        }
        counter := counter + 1;
        missingSeq := InGap(lastSeqFound, counter - 1);
      }
      if missingSeq == current {
        GapStops(lastSeqFound, current, counter - 1);
      }
    }

    /** receiver_mark_missing: asks for every packet between the last one found and the one that came. */
    method MarkMissing(peer: Config, bloat: bool, missingCounterMax: int, current: nat, rtt: nat)
      returns (ghost start: nat)
      requires missing.Valid() && lastSeqFound < QUEUE_MAX && current < QUEUE_MAX == queue.Length && queue[current].Some?
      modifies `clock, missing`missing, missing`missingTail, missing`nodes, missing`entries, missing.nodes`next
      ensures missing.Valid() && clock >= old(clock) && StartsAt(queue[..], lastSeqFound, start)
      ensures forall i :: 0 <= i < |missing.nodes| ==> missing.nodes[i] in old(missing.nodes) || fresh(missing.nodes[i])
      ensures Marked(old(missing.entries), missing.entries, lastSeqFound,
                     MarkCount(lastSeqFound, current, bloat, missing.missingCounter, missingCounterMax),
                     peer, rtt, start, EvenStep(start, queue[current].value.packetTime, lastSeqFound, current),
                     old(clock), clock, recovery)
    {
      hide *;
      Sizes();
      MarkCounts(lastSeqFound, current, bloat, missing.missingCounter, missingCounterMax);
      var packetTimeLast;
      if queue[lastSeqFound] == None {
        packetTimeLast := ReadClock();
      } else {
        packetTimeLast := queue[lastSeqFound].value.packetTime;
      }
      start := packetTimeLast;
      StartsThere(queue[..], lastSeqFound, start);
      var step := EvenStep(packetTimeLast, queue[current].value.packetTime, lastSeqFound, current);
      if (current - lastSeqFound) % QUEUE_MAX > 32768 {
        MarkedNone(missing.entries, lastSeqFound, peer, rtt, start, step, old(clock), clock, recovery);
        return;
      }
      ghost var c := clock;
      MarkLoop(peer, bloat, missingCounterMax, current, rtt, packetTimeLast, step);
      MarkedEarlier(old(missing.entries), missing.entries, lastSeqFound,
                    MarkCount(lastSeqFound, current, bloat, missing.missingCounter, missingCounterMax),
                    peer, rtt, start, step, c, clock, recovery, old(clock));
    }

    /** Frees what the slot of an accepted packet still holds, whose bytes stay counted, and stores the packet. */
    method Store(a: Arrival, ghost v: Verdict) returns (ghost b: Buffer)
      requires Inv(View(), run) && a.seqNum < QUEUE_MAX && a.data != [] && hasItems && v.Accepted?
      modifies queue, `queueSize, `clock, `run, `received
      ensures Inv(View(), run) && old(clock) <= b.time <= clock
      ensures Arrived(old(View()), old(Taken()), old(run), a, v, b, View(), IntakeAfter(old(Taken()), v, a), run, recovery)
      ensures Taken() == old(Taken()).(received := old(received) + 1) && queue.Length == QUEUE_MAX
      ensures queue[a.seqNum] == Some(b) && b.packetTime == a.packetTime
      ensures lastSeqFound < QUEUE_MAX && lastSeqFound != a.seqNum ==> queue[lastSeqFound] == old(queue[lastSeqFound])
    {
      hide *;
      Fields();
      Shape(View(), run);
      ghost var s, k, r := View(), Taken(), run;
      if queue[a.seqNum].Some? {
        run := run.(discarded := run.discarded + multiset{queue[a.seqNum].value});
        queue[a.seqNum] := None;
        assert queue[..] == s.queue[a.seqNum := None];
      }
      Fields();
      ghost var s1, r1 := View(), run;
      b := Insert(a, v, a.packetTime);
      Fields();
      received := received + 1;
      Fields();
      Replaced(s, k, r, a, v, b, s1, r1, clock, recovery);
    }

    /** A packet that is too late; too many of those and the next one is a first packet. */
    method DropLate()
      modifies `droppedLate, `hasItems
      ensures droppedLate == old(droppedLate) + 1 && hasItems == (old(hasItems) && KeepsItems(Late, old(Taken())))
    {
      droppedLate := droppedLate + 1;
      if droppedLate > 5 * received {
        hasItems := false;
      }
      if (droppedLate > received * 5 && received > 100) || (droppedLate > 100 && received == 0) {
        hasItems := false;
      }
    }

    /** A packet one round ahead of the output. */
    method DropFull(a: Arrival)
      requires a.seqNum < QUEUE_MAX
      modifies `droppedFull, `hasItems, `lastSeqFound
      ensures Taken() == IntakeAfter(old(Taken()), Full, a) && hasItems == (old(hasItems) && KeepsItems(Full, old(Taken())))
    {
      if a.packetTime > a.lastPacketTs {
        lastSeqFound := a.seqNum;
      }
      droppedFull := droppedFull + 1;
      if droppedFull > 100 {
        hasItems := false;
      }
    }

    /** What becomes of an arriving packet. */
    method Judge(a: Arrival) returns (v: Verdict)
      requires a.seqNum < queue.Length == QUEUE_MAX
      ensures v == VerdictOf(View(), lastSeqFound, a, recovery)
    {
      if !hasItems {
        if a.retry {
          return Refused;
        }
        return First;
      }
      var outOfOrder := false;
      if a.packetTime < a.lastPacketTs && a.seqNum != Expected(lastSeqFound) {
        if 10 * a.now > 10 * a.packetTime + 11 * recovery {
          return Late;
        }
        if !a.retry {
          outOfOrder := true;
        }
      }
      if a.seqNum == (outputIdx - 1) % QUEUE_MAX {
        return Full;
      }
      if queue[a.seqNum].Some? {
        if queue[a.seqNum].value.sourceTime == a.sourceTime {
          return Dupe;
        }
      }
      v := Accepted(outOfOrder);
    }

    /** A packet that is not stored. */
    method TurnAway(a: Arrival, v: Verdict, ghost link: GapLink) returns (ghost b: Buffer)
      requires Valid() && a.seqNum < QUEUE_MAX && !v.First? && !v.Accepted?
      modifies `hasItems, `lastSeqFound, `droppedLate, `droppedFull
      ensures Valid() && |old(queue[..])| == QUEUE_MAX
      ensures Arrived(old(View()), old(Taken()), old(run), a, v, b, View(), Taken(), run, recovery)
      ensures MissingAfter(missing.entries, missing.entries, old(View()), old(lastSeqFound), v, a, link, 0, clock, clock, recovery)
    {
      Shape(View(), run);
      b := Stored(a, v, 0, recovery);
      Untouched(View(), Taken(), run, a, v, b, recovery);
      hide Inv, Arrived;
      if v.Late? {
        DropLate();
      } else if v.Full? {
        DropFull(a);
      }
    }

    /** Asks for what should have come before a stored packet, if it came in order. */
    method MarkGap(a: Arrival, outOfOrder: bool, peer: Config, bloat: bool, missingCounterMax: int, rtt: nat,
                   ghost s: State, ghost k: Intake, ghost from: nat)
      returns (ghost start: nat)
      requires missing.Valid() && lastSeqFound < QUEUE_MAX && a.seqNum < QUEUE_MAX == queue.Length == |s.queue| && from <= clock
      requires queue[a.seqNum].Some? && queue[a.seqNum].value.packetTime == a.packetTime
      requires Taken() == k.(received := k.received + 1)
      requires lastSeqFound != a.seqNum ==> queue[lastSeqFound] == s.queue[lastSeqFound]
      modifies `clock, `lastSeqFound, missing`missing, missing`missingTail, missing`nodes, missing`entries,
               missing.nodes`next
      ensures missing.Valid() && lastSeqFound < QUEUE_MAX && clock >= old(clock)
      ensures forall i :: 0 <= i < |missing.nodes| ==> missing.nodes[i] in old(missing.nodes) || fresh(missing.nodes[i])
      ensures Taken() == IntakeAfter(k, Accepted(outOfOrder), a)
      ensures MissingAfter(old(missing.entries), missing.entries, s, old(lastSeqFound), Accepted(outOfOrder), a,
                           GapLink(peer, rtt, bloat, old(missing.missingCounter), missingCounterMax),
                           start, from, clock, recovery)
    {
      hide *;
      Sizes();
      Fields();
      GapTaken(k, outOfOrder, a);
      start := 0;
      if !a.retry && !outOfOrder {
        if (a.seqNum - 1) % QUEUE_MAX != lastSeqFound {
          ghost var c, link := clock, GapLink(peer, rtt, bloat, missing.missingCounter, missingCounterMax);
          start := MarkMissing(peer, bloat, missingCounterMax, a.seqNum, rtt);
          MarkedEarlier(old(missing.entries), missing.entries, lastSeqFound,
                        MarkCount(lastSeqFound, a.seqNum, bloat, missing.missingCounter, missingCounterMax), peer, rtt,
                        start, EvenStep(start, a.packetTime, lastSeqFound, a.seqNum), c, clock, recovery, from);
          StartsAsBefore(queue[..], s, lastSeqFound, a, start);
          MissingMarked(old(missing.entries), missing.entries, s, lastSeqFound, outOfOrder, a, link, start, from, clock, recovery);
        }
        lastSeqFound := a.seqNum;
      }
      Fields();
      MissingKept(missing.entries, s, old(lastSeqFound), outOfOrder, a,
                  GapLink(peer, rtt, bloat, missing.missingCounter, missingCounterMax), start, from, clock, recovery);
    }

    /** A packet that is stored, and the gap before it. */
    method TakeIn(a: Arrival, outOfOrder: bool, peer: Config, bloat: bool, missingCounterMax: int, rtt: nat)
      returns (ghost b: Buffer, ghost start: nat)
      requires Valid() && a.seqNum < QUEUE_MAX && a.data != [] && hasItems
      modifies queue, `queueSize, `clock, `run, `received, `lastSeqFound,
               missing`missing, missing`missingTail, missing`nodes, missing`entries, missing.nodes`next
      ensures Valid() && clock >= old(clock) && |old(queue[..])| == QUEUE_MAX
      ensures forall i :: 0 <= i < |missing.nodes| ==> missing.nodes[i] in old(missing.nodes) || fresh(missing.nodes[i])
      ensures Arrived(old(View()), old(Taken()), old(run), a, Accepted(outOfOrder), b, View(), Taken(), run, recovery)
      ensures MissingAfter(old(missing.entries), missing.entries, old(View()), old(lastSeqFound), Accepted(outOfOrder), a,
                           GapLink(peer, rtt, bloat, old(missing.missingCounter), missingCounterMax),
                           start, old(clock), clock, recovery)
    {
      hide *;
      Fields();
      Parts();
      Shape(View(), run);
      ghost var s, k := View(), Taken();
      b := Store(a, Accepted(outOfOrder));
      Fields();
      Parts();
      start := MarkGap(a, outOfOrder, peer, bloat, missingCounterMax, rtt, s, k, old(clock));
      Fields();
      Parts();
    }

    /** A first packet, which makes everything missing so far forgotten. */
    method StartFlow(a: Arrival, ghost link: GapLink) returns (ghost b: Buffer)
      requires Valid() && a.seqNum < QUEUE_MAX && a.data != []
      modifies queue, `hasItems, `queueSize, `outputIdx, `bufferStart, `lastSeqOutput, `clock, `run,
               `lastSeqFound, `received, `droppedLate, `droppedFull,
               missing`missing, missing`missingCounter, missing`nodes, missing`entries
      ensures Valid() && clock >= old(clock) && |old(queue[..])| == QUEUE_MAX && missing.nodes == []
      ensures Arrived(old(View()), old(Taken()), old(run), a, First, b, View(), Taken(), run, recovery)
      ensures MissingAfter(old(missing.entries), missing.entries, old(View()), old(lastSeqFound), First, a,
                           link, 0, old(clock), clock, recovery)
    {
      hide *;
      Fields();
      Parts();
      Shape(View(), run);
      missing.Flush();
      Fields();
      Parts();
      b := Start(a);
      MissingForgotten(old(missing.entries), old(View()), old(lastSeqFound), a, link, old(clock), clock, recovery);
      Fields();
      Parts();
    }

    /**
      receiver_enqueue: refuses, drops or stores a packet, starts a flow with it, or asks
      for those that should have come before it.
     */
    method Enqueue(a: Arrival, peer: Config, bloat: bool, missingCounterMax: int, rtt: nat)
      returns (ret: int, v: Verdict, ghost b: Buffer, ghost start: nat)
      requires Valid() && a.seqNum < QUEUE_MAX && a.data != []
      modifies queue, `hasItems, `queueSize, `outputIdx, `bufferStart, `lastSeqOutput, `clock, `run,
               `lastSeqFound, `received, `droppedLate, `droppedFull, missing`missing, missing`missingTail,
               missing`missingCounter, missing`nodes, missing`entries, missing.nodes`next
      ensures Valid() && clock >= old(clock)
      ensures forall i :: 0 <= i < |missing.nodes| ==> missing.nodes[i] in old(missing.nodes) || fresh(missing.nodes[i])
      ensures |old(queue[..])| == QUEUE_MAX && v == VerdictOf(old(View()), old(lastSeqFound), a, recovery)
      ensures ret == Returned(v)
      ensures Arrived(old(View()), old(Taken()), old(run), a, v, b, View(), Taken(), run, recovery)
      ensures MissingAfter(old(missing.entries), missing.entries, old(View()), old(lastSeqFound), v, a,
                           GapLink(peer, rtt, bloat, old(missing.missingCounter), missingCounterMax),
                           start, old(clock), clock, recovery)
    {
      hide *;
      Fields();
      Parts();
      Shape(View(), run);
      JudgeMeans(View(), lastSeqFound, a, recovery);
      Returns();
      start := 0;
      v := Judge(a);
      ghost var link := GapLink(peer, rtt, bloat, missing.missingCounter, missingCounterMax);
      match v {
        case First =>
          b := StartFlow(a, link);
          ret := 0;
        case Accepted(outOfOrder) =>
          b, start := TakeIn(a, outOfOrder, peer, bloat, missingCounterMax, rtt);
          ret := 0;
        case Dupe =>
          b := TurnAway(a, v, link);
          ret := 1;
        case _ =>
          b := TurnAway(a, v, link);
          ret := -1;
      }
    }

    /**
      receiver_nack_output on this ring: in every slot it looks at stands the packet it
      asks for or none, so it never finds a wrong one.
     */
    method RequestMissing(peers: seq<RtcpPeer>, readings: nat -> Reading, authenticated: bool) returns (groups: seq<Group>)
      requires Valid()
      modifies missing`missing, missing`missingTail, missing`missingCounter, missing`nodes, missing`entries,
               missing`nacksCounter, missing.nodes, missing.nacks
      ensures Valid() && SlotsMatch(queue[..]) && WellFormed(old(missing.entries)) && Within(missing.nodes, old(missing.nodes))
      ensures Numbers(old(missing.nacks[..missing.nacksCounter])) ==> Numbers(missing.nacks[..missing.nacksCounter])
      ensures missing.entries == if authenticated then Survivors(old(missing.entries), queue[..], readings, recovery)
                                 else old(missing.entries)
      ensures authenticated ==> AllMissing(missing.entries, queue[..])
      ensures authenticated && HasLivePeer(peers) && old(missing.nacksCounter) < RIST_MAX_NACKS ==>
                Flatten(groups) == old(missing.nacks[..missing.nacksCounter])
                                   + Due(old(missing.entries), queue[..], readings, recovery)
                && NoneCame(Due(old(missing.entries), queue[..], readings, recovery), queue[..])
    {
      hide Continuous, Conserved, Bytes, Requested, Survivors, Due, Flatten, HasLivePeer, OutputKnown, AllMissing, NoneCame;
      groups := missing.NackPass(queue, peers, readings, recovery, authenticated);
    }
  }
}
