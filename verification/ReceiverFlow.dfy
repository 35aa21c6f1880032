/**
  The receiver of a flow: queueing a packet (librist-master/src/rist-common.c:420-715),
  the output pass (librist-master/src/rist-common.c:847-1040) and emptying the ring
  (librist-master/src/flow.c:46-64). Every packet time and clock reading is an input.
 */
module ReceiverFlow {
  import opened Arithmetic
  import opened Wrappers
  import opened ReorderRing
  import opened MissingQueue

  /** A block handed to the application. */
  datatype Block = Block(buffer: Buffer, discontinuity: bool, bufferStart: bool)

  /** The fields of the flow that queueing and output change. */
  datatype State = State(queue: Ring, hasItems: bool, queueSize: int, outputIdx: nat, bufferStart: bool,
                         lastSeqOutput: nat, tooLateCtr: nat, lastOutputTime: nat)

  /** The run so far: packets accepted, packets freed unseen, blocks delivered. */
  datatype Run = Run(inserted: multiset<Buffer>, discarded: multiset<Buffer>, delivered: seq<Block>)

  // ----- what every run keeps -----

  /** A block without a mark follows the one delivered just before it. */
  ghost predicate Continuous(delivered: seq<Block>) {
    forall k :: 0 <= k < |delivered| && !delivered[k].discontinuity && !delivered[k].bufferStart ==>
      k > 0 && delivered[k].buffer.seqNum == Successor(delivered[k - 1].buffer.seqNum)
  }

  /** How often x was delivered. */
  ghost function Delivered(delivered: seq<Block>, x: Buffer): nat {
    if delivered == [] then 0
    else Delivered(delivered[..|delivered| - 1], x) + (if delivered[|delivered| - 1].buffer == x then 1 else 0)
  }

  lemma DeliveredAppend(delivered: seq<Block>, b: Block, x: Buffer)
    ensures Delivered(delivered + [b], x) == Delivered(delivered, x) + (if b.buffer == x then 1 else 0)
  {
    assert (delivered + [b])[..|delivered|] == delivered;
  }

  /** Every packet accepted is waiting, was delivered, or was freed, once for each time it was accepted. */
  ghost predicate Conserved(queue: Ring, r: Run) {
    forall x: Buffer :: r.inserted[x] == Held(queue, x) + r.discarded[x] + Delivered(r.delivered, x)
  }

  /** Where the sequence numbers of output stand: the next block will be marked as a start, or follows the last one delivered. */
  ghost predicate OutputKnown(s: State, r: Run) {
    if s.bufferStart then true
    else if r.delivered == [] then !s.hasItems && AllEmpty(s.queue)
    else s.lastSeqOutput == r.delivered[|r.delivered| - 1].buffer.seqNum
  }

  ghost predicate Inv(s: State, r: Run) {
    && SlotsMatch(s.queue) && s.outputIdx < QUEUE_MAX
    && s.queueSize >= Bytes(s.queue, QUEUE_MAX)
    && OutputKnown(s, r)
    && Continuous(r.delivered)
    && Conserved(s.queue, r)
  }

  // ----- steps -----

  /** receiver_insert_queue_packet. */
  function Inserted(s: State, b: Buffer): State
    requires b.seqNum < |s.queue|
  {
    s.(queue := s.queue[b.seqNum := Some(b)], queueSize := s.queueSize + |b.data|)
  }

  lemma InsertKeepsInv(s: State, r: Run, b: Buffer)
    requires Inv(s, r) && b.seqNum < QUEUE_MAX && b.data != []
    requires s.queue[b.seqNum] == None && (s.bufferStart || r.delivered != [])
    ensures Inv(Inserted(s, b), r.(inserted := r.inserted + multiset{b}))
  {
    UpdateBytes(s.queue, QUEUE_MAX, b.seqNum, Some(b));
  }

  /** The packet in slot i is freed; only output gives its bytes back. */
  lemma FreeKeepsInv(s: State, r: Run, i: nat, bytes: nat)
    requires Inv(s, r) && i < QUEUE_MAX && s.queue[i].Some? && bytes <= |s.queue[i].value.data|
    ensures Inv(s.(queue := s.queue[i := None], queueSize := s.queueSize - bytes),
                r.(discarded := r.discarded + multiset{s.queue[i].value}))
    ensures s.queueSize >= |s.queue[i].value.data|
  {
    UpdateBytes(s.queue, QUEUE_MAX, i, None);
    OccupiedHasWeight(s.queue, QUEUE_MAX, i);
  }

  /** The block made from slot i: marked when holes were skipped or its number is not the expected one. */
  function BlockFor(s: State, i: nat, holes: bool): Block
    requires i < |s.queue| && s.queue[i].Some?
  {
    var b := s.queue[i].value;
    Block(b, holes || b.seqNum != (s.lastSeqOutput + 1) % QUEUE_MAX, s.bufferStart)
  }

  /** The state after the packet in slot i was delivered and taken out. */
  function Released(s: State, i: nat, now: nat): State
    requires i < |s.queue| && s.queue[i].Some?
  {
    var b := s.queue[i].value;
    s.(queue := s.queue[i := None], queueSize := s.queueSize - |b.data|, bufferStart := false,
       lastSeqOutput := b.seqNum, tooLateCtr := 0, lastOutputTime := now)
  }

  lemma DeliverKeepsInv(s: State, r: Run, i: nat, holes: bool, now: nat)
    requires Inv(s, r) && i < QUEUE_MAX && s.queue[i].Some?
    ensures s.queueSize >= |s.queue[i].value.data|
    ensures Inv(Released(s, i, now), r.(delivered := r.delivered + [BlockFor(s, i, holes)]))
  {
    var b := s.queue[i].value;
    UpdateBytes(s.queue, QUEUE_MAX, i, None);
    OccupiedHasWeight(s.queue, QUEUE_MAX, i);
    forall x: Buffer
      ensures Delivered(r.delivered + [BlockFor(s, i, holes)], x)
              == Delivered(r.delivered, x) + (if b == x then 1 else 0)
    {
      DeliveredAppend(r.delivered, BlockFor(s, i, holes), x);
    }
    if r.delivered == [] && !s.bufferStart {
      assert false;
    }
  }

  // ----- the output pass, turn by turn -----

  /** What one turn of the output loop finds. */
  datatype Turn = Wait | NothingFound | GiveUp | Drop(slot: nat) | Release(slot: nat, holes: bool)

  /**
    The next packet is the first one from the output index on. It waits until its output
    time, unless it has been held for long; one held for more than twice the buffer time
    is dropped, and too many of those in a row end the pass.
   */
  ghost function TurnOf(s: State, now: nat, now': nat, recovery: nat, scaling: bool): Turn
    requires |s.queue| == QUEUE_MAX
  {
    var d := Distance(s.queue, s.outputIdx, 0);
    if d == QUEUE_MAX then NothingFound
    else
      var i := Behind(s.outputIdx, d);
      var b := s.queue[i].value;
      var delay := Sub64(now', b.time);
      if d > 0 && Sub64(now, b.time) <= 2 * recovery && b.targetOutputTime > now then Wait
      else if 10 * delay > 11 * recovery then
        if delay > 2 * recovery then (if s.tooLateCtr + 1 > 100 then GiveUp else Drop(i)) else Release(i, d > 0)
      else if b.targetOutputTime > now' && (!scaling || b.packetTime + recovery > now') then Wait
      else Release(i, d > 0)
  }

  /** The end of a turn that took a packet out of slot i: an empty ring that stayed silent for long restarts the flow. */
  function TakenOut(s: State, i: nat, now': nat, recovery: nat): State {
    var idle := if s.lastOutputTime == 0 then 0 else Sub64(now', s.lastOutputTime);
    if s.queueSize != 0 then s.(outputIdx := (i + 1) % QUEUE_MAX, lastOutputTime := now')
    else s.(outputIdx := (i + 1) % QUEUE_MAX, hasItems := s.hasItems && idle <= recovery,
            lastOutputTime := if s.lastOutputTime == 0 then now' else s.lastOutputTime)
  }

  function AfterTurn(s: State, turn: Turn, now': nat, recovery: nat): State
    requires turn.Drop? || turn.Release? ==> turn.slot < |s.queue| && s.queue[turn.slot].Some?
  {
    match turn
    case Wait => s
    case NothingFound => s.(hasItems := false, queueSize := 0)
    case GiveUp => s.(hasItems := false, tooLateCtr := s.tooLateCtr + 1)
    case Drop(i) =>
      TakenOut(s.(queue := s.queue[i := None], queueSize := s.queueSize - |s.queue[i].value.data|,
                  tooLateCtr := s.tooLateCtr + 1), i, now', recovery)
    case Release(i, holes) => TakenOut(Released(s, i, now'), i, now', recovery)
  }

  function RunAfterTurn(s: State, r: Run, turn: Turn): Run
    requires turn.Drop? || turn.Release? ==> turn.slot < |s.queue| && s.queue[turn.slot].Some?
  {
    match turn
    case Drop(i) => r.(discarded := r.discarded + multiset{s.queue[i].value})
    case Release(i, holes) => r.(delivered := r.delivered + [BlockFor(s, i, holes)])
    case _ => r
  }

  lemma SlotHolds(s: State, r: Run, i: nat)
    requires Inv(s, r) && i < |s.queue| && s.queue[i].Some?
    ensures s.queue[i].value.data != [] && s.queue[i].value.seqNum == i
  {
  }

  lemma Shape(s: State, r: Run)
    requires Inv(s, r)
    ensures |s.queue| == QUEUE_MAX && s.outputIdx < QUEUE_MAX && s.queueSize >= 0
  {
  }

  lemma ResetKeepsInv(s: State, r: Run, tooLateCtr: nat, empty: bool)
    requires Inv(s, r) && (empty ==> AllEmpty(s.queue))
    ensures Inv(s.(hasItems := false, tooLateCtr := tooLateCtr, queueSize := if empty then 0 else s.queueSize), r)
  {
    hide Continuous, Conserved;
    if empty {
      EmptyHasNothing(s.queue, QUEUE_MAX);
    }
  }

  lemma CountKeepsInv(s: State, r: Run, tooLateCtr: nat)
    requires Inv(s, r)
    ensures Inv(s.(tooLateCtr := tooLateCtr), r)
  {
    hide Continuous, Conserved, Bytes, SlotsMatch;
  }

  lemma TakenOutKeepsInv(s: State, r: Run, i: nat, now': nat, recovery: nat)
    requires Inv(s, r)
    ensures Inv(TakenOut(s, i, now', recovery), r)
  {
    hide Continuous, Conserved, Bytes, SlotsMatch;
  }

  lemma TurnKeepsInv(s: State, r: Run, now: nat, now': nat, recovery: nat, scaling: bool)
    requires Inv(s, r)
    ensures var turn := TurnOf(s, now, now', recovery, scaling);
            && (turn.Drop? || turn.Release? ==> turn.slot < |s.queue| && s.queue[turn.slot].Some?
                                                && s.queueSize >= |s.queue[turn.slot].value.data| > 0)
            && (turn == NothingFound ==> AllEmpty(s.queue))
            && Inv(AfterTurn(s, turn, now', recovery), RunAfterTurn(s, r, turn))
  {
    hide Inv, TakenOut, Released, BlockFor;
    Shape(s, r);
    var turn := TurnOf(s, now, now', recovery, scaling);
    match turn
    case Wait =>
    case NothingFound =>
      DistanceMeansEmpty(s.queue, s.outputIdx);
      ResetKeepsInv(s, r, s.tooLateCtr, true);
    case GiveUp =>
      ResetKeepsInv(s, r, s.tooLateCtr + 1, false);
    case Drop(i) =>
      SlotHolds(s, r, i);
      FreeKeepsInv(s, r, i, |s.queue[i].value.data|);
      var s1 := s.(queue := s.queue[i := None], queueSize := s.queueSize - |s.queue[i].value.data|);
      var r1 := r.(discarded := r.discarded + multiset{s.queue[i].value});
      CountKeepsInv(s1, r1, s.tooLateCtr + 1);
      TakenOutKeepsInv(s1.(tooLateCtr := s.tooLateCtr + 1), r1, i, now', recovery);
    case Release(i, holes) =>
      SlotHolds(s, r, i);
      DeliverKeepsInv(s, r, i, holes, now');
      TakenOutKeepsInv(Released(s, i, now'), r.(delivered := r.delivered + [BlockFor(s, i, holes)]), i, now', recovery);
  }

  /** When a packet may leave: it is due, it was held for long, or the buffer is being scaled and its time is up. */
  predicate MayLeave(b: Buffer, t: nat, recovery: nat, scaling: bool) {
    || b.targetOutputTime <= t
    || 10 * Sub64(t, b.time) > 11 * recovery
    || (scaling && b.packetTime + recovery <= t)
  }

  ghost predicate LeftWithin(b: Block, from: nat, to: nat, recovery: nat, scaling: bool) {
    exists t: nat :: from <= t <= to && MayLeave(b.buffer, t, recovery, scaling)
  }

  /**
    Scaling lets a packet go early exactly while the buffer is shorter than when the packet
    came, from the output time it would have now until the one it was given then.
   */
  lemma ScalingLetsGo(b: Buffer, t: nat, recovery: nat, recoveryThen: nat)
    requires b.targetOutputTime == b.packetTime + recoveryThen && 10 * Sub64(t, b.time) <= 11 * recovery
    ensures MayLeave(b, t, recovery, true) && !MayLeave(b, t, recovery, false)
            <==> b.packetTime + recovery <= t < b.packetTime + recoveryThen
  {
    hide Sub64;
  }

  /** From the base-th on, every block left at a moment between from and to when it was allowed to. */
  ghost predicate LeftInTime(delivered: seq<Block>, base: nat, from: nat, to: nat, recovery: nat, scaling: bool) {
    forall k :: base <= k < |delivered| ==> LeftWithin(delivered[k], from, to, recovery, scaling)
  }

  lemma LeftLater(delivered: seq<Block>, base: nat, from: nat, to: nat, to': nat, recovery: nat, scaling: bool)
    requires LeftInTime(delivered, base, from, to, recovery, scaling) && to <= to'
    ensures LeftInTime(delivered, base, from, to', recovery, scaling)
  {
    hide MayLeave;
  }

  lemma LeftAppend(delivered: seq<Block>, b: Block, base: nat, from: nat, to: nat, t: nat, recovery: nat, scaling: bool)
    requires LeftInTime(delivered, base, from, to, recovery, scaling)
    requires from <= t <= to && MayLeave(b.buffer, t, recovery, scaling)
    ensures LeftInTime(delivered + [b], base, from, to, recovery, scaling)
  {
    hide MayLeave;
    assert LeftWithin(b, from, to, recovery, scaling);
  }

  /** No turn lets a packet go early. */
  lemma NoneLeavesEarly(s: State, r: Run, base: nat, from: nat, to: nat, now: nat, now': nat, to': nat, recovery: nat,
                        scaling: bool)
    requires Inv(s, r) && LeftInTime(r.delivered, base, from, to, recovery, scaling)
    requires from <= now' <= to' && to <= to'
    ensures var turn := TurnOf(s, now, now', recovery, scaling);
            && (turn.Drop? || turn.Release? ==> turn.slot < |s.queue| && s.queue[turn.slot].Some?)
            && LeftInTime(RunAfterTurn(s, r, turn).delivered, base, from, to', recovery, scaling)
  {
    hide Inv, LeftInTime;
    Shape(s, r);
    LeftLater(r.delivered, base, from, to, to', recovery, scaling);
    var turn := TurnOf(s, now, now', recovery, scaling);
    if turn.Release? {
      LeftAppend(r.delivered, BlockFor(s, turn.slot, turn.holes), base, from, to', now', recovery, scaling);
    }
  }

  /** What a turn says about going on: it took a packet out and bytes are left. */
  predicate GoesOn(s: State, turn: Turn)
  {
    (turn.Drop? || turn.Release?) && s.queueSize != 0
  }

  // ----- what becomes of the first packet -----

  /** The packet that output comes to next: the first one from the output index on. */
  ghost function Head(s: State): Option<Buffer>
    requires |s.queue| == QUEUE_MAX
  {
    var d := Distance(s.queue, s.outputIdx, 0);
    if d == QUEUE_MAX then None else s.queue[Behind(s.outputIdx, d)]
  }

  /** Held for more than twice the buffer time. */
  predicate OutOfDate(b: Buffer, t: nat, recovery: nat) {
    Sub64(t, b.time) > 2 * recovery
  }

  /** Its output time is still to come, and it is not out of date. */
  predicate Ahead(b: Buffer, t: nat, recovery: nat) {
    b.targetOutputTime > t && !OutOfDate(b, t, recovery)
  }

  /**
    Behind empty slots the first packet waits as long as it is ahead. Apart from that it
    is delivered as soon as it may leave, unless it is out of date: then it is dropped, or
    the pass given up after a hundred such packets in a row. In every other case it waits.
   */
  lemma TurnMeaning(s: State, now: nat, now': nat, recovery: nat, scaling: bool)
    requires |s.queue| == QUEUE_MAX
    ensures var turn, d := TurnOf(s, now, now', recovery, scaling), Distance(s.queue, s.outputIdx, 0);
            && (turn.NothingFound? <==> Head(s) == None)
            && (Head(s).Some? ==>
                  var i, b := Behind(s.outputIdx, d), Head(s).value;
                  var waits := d > 0 && Ahead(b, now, recovery);
                  && (turn == Release(i, d > 0)
                      <==> !waits && MayLeave(b, now', recovery, scaling) && !OutOfDate(b, now', recovery))
                  && (turn == Drop(i) <==> !waits && OutOfDate(b, now', recovery) && s.tooLateCtr < 100)
                  && (turn == GiveUp <==> !waits && OutOfDate(b, now', recovery) && s.tooLateCtr >= 100)
                  && (turn == Wait <==> waits || !MayLeave(b, now', recovery, scaling)))
  {
    hide Sub64, Behind, Distance;
  }

  /** So no packet that comes due in time is lost. */
  lemma DueIsDelivered(s: State, now: nat, now': nat, recovery: nat, scaling: bool)
    requires |s.queue| == QUEUE_MAX && Head(s).Some? && now <= now'
    requires Head(s).value.targetOutputTime <= now && !OutOfDate(Head(s).value, now', recovery)
    ensures var turn := TurnOf(s, now, now', recovery, scaling);
            turn.Release? && turn.slot < QUEUE_MAX && s.queue[turn.slot] == Head(s)
  {
    TurnMeaning(s, now, now', recovery, scaling);
    hide TurnOf, Sub64;
  }

  /**
    Without holes before it and without scaling, the first packet is delivered from its
    output time on, or once it was held for more than 1.1 times the buffer time, and it is
    not delivered any more once it was held for more than twice that time.
   */
  lemma WaitsItsTime(s: State, now: nat, now': nat, recovery: nat)
    requires |s.queue| == QUEUE_MAX && Head(s).Some? && Distance(s.queue, s.outputIdx, 0) == 0
    ensures var turn, b := TurnOf(s, now, now', recovery, false), Head(s).value;
            var held := (now' - b.time) % 0x1_0000_0000_0000_0000;
            && (turn.Wait? <==> now' < b.targetOutputTime && 10 * held <= 11 * recovery)
            && (turn.Release? <==> (b.targetOutputTime <= now' || 10 * held > 11 * recovery) && held <= 2 * recovery)
            && (turn.Drop? || turn.GiveUp? <==> held > 2 * recovery)
  {
    hide Behind, Distance;
  }

  /**
    After a delivery output goes on at the next number: if that packet is there, it is
    the first one, and its block is not marked in any way.
   */
  lemma InOrderIsUnmarked(s: State, r: Run, now: nat, now': nat, recovery: nat, scaling: bool)
    requires Inv(s, r) && TurnOf(s, now, now', recovery, scaling).Release?
    ensures var turn := TurnOf(s, now, now', recovery, scaling);
            && turn.slot < QUEUE_MAX == |s.queue| && s.queue[turn.slot].Some?
            && var s', n := AfterTurn(s, turn, now', recovery), Successor(turn.slot);
               && |s'.queue| == QUEUE_MAX && s'.hasItems == s.hasItems && s'.tooLateCtr == 0 && s'.lastOutputTime == now'
               && (s.queue[n].Some? && n != turn.slot ==>
                     && s'.queue[n] == s.queue[n] && Head(s') == s.queue[n] && Distance(s'.queue, s'.outputIdx, 0) == 0
                     && BlockFor(s', n, false) == Block(s.queue[n].value, false, false))
  {
    Shape(s, r);
    var turn := TurnOf(s, now, now', recovery, scaling);
    SlotHolds(s, r, turn.slot);
    var s', n := AfterTurn(s, turn, now', recovery), Successor(turn.slot);
    hide Inv, TurnOf, Sub64;
    if s.queue[n].Some? && n != turn.slot {
      SlotHolds(s, r, n);
      assert Behind(s'.outputIdx, 0) == n;
    }
  }

  /**
    Dropping the last packet restarts the flow exactly if nothing was delivered or taken
    out for longer than the buffer time; the counter of drops in a row goes on.
   */
  lemma DropMeaning(s: State, i: nat, now': nat, recovery: nat)
    requires i < |s.queue| == QUEUE_MAX && s.queue[i].Some?
    ensures var s' := AfterTurn(s, Drop(i), now', recovery);
            && s'.tooLateCtr == s.tooLateCtr + 1 && s'.bufferStart == s.bufferStart && s'.lastSeqOutput == s.lastSeqOutput
            && s'.outputIdx == Successor(i)
            && s'.lastOutputTime == (if s.queueSize != |s.queue[i].value.data| || s.lastOutputTime == 0 then now'
                                     else s.lastOutputTime)
            && (s'.hasItems <==> s.hasItems && (s.queueSize != |s.queue[i].value.data| || s.lastOutputTime == 0
                                                || Sub64(now', s.lastOutputTime) <= recovery))
  {
    hide Sub64;
  }

  /** Why a pass stopped at its first packet: it is ahead, or there were too many that were out of date. */
  ghost predicate StoppedAt(s: State, b: Buffer, t: nat, recovery: nat) {
    Ahead(b, t, recovery) || (OutOfDate(b, t, recovery) && s.tooLateCtr > 100 && !s.hasItems)
  }

  ghost predicate Stopped(s: State, from: nat, to: nat, recovery: nat)
    requires |s.queue| == QUEUE_MAX
  {
    Head(s).Some? && exists t: nat :: from <= t <= to && StoppedAt(s, Head(s).value, t, recovery)
  }

  /** What may not leave yet is ahead. */
  lemma NotOld(s: State, t: nat, recovery: nat, scaling: bool)
    requires |s.queue| == QUEUE_MAX
    ensures Head(s).Some? && !MayLeave(Head(s).value, t, recovery, scaling) ==> Ahead(Head(s).value, t, recovery)
  {
    hide Sub64, Head;
  }

  /** A turn that does not go on leaves no bytes, or a first packet that has a reason to stay. */
  lemma StopMeans(s: State, r: Run, now: nat, now': nat, recovery: nat, scaling: bool)
    requires Inv(s, r) && now <= now'
    ensures var turn := TurnOf(s, now, now', recovery, scaling);
            && (turn.Drop? || turn.Release? ==> turn.slot < |s.queue| && s.queue[turn.slot].Some?)
            && var s' := AfterTurn(s, turn, now', recovery);
               && |s'.queue| == QUEUE_MAX
               && (!GoesOn(s', turn) ==> s'.queueSize == 0 || Stopped(s', now, now', recovery))
  {
    TurnKeepsInv(s, r, now, now', recovery, scaling);
    Shape(s, r);
    TurnMeaning(s, now, now', recovery, scaling);
    NotOld(s, now', recovery, scaling);
    var turn := TurnOf(s, now, now', recovery, scaling);
    var s' := AfterTurn(s, turn, now', recovery);
    hide Inv, TurnOf, Distance, Behind, MayLeave, Ahead, OutOfDate;
    if turn.Wait? {
      assert StoppedAt(s', Head(s').value, now, recovery) || StoppedAt(s', Head(s').value, now', recovery);
    } else if turn.GiveUp? {
      assert StoppedAt(s', Head(s').value, now', recovery);
    }
  }

  lemma StoppedLater(s: State, from: nat, to: nat, from': nat, to': nat, recovery: nat)
    requires |s.queue| == QUEUE_MAX && Stopped(s, from, to, recovery) && from' <= from && to <= to'
    ensures Stopped(s, from', to', recovery)
  {
    hide StoppedAt, Head;
  }

  ghost predicate WasOld(x: Buffer, from: nat, to: nat, recovery: nat) {
    exists t: nat :: from <= t <= to && OutOfDate(x, t, recovery)
  }

  /** What was freed from before on was out of date at some moment between from and to. */
  ghost predicate FreedOld(before: multiset<Buffer>, discarded: multiset<Buffer>, from: nat, to: nat, recovery: nat) {
    before <= discarded && forall x: Buffer :: discarded[x] > before[x] ==> WasOld(x, from, to, recovery)
  }

  /** Output frees nothing but what is out of date. */
  lemma OnlyOldIsFreed(s: State, r: Run, before: multiset<Buffer>, from: nat, to: nat, now: nat, now': nat, to': nat,
                       recovery: nat, scaling: bool)
    requires Inv(s, r) && FreedOld(before, r.discarded, from, to, recovery)
    requires from <= now' <= to' && to <= to'
    ensures var turn := TurnOf(s, now, now', recovery, scaling);
            && (turn.Drop? || turn.Release? ==> turn.slot < |s.queue| && s.queue[turn.slot].Some?)
            && FreedOld(before, RunAfterTurn(s, r, turn).discarded, from, to', recovery)
  {
    Shape(s, r);
    TurnMeaning(s, now, now', recovery, scaling);
    var turn := TurnOf(s, now, now', recovery, scaling);
    hide Inv, OutOfDate, MayLeave, Ahead, Sub64, BlockFor;
    if turn.Drop? {
      assert WasOld(s.queue[turn.slot].value, from, to', recovery);
    }
  }

  // ----- an arriving packet -----

  /** What queueing keeps beside the ring. */
  datatype Intake = Intake(lastSeqFound: nat, received: nat, droppedLate: nat, droppedFull: nat)

  /**
    A packet that came at time now. packetTime is its output time before the buffer time
    is added, and lastPacketTs the greatest such time so far; both come from the clock
    offset of the flow.
   */
  datatype Arrival = Arrival(data: seq<bv8>, seqNum: nat, sourceTime: nat, packetTime: nat, lastPacketTs: nat,
                             now: nat, retry: bool)

  datatype Verdict = Refused | First | Late | Full | Dupe | Accepted(outOfOrder: bool)

  /** The source clears the lowest bit of the expected number, so every second packet counts as unexpected. */
  function Expected(lastSeqFound: nat): nat {
    var n := Successor(lastSeqFound);
    n - n % 2
  }

  /** Behind the packets sent so far in source time, and not the expected one. */
  predicate Lags(lastSeqFound: nat, seqNum: nat, packetTime: nat, lastPacketTs: nat) {
    packetTime < lastPacketTs && seqNum != Expected(lastSeqFound)
  }

  /** So a packet that is exactly the next one still counts as lagging when the one before it had an even number. */
  lemma NextPacketLags(lastSeqFound: nat, packetTime: nat, lastPacketTs: nat)
    requires lastSeqFound < QUEUE_MAX
    ensures Lags(lastSeqFound, Successor(lastSeqFound), packetTime, lastPacketTs)
            <==> packetTime < lastPacketTs && lastSeqFound % 2 == 0
  {
  }

  function VerdictOf(s: State, lastSeqFound: nat, a: Arrival, recovery: nat): Verdict
    requires a.seqNum < |s.queue|
  {
    var lags := Lags(lastSeqFound, a.seqNum, a.packetTime, a.lastPacketTs);
    if !s.hasItems then (if a.retry then Refused else First)
    else if lags && 10 * a.now > 10 * a.packetTime + 11 * recovery then Late
    else if a.seqNum == (s.outputIdx - 1) % QUEUE_MAX then Full
    else if s.queue[a.seqNum].Some? && s.queue[a.seqNum].value.sourceTime == a.sourceTime then Dupe
    else Accepted(lags && !a.retry)
  }

  /** The packet as it is stored at some clock reading; the first one is due a buffer time after it came. */
  function Stored(a: Arrival, v: Verdict, time: nat, recovery: nat): Buffer {
    var t := if v.First? then a.now else a.packetTime;
    Buffer(a.data, a.seqNum, a.sourceTime, time, t, t + recovery)
  }

  /** The value receiver_enqueue returns. */
  function Returned(v: Verdict): int {
    if v.First? || v.Accepted? then 0 else if v.Dupe? then 1 else -1
  }

  function Empty(): (r: Ring)
    ensures |r| == QUEUE_MAX
  {
    seq(QUEUE_MAX, i => None)
  }

  /** A first packet finds every slot empty, and what the counter was too high by stays in it. */
  ghost function Restarted(s: State, b: Buffer): State
    requires |s.queue| == QUEUE_MAX && b.seqNum < QUEUE_MAX
  {
    s.(queue := Empty()[b.seqNum := Some(b)], hasItems := true,
       queueSize := s.queueSize - Bytes(s.queue, QUEUE_MAX) + |b.data|, outputIdx := b.seqNum, bufferStart := true,
       lastSeqOutput := (b.seqNum - 1) % WORD32)
  }

  /** Too many late or unwanted packets make the next packet a first one. */
  function KeepsItems(v: Verdict, k: Intake): bool {
    match v
    case Late => k.droppedLate + 1 <= 5 * k.received && !(k.droppedLate + 1 > 100 && k.received == 0)
    case Full => k.droppedFull + 1 <= 100
    case _ => true
  }

  ghost function AfterArrival(s: State, k: Intake, v: Verdict, b: Buffer): State
    requires |s.queue| == QUEUE_MAX && b.seqNum < QUEUE_MAX
  {
    match v
    case First => Restarted(s, b)
    case Accepted(_) => Inserted(s, b)
    case _ => s.(hasItems := s.hasItems && KeepsItems(v, k))
  }

  function IntakeAfter(k: Intake, v: Verdict, a: Arrival): Intake {
    match v
    case First => Intake(a.seqNum, 0, 0, 0)
    case Late => k.(droppedLate := k.droppedLate + 1)
    case Full => k.(droppedFull := k.droppedFull + 1,
                    lastSeqFound := if a.packetTime > a.lastPacketTs then a.seqNum else k.lastSeqFound)
    case Accepted(outOfOrder) => k.(received := k.received + 1,
                                    lastSeqFound := if a.retry || outOfOrder then k.lastSeqFound else a.seqNum)
    case _ => k
  }

  /** Everything that waited in the ring was freed. */
  ghost predicate AllFreed(queue: Ring, r: Run, r': Run) {
    && r' == r.(discarded := r'.discarded)
    && forall x: Buffer :: r'.discarded[x] == r.discarded[x] + Held(queue, x)
  }

  /** Everything waiting is freed before a first packet, and an accepted one frees what its slot still held. */
  ghost predicate RunAfterArrival(s: State, r: Run, v: Verdict, b: Buffer, r': Run)
    requires |s.queue| == QUEUE_MAX && b.seqNum < QUEUE_MAX
  {
    && r'.delivered == r.delivered
    && r'.inserted == (if v.First? || v.Accepted? then r.inserted + multiset{b} else r.inserted)
    && match v
       case First => forall x: Buffer :: r'.discarded[x] == r.discarded[x] + Held(s.queue, x)
       case Accepted(_) => r'.discarded == if s.queue[b.seqNum].Some? then r.discarded + multiset{s.queue[b.seqNum].value}
                                           else r.discarded
       case _ => r'.discarded == r.discarded
  }

  /** A packet came, was judged as v says, and left the flow in the state s', stored as b if it was accepted. */
  ghost predicate Arrived(s: State, k: Intake, r: Run, a: Arrival, v: Verdict, b: Buffer,
                          s': State, k': Intake, r': Run, recovery: nat)
  {
    && |s.queue| == QUEUE_MAX && a.seqNum < QUEUE_MAX
    && b == Stored(a, v, b.time, recovery)
    && s' == AfterArrival(s, k, v, b)
    && k' == IntakeAfter(k, v, a)
    && RunAfterArrival(s, r, v, b, r')
  }

  lemma StartedOrDelivered(s: State, r: Run)
    requires Inv(s, r)
    ensures |s.queue| == QUEUE_MAX && (s.hasItems ==> s.bufferStart || r.delivered != [])
  {
  }

  lemma StoreKeepsInv(s: State, r: Run, b: Buffer, r': Run, v: Verdict)
    requires Inv(s, r) && b.seqNum < QUEUE_MAX && b.data != [] && s.hasItems && v.Accepted?
    requires RunAfterArrival(s, r, v, b, r')
    ensures Inv(Inserted(s, b), r')
  {
    hide Inv;
    StartedOrDelivered(s, r);
    if s.queue[b.seqNum].Some? {
      FreeKeepsInv(s, r, b.seqNum, 0);
      var s1 := s.(queue := s.queue[b.seqNum := None]);
      InsertKeepsInv(s1, r.(discarded := r'.discarded), b);
      assert s1.queue[b.seqNum := Some(b)] == s.queue[b.seqNum := Some(b)];
    } else {
      InsertKeepsInv(s, r, b);
    }
  }

  lemma RestartKeepsInv(s: State, r: Run, b: Buffer, r': Run)
    requires Inv(s, r) && b.seqNum < QUEUE_MAX && b.data != []
    requires RunAfterArrival(s, r, First, b, r')
    ensures Inv(Restarted(s, b), r')
  {
    var e := Empty();
    EmptyHasNothing(e, QUEUE_MAX);
    UpdateBytes(e, QUEUE_MAX, b.seqNum, Some(b));
  }

  /** Whatever becomes of a packet, the run keeps its promises. */
  lemma ArrivalKeepsInv(s: State, k: Intake, v: Verdict, b: Buffer, r: Run, r': Run)
    requires Inv(s, r) && b.seqNum < QUEUE_MAX && b.data != []
    requires v.Accepted? ==> s.hasItems
    requires RunAfterArrival(s, r, v, b, r')
    ensures Inv(AfterArrival(s, k, v, b), r')
  {
    hide Continuous, Conserved, Bytes, Delivered, Restarted, Inserted;
    match v
    case First =>
      RestartKeepsInv(s, r, b, r');
    case Accepted(_) =>
      StoreKeepsInv(s, r, b, r', v);
    case _ =>
      assert r' == r;
  }

  /** A packet that comes when its time is over: it is behind the others, and more than 1.1 times the buffer time old. */
  predicate TooLate(lastSeqFound: nat, a: Arrival, recovery: nat) {
    Lags(lastSeqFound, a.seqNum, a.packetTime, a.lastPacketTs) && 10 * (a.now - a.packetTime) > 11 * recovery
  }

  /** Whether a packet with the same number and source time waits. */
  predicate HasCopy(queue: Ring, a: Arrival)
    requires a.seqNum < |queue|
  {
    queue[a.seqNum].Some? && queue[a.seqNum].value.sourceTime == a.sourceTime
  }

  /**
    A packet is stored exactly if it starts the flow, or comes in time, is not the last one
    before the output comes round again, and has no copy waiting. The expected packet, and
    any that is ahead in time, is never out of order and never too late.
   */
  lemma VerdictMeaning(s: State, lastSeqFound: nat, a: Arrival, recovery: nat)
    requires a.seqNum < |s.queue| == QUEUE_MAX && s.outputIdx < QUEUE_MAX
    ensures var v := VerdictOf(s, lastSeqFound, a, recovery);
            && (v.First? || v.Accepted?
                <==> if !s.hasItems then !a.retry
                     else !TooLate(lastSeqFound, a, recovery) && Successor(a.seqNum) != s.outputIdx && !HasCopy(s.queue, a))
            && (s.hasItems && (a.seqNum == Expected(lastSeqFound) || a.packetTime >= a.lastPacketTs)
                ==> v == Accepted(false) || (v == Full && Successor(a.seqNum) == s.outputIdx) || (v == Dupe && HasCopy(s.queue, a)))
  {
  }

  /** The packet exactly after the last one found can be dropped as too late, if that one had an even number. */
  lemma NextPacketDropped(s: State, lastSeqFound: nat, a: Arrival, recovery: nat)
    requires |s.queue| == QUEUE_MAX && lastSeqFound < QUEUE_MAX && a.seqNum == Successor(lastSeqFound) && s.hasItems
    ensures VerdictOf(s, lastSeqFound, a, recovery) == Late
            <==> lastSeqFound % 2 == 0 && a.packetTime < a.lastPacketTs && 10 * (a.now - a.packetTime) > 11 * recovery
  {
    NextPacketLags(lastSeqFound, a.packetTime, a.lastPacketTs);
  }

  /** A second copy of a packet that was stored is not stored as long as the first one waits. */
  lemma NoSecondCopy(s: State, k: Intake, a: Arrival, v: Verdict, time: nat, again: Arrival, lastSeqFound: nat, recovery: nat)
    requires |s.queue| == QUEUE_MAX && a.seqNum < QUEUE_MAX && (v.Accepted? ==> s.hasItems)
    requires again.seqNum == a.seqNum && again.sourceTime == a.sourceTime
    ensures var b := Stored(a, v, time, recovery);
            var s' := AfterArrival(s, k, v, b);
            && |s'.queue| == QUEUE_MAX
            && (s'.queue[a.seqNum] == Some(b) && s'.hasItems ==>
                  VerdictOf(s', lastSeqFound, again, recovery) in {Late, Full, Dupe})
            && (v.First? || v.Accepted? ==> s'.queue[a.seqNum] == Some(b) && s'.hasItems)
  {
  }

  /**
    Late packets reset the flow as soon as they are more than five times those received.
    The tests that wait for a hundred packets first have no effect.
   */
  lemma LateResets(s: State, k: Intake, b: Buffer)
    requires |s.queue| == QUEUE_MAX && b.seqNum < QUEUE_MAX && s.hasItems
    ensures AfterArrival(s, k, Late, b).hasItems <==> k.droppedLate < 5 * k.received
    ensures AfterArrival(s, k, Full, b).hasItems <==> k.droppedFull < 100
    ensures AfterArrival(s, k, Dupe, b) == s
  {
  }

  /** So a single late packet, before any was accepted behind the first one, makes the flow start anew. */
  lemma FirstLatePacket(s: State, k: Intake, first: Arrival, b: Buffer, late: Buffer)
    requires |s.queue| == QUEUE_MAX && b.seqNum < QUEUE_MAX && late.seqNum < QUEUE_MAX
    ensures !AfterArrival(Restarted(s, b), IntakeAfter(k, First, first), Late, late).hasItems
  {
  }

  /** A stored packet becomes due a buffer time after its packet time; for the first one that is when it came. */
  lemma StoredIsDue(a: Arrival, v: Verdict, time: nat, recovery: nat, t: nat)
    ensures var b := Stored(a, v, time, recovery);
            && b.data == a.data && b.seqNum == a.seqNum && b.sourceTime == a.sourceTime && b.time == time
            && (b.targetOutputTime <= t <==> t - (if v.First? then a.now else a.packetTime) >= recovery)
            && (b.packetTime + recovery <= t <==> b.targetOutputTime <= t)
  {
  }

  /** A first packet is the first one that output comes to, and its block is marked as the start and in no other way. */
  lemma FirstIsStart(s: State, b: Buffer)
    requires |s.queue| == QUEUE_MAX && b.seqNum < QUEUE_MAX
    ensures var s' := Restarted(s, b);
            && |s'.queue| == QUEUE_MAX && s'.hasItems && s'.queue[b.seqNum] == Some(b)
            && Distance(s'.queue, s'.outputIdx, 0) == 0 && Head(s') == Some(b)
            && BlockFor(s', b.seqNum, false) == Block(b, false, true)
            && forall i :: 0 <= i < QUEUE_MAX && i != b.seqNum ==> s'.queue[i] == None
  {
    assert Behind(b.seqNum, 0) == b.seqNum;
  }

  // ----- by how much the byte count is too high -----

  /** The bytes that are counted without being in the ring. */
  ghost function Excess(s: State): int
    requires |s.queue| == QUEUE_MAX
  {
    s.queueSize - Bytes(s.queue, QUEUE_MAX)
  }

  /** An accepted packet leaves the bytes of the one it replaces counted; no other arrival changes the excess. */
  lemma ArrivalExcess(s: State, k: Intake, v: Verdict, b: Buffer)
    requires |s.queue| == QUEUE_MAX && b.seqNum < QUEUE_MAX
    ensures |AfterArrival(s, k, v, b).queue| == QUEUE_MAX
    ensures Excess(AfterArrival(s, k, v, b)) == Excess(s) + (if v.Accepted? then Weight(s.queue[b.seqNum]) else 0)
  {
    match v
    case First =>
      EmptyHasNothing(Empty(), QUEUE_MAX);
      UpdateBytes(Empty(), QUEUE_MAX, b.seqNum, Some(b));
    case Accepted(_) =>
      UpdateBytes(s.queue, QUEUE_MAX, b.seqNum, Some(b));
    case _ =>
  }

  /** So an arrival keeps an exact count exact unless it is accepted into a slot that still holds a packet. */
  lemma ArrivalStaysExact(s: State, r: Run, k: Intake, v: Verdict, b: Buffer)
    requires Inv(s, r) && b.seqNum < QUEUE_MAX && |s.queue| == QUEUE_MAX && Excess(s) == 0
    ensures |AfterArrival(s, k, v, b).queue| == QUEUE_MAX
    ensures Excess(AfterArrival(s, k, v, b)) == 0 <==> !(v.Accepted? && s.queue[b.seqNum].Some?)
  {
    ArrivalExcess(s, k, v, b);
    hide Bytes, Continuous, Conserved, AfterArrival;
  }

  /** A turn of output leaves the excess alone, unless it finds nothing, which ends it. */
  lemma TurnExcess(s: State, r: Run, now: nat, now': nat, recovery: nat, scaling: bool)
    requires Inv(s, r)
    ensures var turn := TurnOf(s, now, now', recovery, scaling);
            && (turn.Drop? || turn.Release? ==> turn.slot < |s.queue| && s.queue[turn.slot].Some?)
            && var s' := AfterTurn(s, turn, now', recovery);
               && |s.queue| == |s'.queue| == QUEUE_MAX
               && Excess(s') == if turn.NothingFound? then 0 else Excess(s)
  {
    hide Inv, TurnOf;
    Shape(s, r);
    TurnKeepsInv(s, r, now, now', recovery, scaling);
    var turn := TurnOf(s, now, now', recovery, scaling);
    if turn.Drop? || turn.Release? {
      UpdateBytes(s.queue, QUEUE_MAX, turn.slot, None);
    } else if turn.NothingFound? {
      EmptyHasNothing(s.queue, QUEUE_MAX);
    }
  }

  /** Where the ring has run empty, a turn can only find nothing, which makes the next packet a first one. */
  lemma EmptyFindsNothing(s: State, r: Run, now: nat, now': nat, recovery: nat, scaling: bool)
    requires Inv(s, r) && AllEmpty(s.queue)
    ensures |s.queue| == QUEUE_MAX && Excess(s) == s.queueSize
    ensures TurnOf(s, now, now', recovery, scaling) == NothingFound
    ensures AfterTurn(s, NothingFound, now', recovery) == s.(hasItems := false, queueSize := 0)
  {
    EmptyHasNothing(s.queue, QUEUE_MAX);
  }

  /** During a pass the excess stays what it was, or the flow has been reset. */
  lemma PassExcess(s: State, r: Run, now: nat, now': nat, recovery: nat, scaling: bool, excess: int)
    requires Inv(s, r) && |s.queue| == QUEUE_MAX && (Excess(s) == excess || !s.hasItems)
    ensures var turn := TurnOf(s, now, now', recovery, scaling);
            && (turn.Drop? || turn.Release? ==> turn.slot < |s.queue| && s.queue[turn.slot].Some?)
            && var s' := AfterTurn(s, turn, now', recovery);
               |s'.queue| == QUEUE_MAX && (Excess(s') == excess || !s'.hasItems)
  {
    hide Inv, Excess, TurnOf;
    TurnExcess(s, r, now, now', recovery, scaling);
  }

  /** So a pass that leaves the ring empty leaves no bytes counted, and has reset the flow if there were too many. */
  lemma PassEmpties(s: State, r: Run, now: nat, now': nat, recovery: nat, scaling: bool, excess: int)
    requires Inv(s, r) && |s.queue| == QUEUE_MAX && (Excess(s) == excess || !s.hasItems)
    requires s.queueSize == 0 || TurnOf(s, now, now', recovery, scaling) in {Wait, GiveUp}
    ensures AllEmpty(s.queue) ==> s.queueSize == 0 && (excess > 0 ==> !s.hasItems)
  {
    if AllEmpty(s.queue) {
      EmptyFindsNothing(s, r, now, now', recovery, scaling);
    }
  }

  /**
    A flow in which this happens: after a first packet another one with the same number
    and a later source time replaces it, and both are counted.
   */
  lemma ReplacedBytesStay(s: State, recovery: nat)
    requires |s.queue| == QUEUE_MAX && !s.hasItems && Excess(s) == 0
    ensures var a1, a2 := Arrival([0], 7, 100, 100, 0, 100, false), Arrival([0, 0], 7, 101, 101, 101, 101, false);
            var b1, b2 := Stored(a1, First, 100, recovery), Stored(a2, Accepted(false), 101, recovery);
            && VerdictOf(s, 0, a1, recovery) == First
            && var s1 := Restarted(s, b1);
               && |s1.queue| == QUEUE_MAX && Excess(s1) == 0
               && VerdictOf(s1, 7, a2, recovery) == Accepted(false)
               && |Inserted(s1, b2).queue| == QUEUE_MAX && Excess(Inserted(s1, b2)) == 1
  {
    var a1, a2 := Arrival([0], 7, 100, 100, 0, 100, false), Arrival([0, 0], 7, 101, 101, 101, 101, false);
    var b1, b2 := Stored(a1, First, 100, recovery), Stored(a2, Accepted(false), 101, recovery);
    var k := Intake(0, 0, 0, 0);
    ArrivalExcess(s, k, First, b1);
    ArrivalExcess(Restarted(s, b1), k, Accepted(false), b2);
  }

  // ----- marking packets as missing -----

  /** How many numbers lie strictly between two sequence numbers, going up from the first: all others, if they are equal. */
  function GapLength(last: nat, current: nat): (n: nat)
    requires last < QUEUE_MAX && current < QUEUE_MAX
    ensures n < QUEUE_MAX
  {
    (current - last - 1) % QUEUE_MAX
  }

  /** The k-th number in the gap after last. */
  function InGap(last: nat, k: nat): (n: nat)
    ensures n < QUEUE_MAX
  {
    (last + 1 + k) % QUEUE_MAX
  }

  lemma PlaceInGap(last: nat, k: nat)
    requires last < QUEUE_MAX && k < QUEUE_MAX
    ensures (InGap(last, k) - last - 1) % QUEUE_MAX == k
  {
  }

  /**
    The gap holds each number strictly between the two; between a number and itself lie
    all the others.
   */
  lemma GapMeaning(last: nat, current: nat, x: nat)
    requires last < QUEUE_MAX && current < QUEUE_MAX && x < QUEUE_MAX
    ensures (exists k :: 0 <= k < GapLength(last, current) && InGap(last, k) == x)
            <==> x != last && x != current && (last == current || (x - last) % QUEUE_MAX < (current - last) % QUEUE_MAX)
  {
    var n, m := GapLength(last, current), (x - last - 1) % QUEUE_MAX;
    assert n < QUEUE_MAX && (m < n <==> x != last && x != current
                                        && (last == current || (x - last) % QUEUE_MAX < (current - last) % QUEUE_MAX));
    assert InGap(last, m) == x;
    forall k | 0 <= k < n && InGap(last, k) == x
      ensures k == m
    {
      PlaceInGap(last, k);
    }
  }

  /** No number comes twice in a gap, and the gap ends at the later number. */
  lemma GapOnce(last: nat, current: nat, j: nat, k: nat)
    requires last < QUEUE_MAX && current < QUEUE_MAX && j < k <= GapLength(last, current)
    ensures InGap(last, j) != InGap(last, k) && InGap(last, GapLength(last, current)) == current
  {
    assert k - j < QUEUE_MAX;
  }

  /** The time a packet of the gap would have had, had the packets come at even intervals. */
  function EvenTime(start: nat, step: nat, k: nat): nat {
    if k == 0 then start else (EvenTime(start, step, k - 1) + step) % WORD64
  }

  ghost predicate MarkedAs(e: Entry, last: nat, k: nat, peer: Config, rtt: nat,
                           start: nat, step: nat, from: nat, to: nat, recovery: nat)
  {
    && from <= e.nextNack - rtt <= to
    && e == Entry(InGap(last, k), e.nextNack, ClampedTime(EvenTime(start, step, k + 1), e.nextNack - rtt, recovery), 0, peer)
  }

  /** The entries that marking n packets of the gap after last appends. */
  ghost predicate Marked(before: seq<Entry>, entries: seq<Entry>, last: nat, n: nat, peer: Config, rtt: nat,
                         start: nat, step: nat, from: nat, to: nat, recovery: nat)
  {
    && |entries| == |before| + n
    && (forall k :: 0 <= k < |before| ==> entries[k] == before[k])
    && (forall k :: |before| <= k < |entries| ==>
          MarkedAs(entries[k], last, k - |before|, peer, rtt, start, step, from, to, recovery))
  }

  /** How many of the gap's numbers are marked: none after a jump of more than half the numbers or on a choked link, else all. */
  function MarkCount(last: nat, current: nat, bloat: bool, missingCounter: int, missingCounterMax: int): nat
    requires last < QUEUE_MAX && current < QUEUE_MAX
  {
    if (current - last) % QUEUE_MAX > 32768 || bloat || missingCounter > missingCounterMax then 0 else GapLength(last, current)
  }

  /** The time a gap starts from: that of the last packet found, if it still waits. */
  ghost predicate StartsAt(queue: Ring, last: nat, start: nat) {
    last < |queue| && (queue[last].Some? ==> start == queue[last].value.packetTime)
  }

  function EvenStep(start: nat, end: nat, last: nat, current: nat): nat {
    Sub64(end, start) / ((current - last) % QUEUE_MAX + 1)
  }

  lemma MarkedNone(entries: seq<Entry>, last: nat, peer: Config, rtt: nat, start: nat, step: nat,
                   from: nat, to: nat, recovery: nat)
    ensures Marked(entries, entries, last, 0, peer, rtt, start, step, from, to, recovery)
  {
  }

  lemma MarkedEarlier(before: seq<Entry>, entries: seq<Entry>, last: nat, n: nat, peer: Config, rtt: nat, start: nat,
                      step: nat, from: nat, to: nat, recovery: nat, earlier: nat)
    requires Marked(before, entries, last, n, peer, rtt, start, step, from, to, recovery) && earlier <= from
    ensures Marked(before, entries, last, n, peer, rtt, start, step, earlier, to, recovery)
  {
  }

  lemma MarkedNext(before: seq<Entry>, entries: seq<Entry>, last: nat, n: nat, peer: Config, rtt: nat, start: nat, step: nat,
                   from: nat, to: nat, recovery: nat, now: nat)
    requires Marked(before, entries, last, n, peer, rtt, start, step, from, to, recovery) && from <= to <= now
    ensures var e := Entry(InGap(last, n), now + rtt, ClampedTime(EvenTime(start, step, n + 1), now, recovery), 0, peer);
            Marked(before, entries + [e], last, n + 1, peer, rtt, start, step, from, now, recovery)
  {
  }

  /** The peer a packet came from, as marking its gap sees it. */
  datatype GapLink = GapLink(peer: Config, rtt: nat, bloat: bool, missingCounter: int, missingCounterMax: int)

  /** What became of the missing list when a packet came. */
  ghost predicate MissingAfter(before: seq<Entry>, entries: seq<Entry>, s: State, lastSeqFound: nat, v: Verdict, a: Arrival,
                               link: GapLink, start: nat, from: nat, to: nat, recovery: nat)
    requires a.seqNum < |s.queue| == QUEUE_MAX && lastSeqFound < QUEUE_MAX
  {
    match v
    case First => entries == []
    case Accepted(outOfOrder) =>
      if a.retry || outOfOrder || (a.seqNum - 1) % QUEUE_MAX == lastSeqFound then entries == before
      else
        && (if lastSeqFound == a.seqNum then start == a.packetTime else StartsAt(s.queue, lastSeqFound, start))
        && Marked(before, entries, lastSeqFound,
                  MarkCount(lastSeqFound, a.seqNum, link.bloat, link.missingCounter, link.missingCounterMax),
                  link.peer, link.rtt, start, EvenStep(start, a.packetTime, lastSeqFound, a.seqNum), from, to, recovery)
    case _ => entries == before
  }

  /**
    A packet in order leaves nothing to ask for when the next one in order comes, whatever
    was retried or late in between; a gap is marked as a whole, but not after a jump of
    more than half the numbers and not on a choked link.
   */
  lemma InOrderAsksNothing(k: Intake, a: Arrival, next: Arrival, before: seq<Entry>, entries: seq<Entry>, s: State,
                           link: GapLink, start: nat, from: nat, to: nat, recovery: nat)
    requires a.seqNum < QUEUE_MAX == |s.queue| && next.seqNum == Successor(a.seqNum) && !a.retry
    requires var k' := IntakeAfter(k, Accepted(false), a);
             MissingAfter(before, entries, s, k'.lastSeqFound, Accepted(false), next, link, start, from, to, recovery)
    ensures entries == before
  {
    hide Marked, StartsAt, MarkCount, EvenStep;
  }

  /** Retried packets, those out of order and those not stored leave the number that gaps are counted from. */
  lemma OthersLeaveNumber(k: Intake, v: Verdict, a: Arrival)
    requires v in {Refused, Late, Dupe, Accepted(true)} || (v == Accepted(false) && a.retry)
    ensures IntakeAfter(k, v, a).lastSeqFound == k.lastSeqFound
    ensures IntakeAfter(k, v, a).received == k.received + (if v.Accepted? then 1 else 0)
    ensures IntakeAfter(k, v, a).droppedLate == k.droppedLate + (if v.Late? then 1 else 0)
  {
  }

  lemma MarkMeaning(last: nat, current: nat, link: GapLink)
    requires last < QUEUE_MAX && current < QUEUE_MAX
    ensures var n := MarkCount(last, current, link.bloat, link.missingCounter, link.missingCounterMax);
            && (n == 0 || n == GapLength(last, current))
            && (n > 0 <==> current != Successor(last) && (current - last) % QUEUE_MAX <= QUEUE_MAX / 2
                           && !link.bloat && link.missingCounter <= link.missingCounterMax)
  {
  }

  lemma NextTime(start: nat, step: nat, k: nat, all: nat)
    requires k > 0 && step <= all && EvenTime(start, step, k - 1) == start + all - step && start + all < WORD64
    ensures EvenTime(start, step, k) == start + all
  {
  }

  lemma {:induction false} EvenTimeIs(start: nat, step: nat, k: nat)
    requires start + k * step < WORD64
    ensures EvenTime(start, step, k) == start + k * step
  {
    if k > 0 {
      Distribute(k - 1, step);
      EvenTimeIs(start, step, k - 1);
      NextTime(start, step, k, k * step);
    }
  }

  lemma Quotient(d: nat, n: nat)
    requires n > 0
    ensures d / n * n <= d < (d / n + 1) * n
  {
  }

  lemma MoreSteps(step: nat, k: nat, n: nat)
    requires k <= n
    ensures k * step <= n * step && (k + 1) * step == k * step + step
  {
    if k < n {
      Apart(k, n, step);
    }
    Distribute(k, step);
  }

  lemma EvenStepIs(start: nat, end: nat, last: nat, current: nat)
    requires last < QUEUE_MAX && current < QUEUE_MAX && last != current && start <= end < WORD64
    ensures EvenStep(start, end, last, current) == (end - start) / (GapLength(last, current) + 2)
  {
    assert (current - last) % QUEUE_MAX + 1 == GapLength(last, current) + 2;
    assert Sub64(end, start) == end - start;
    hide GapLength, Sub64;
  }

  /** The times given to the packets of a gap divide the time between the packets around it evenly, and lie within it. */
  lemma EvenlyWithin(start: nat, end: nat, last: nat, current: nat, k: nat)
    requires last < QUEUE_MAX && current < QUEUE_MAX && last != current
    requires start <= end < WORD64 && k < GapLength(last, current)
    ensures var step, n := EvenStep(start, end, last, current), GapLength(last, current) + 2;
            && EvenTime(start, step, k + 1) == start + (k + 1) * step <= end - step
            && n * step <= end - start < n * (step + 1)
  {
    hide *;
    var step, n := EvenStep(start, end, last, current), GapLength(last, current) + 2;
    EvenStepIs(start, end, last, current);
    Quotient(end - start, n);
    MoreSteps(step, k + 2, n);
    MoreSteps(step, k + 1, n);
    EvenTimeIs(start, step, k + 1);
  }
}
