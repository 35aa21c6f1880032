/**
  The sender's ring of packets: queueing (librist-master/src/udp.c:622-679), sending
  with the adaptive retention window (librist-master/src/rist-common.c:3067-3155) and
  the lookup for a retransmission (librist-master/src/udp.c:788-831).
 */
module SenderQueue {
  import opened Arithmetic
  import opened Wrappers

  const QUEUE_MAX := 524288
  const SEQ_SIZE := 65536
  /** Clock ticks in a millisecond. */
  const RIST_CLOCK := 4294967

  /** A queued packet with the sequence number it is sent under and its time of arrival. */
  datatype Packet = Packet(data: seq<bv8>, seqRtp: nat, time: nat)

  datatype Found = Missing | WrongSeq | Hit(packet: Packet)

  // ----- sums and positions -----

  /** The payload bytes of the packets at positions from..n. */
  ghost function Bytes(history: seq<Packet>, from: nat, n: nat): nat
    requires 1 <= from && n <= |history|
  {
    if n < from then 0 else Bytes(history, from, n - 1) + |history[n - 1].data|
  }

  lemma {:induction false} BytesPut(history: seq<Packet>, from: nat, n: nat, x: Packet)
    requires 1 <= from && n <= |history|
    ensures Bytes(history + [x], from, n) == Bytes(history, from, n)
  {
    if n >= from {
      BytesPut(history, from, n - 1, x);
      assert (history + [x])[n - 1] == history[n - 1];
    }
  }

  lemma {:induction false} BytesDrop(history: seq<Packet>, from: nat, n: nat)
    requires 1 <= from <= n <= |history|
    ensures Bytes(history, from, n) == |history[from - 1].data| + Bytes(history, from + 1, n)
  {
    if n > from {
      BytesDrop(history, from, n - 1);
    }
  }

  /** The slot of a position. */
  function Slot(p: nat): (s: nat)
    ensures s < QUEUE_MAX
  {
    p % QUEUE_MAX
  }

  /** The position of the packet last sent under seq among the first n, 0 if there is none. Positions count from 1. */
  ghost function LastSent(history: seq<Packet>, n: nat, seqRtp: nat): (p: nat)
    requires n <= |history|
    ensures p <= n
    ensures p > 0 ==> history[p - 1].seqRtp == seqRtp
    ensures forall k :: p <= k < n ==> history[k].seqRtp != seqRtp
  {
    if n == 0 then 0
    else if history[n - 1].seqRtp == seqRtp then n
    else LastSent(history, n - 1, seqRtp)
  }

  /** The age in milliseconds at a clock reading not before the packet's own. */
  function Delay(p: Packet, now: nat): int {
    (now - p.time) / RIST_CLOCK
  }

  /** Twice the oldest packet's age against the retention time: what the trimming loop makes of the window. */
  datatype Window = Window(start: nat, bufferSize: nat)

  /**
    The window after position read was sent, with clock readings t1 and t2. The oldest
    packet stays while it is younger than minTime; an older one goes, and one older
    than 1.1 times minTime takes a second one with it if that is not young either.
   */
  ghost function Trimmed(history: seq<Packet>, read: nat, bufferSize: nat, minTime: nat, t1: nat, t2: nat): (w: Window)
    requires bufferSize < read <= |history|
    ensures w.start + w.bufferSize == read + 1
  {
    var head := read - bufferSize;
    var delay := Delay(history[head - 1], t1);
    if delay < minTime then Window(head, bufferSize + 1)
    else if 10 * delay > 11 * minTime && bufferSize > 0 then
      if Delay(history[head], t2) < minTime then Window(head + 1, bufferSize)
      else Window(head + 2, bufferSize - 1)
    else Window(head + 1, bufferSize)
  }

  /** How many packets go when the oldest is at position head: decided by its age and that of the one behind it. */
  ghost predicate DropsRightly(history: seq<Packet>, head: nat, start: nat, window: nat, minTime: nat, t1: nat, t2: nat)
    requires 1 <= head <= |history|
  {
    var age := Delay(history[head - 1], t1);
    && head <= start <= head + 2
    && (start == head <==> age < minTime)
    && (start == head + 2 <==> age >= minTime && 10 * age > 11 * minTime && window > 0
                               && head < |history| && Delay(history[head], t2) >= minTime)
  }

  lemma TrimmedMeaning(history: seq<Packet>, read: nat, bufferSize: nat, minTime: nat, t1: nat, t2: nat)
    requires bufferSize < read <= |history|
    ensures var w := Trimmed(history, read, bufferSize, minTime, t1, t2);
            && w.start + w.bufferSize == read + 1
            && DropsRightly(history, read - bufferSize, w.start, bufferSize, minTime, t1, t2)
  {
    hide Delay;
  }

  /** The oldest packet stays while it is young; one over 1.1 times as old takes the next with it, unless that is young. */
  lemma AgesDecide(history: seq<Packet>, read: nat, bufferSize: nat, minTime: nat, t1: nat, t2: nat)
    requires 0 < bufferSize < read <= |history|
    ensures var head := read - bufferSize;
            var age, next := Delay(history[head - 1], t1), Delay(history[head], t2);
            var w := Trimmed(history, read, bufferSize, minTime, t1, t2);
            && (age < minTime ==> w == Window(head, bufferSize + 1))
            && (minTime <= age && 10 * age <= 11 * minTime ==> w == Window(head + 1, bufferSize))
            && (10 * age > 11 * minTime && next < minTime ==> w == Window(head + 1, bufferSize))
            && (10 * age > 11 * minTime && next >= minTime ==> w == Window(head + 2, bufferSize - 1))
  {
    hide Delay;
  }

  /** The age counts whole milliseconds of 4294967 ticks. */
  lemma DelayMeaning(p: Packet, now: nat)
    requires p.time <= now
    ensures p.time + 4294967 * Delay(p, now) <= now < p.time + 4294967 * (Delay(p, now) + 1)
  {
  }

  /** A packet only grows older. */
  lemma Ages(p: Packet, now: nat, later: nat)
    requires now <= later
    ensures Delay(p, now) <= Delay(p, later)
  {
  }

  /** The first n packets from position start on were old at time t. */
  ghost predicate OldFrom(history: seq<Packet>, start: nat, n: nat, t: nat, minTime: nat) {
    1 <= start && start + n <= |history| + 1 && forall k :: start - 1 <= k < start - 1 + n ==> Delay(history[k], t) >= minTime
  }

  /** Every packet sent takes an old one out of the window, as long as there are old ones. */
  lemma OneMoreGone(history: seq<Packet>, first: nat, start: nat, start': nat, sent: nat, t: nat, minTime: nat,
                    window: nat, t1: nat, t2: nat)
    requires 1 <= start <= |history| && t <= t1 && DropsRightly(history, start, start', window, minTime, t1, t2)
    requires forall n: nat :: n <= sent && OldFrom(history, first, n, t, minTime) ==> start >= first + n
    ensures forall n: nat :: n <= sent + 1 && OldFrom(history, first, n, t, minTime) ==> start' >= first + n
  {
    Ages(history[start - 1], t, t1);
    hide Delay;
    forall n: nat | n <= sent + 1 && OldFrom(history, first, n, t, minTime)
      ensures start' >= first + n
    {
      if n == sent + 1 {
        assert OldFrom(history, first, sent, t, minTime);
      }
    }
  }

  /** The guard against a full ring. */
  predicate FullGuard(deleteIndex: nat, size: nat, writeIndex: nat) {
    writeIndex > 0 && (deleteIndex + size) % QUEUE_MAX > writeIndex
  }

  lemma NextSlot(p: nat)
    ensures Slot(p + 1) == (Slot(p) + 1) % QUEUE_MAX
  {
  }

  /** Positions less than a ring apart have different slots. */
  lemma SlotsDiffer(p: nat, q: nat)
    requires p < q < p + QUEUE_MAX
    ensures Slot(p) != Slot(q)
  {
  }

  /** Moving on by n moves the slot on by n, round the ring. */
  lemma SlotAdds(p: nat, n: nat)
    ensures (Slot(p) + n) % QUEUE_MAX == Slot(p + n)
  {
    var q, t := p / QUEUE_MAX, (Slot(p) + n) / QUEUE_MAX;
    assert p == q * QUEUE_MAX + Slot(p);
    assert p + n == (q + t) * QUEUE_MAX + (Slot(p) + n) % QUEUE_MAX;
  }

  lemma OnceRound(slot: nat)
    requires slot < QUEUE_MAX
    ensures (slot + QUEUE_MAX) % QUEUE_MAX == slot
  {
  }

  lemma DeletePlusSize(start: nat, write: nat, deleteIndex: nat)
    requires 1 <= start <= write
    requires deleteIndex == Slot(start) || deleteIndex == Slot(start - 1)
    ensures (deleteIndex + (write - start)) % QUEUE_MAX in {Slot(write), Slot(write - 1)}
  {
    SlotAdds(start, write - start);
    SlotAdds(start - 1, write - start);
    hide Slot;
  }

  // ----- the retention time -----

  /** The ticks that a number of milliseconds is kept as, in 32 bits. */
  function Ticks(ms: nat): nat {
    (ms * RIST_CLOCK) % WORD32
  }

  /** What a peer needs in milliseconds: its longest buffer and two of its least round trips. */
  function Needed(lengthMax: nat, rttMs: nat): nat {
    lengthMax + 2 * rttMs
  }

  /** What the code makes of its round trip in ticks: the double is cut to 32 bits again. */
  function Computed(lengthMax: nat, rttMin: nat): nat {
    lengthMax + (2 * rttMin) % WORD32 / RIST_CLOCK
  }

  /** The test compares ticks with milliseconds. */
  function RetentionAfter(current: nat, lengthMax: nat, rttMin: nat): nat {
    if (lengthMax + 2 * rttMin) % WORD32 > current then Computed(lengthMax, rttMin) else current
  }

  function Least(x: nat, y: nat): nat {
    if x < y then x else y
  }

  /**
    The newest peer gets what it needs exactly if its least round trip is at most half a
    second or, where the test fails, if the retention time was long enough before.
   */
  lemma NewPeerIsServed(current: nat, lengthMax: nat, rttMs: nat)
    ensures RetentionAfter(current, lengthMax, Ticks(rttMs)) >= Needed(lengthMax, rttMs)
            <==> if (lengthMax + 2 * Ticks(rttMs)) % WORD32 > current then rttMs <= 500 else current >= Needed(lengthMax, rttMs)
  {
    assert (2 * Ticks(rttMs)) % WORD32 < WORD32;
    if rttMs <= 500 {
      assert Ticks(rttMs) == rttMs * RIST_CLOCK;
    }
  }

  /** For a buffer of one second and round trips of at least 600 milliseconds, 1199 milliseconds instead of 2200. */
  lemma LongRoundTrip()
    ensures RetentionAfter(0, 1000, Ticks(600)) == 1199 && Needed(1000, 600) == 2200
  {
  }

  /**
    The peers before it may lose what they need: the retention time goes down exactly if
    the code makes less of the new peer, and the peer passes the test because its round
    trip counts in ticks. The second of two ordinary peers may do that.
   */
  lemma NewPeerMayLower(current: nat, lengthMax: nat, rttMin: nat)
    ensures RetentionAfter(current, lengthMax, rttMin) < current
            <==> Computed(lengthMax, rttMin) < current < (lengthMax + 2 * rttMin) % WORD32
    ensures RetentionAfter(RetentionAfter(0, 2000, Ticks(5)), 1000, Ticks(5)) == 1010 < 2010
  {
  }

  // ----- the window -----

  /** The ring holds exactly the positions from..|history|, every other slot is empty. */
  ghost predicate HoldsWindow(queue: seq<Option<Packet>>, history: seq<Packet>, from: int) {
    && |queue| == QUEUE_MAX && 1 <= from <= |history| + 1 <= from + QUEUE_MAX - 1
    && (forall p :: from <= p <= |history| ==> queue[Slot(p)] == Some(history[p - 1]))
    && (forall p :: |history| < p < from + QUEUE_MAX ==> queue[Slot(p)] == None)
  }

  lemma WindowPut(queue: seq<Option<Packet>>, history: seq<Packet>, from: int, x: Packet)
    requires HoldsWindow(queue, history, from) && |history| + 2 <= from + QUEUE_MAX - 1
    ensures HoldsWindow(queue[Slot(|history| + 1) := Some(x)], history + [x], from)
  {
    hide Slot;
    forall p | from <= p < from + QUEUE_MAX && p != |history| + 1
      ensures Slot(p) != Slot(|history| + 1)
    {
      if p < |history| + 1 {
        SlotsDiffer(p, |history| + 1);
      } else {
        SlotsDiffer(|history| + 1, p);
      }
    }
  }

  lemma WindowDrop(queue: seq<Option<Packet>>, history: seq<Packet>, from: int)
    requires HoldsWindow(queue, history, from) && from <= |history|
    ensures HoldsWindow(queue[Slot(from) := None], history, from + 1)
  {
    assert Slot(from + QUEUE_MAX) == Slot(from);
    hide Slot;
    forall p | from < p < from + QUEUE_MAX
      ensures Slot(p) != Slot(from)
    {
      SlotsDiffer(from, p);
    }
  }

  /** The index leads to the packet last sent under each sequence number. */
  ghost predicate IndexesSent(index: seq<nat>, history: seq<Packet>, read: nat) {
    && |index| == SEQ_SIZE && read <= |history|
    && forall s :: 0 <= s < SEQ_SIZE ==> index[s] == Slot(LastSent(history, read, s))
  }

  lemma {:induction false} LastSentPrefix(history: seq<Packet>, x: Packet, n: nat, s: nat)
    requires n <= |history|
    ensures LastSent(history + [x], n, s) == LastSent(history, n, s)
  {
    if n > 0 {
      assert (history + [x])[n - 1] == history[n - 1];
      LastSentPrefix(history, x, n - 1, s);
    }
  }

  lemma IndexesPut(index: seq<nat>, history: seq<Packet>, read: nat, x: Packet)
    requires IndexesSent(index, history, read)
    ensures IndexesSent(index, history + [x], read)
  {
    forall s | 0 <= s < SEQ_SIZE
      ensures index[s] == Slot(LastSent(history + [x], read, s))
    {
      LastSentPrefix(history, x, read, s);
    }
  }

  lemma IndexesSend(index: seq<nat>, history: seq<Packet>, read: nat)
    requires IndexesSent(index, history, read) && read < |history| && history[read].seqRtp < SEQ_SIZE
    ensures IndexesSent(index[history[read].seqRtp := Slot(read + 1)], history, read + 1)
  {
  }

  /**
    What was queued carries 16-bit numbers and past times, and everything before
    position from had been held for at least minTime when it was dropped.
   */
  ghost predicate Retained(history: seq<Packet>, from: int, minTime: nat, clock: nat) {
    && 1 <= from <= |history| + 1
    && (forall k :: 0 <= k < |history| ==>
          history[k].time <= clock && history[k].seqRtp < SEQ_SIZE && history[k].data != [])
    && (forall k :: 0 <= k < from - 1 ==> Delay(history[k], clock) >= minTime)
  }

  lemma RetainedPut(history: seq<Packet>, from: int, minTime: nat, clock: nat, x: Packet)
    requires Retained(history, from, minTime, clock) && clock <= x.time
    requires x.seqRtp < SEQ_SIZE && x.data != []
    ensures Retained(history + [x], from, minTime, x.time)
  {
  }

  // ----- looking up a packet for retransmission -----

  function LookupIn(queue: seq<Option<Packet>>, index: seq<nat>, seqNum: nat): Found
    requires |index| == SEQ_SIZE && index[seqNum % SEQ_SIZE] < |queue|
  {
    match queue[index[seqNum % SEQ_SIZE]]
    case None => Missing
    case Some(p) => if p.seqRtp != seqNum % SEQ_SIZE then WrongSeq else Hit(p)
  }

  /** Packets numbered automatically: a counter that only grows, of which a packet carries the low 16 bits. */
  ghost predicate AutoNumbered(history: seq<Packet>, numbers: seq<nat>) {
    && |numbers| == |history|
    && (forall i, j :: 0 <= i < j < |numbers| ==> numbers[i] < numbers[j])
    && (forall k :: 0 <= k < |history| ==> history[k].seqRtp == numbers[k] % SEQ_SIZE)
  }

  lemma SameResidueApart(x: nat, y: nat)
    requires x < y && x % SEQ_SIZE == y % SEQ_SIZE
    ensures x + SEQ_SIZE <= y
  {
  }

  /** A number given out fewer than 2^16 numbers ago has not been used again. */
  lemma RecentIsLast(history: seq<Packet>, numbers: seq<nat>, read: nat, p: nat)
    requires AutoNumbered(history, numbers) && 1 <= p <= read <= |history|
    requires numbers[read - 1] < numbers[p - 1] + SEQ_SIZE
    ensures LastSent(history, read, history[p - 1].seqRtp) == p
  {
    var q := LastSent(history, read, history[p - 1].seqRtp);
    if q != p {
      assert q > p && history[q - 1].seqRtp == history[p - 1].seqRtp;
      assert numbers[p - 1] < numbers[q - 1] <= numbers[read - 1];
      SameResidueApart(numbers[p - 1], numbers[q - 1]);
    }
  }

  // ----- the sender's state -----

  /** The fields of the sender that queueing and sending change. */
  datatype State = State(queue: seq<Option<Packet>>, bytesize: int, size: int, deleteIndex: nat, readIndex: nat,
                         writeIndex: nat, bufferSize: nat, seqIndex: seq<nat>, clock: nat)

  /** The run so far: every packet queued, the position last sent, the oldest position still held. */
  datatype Run = Run(history: seq<Packet>, read: nat, start: nat)

  /** The ring, its counters and the index agree with the run. */
  ghost predicate Core(s: State, r: Run, minTime: nat) {
    && r.read <= |r.history| && 1 <= r.start <= |r.history| + 1
    && s.writeIndex == Slot(|r.history| + 1) && s.readIndex == Slot(r.read)
    && s.size == |r.history| + 1 - r.start
    && s.bytesize == Bytes(r.history, r.start, |r.history|)
    && HoldsWindow(s.queue, r.history, r.start)
    && IndexesSent(s.seqIndex, r.history, r.read)
    && Retained(r.history, r.start, minTime, s.clock)
  }

  /** What every run keeps: the window starts bufferSize positions behind the next one to send. */
  ghost predicate Inv(s: State, r: Run, minTime: nat) {
    && Core(s, r, minTime)
    && r.start == r.read + 1 - s.bufferSize
    && (s.deleteIndex == Slot(r.start) || s.deleteIndex == Slot(r.start - 1))
  }

  /** A lower retention time has been met by all that was dropped, and any has if nothing was. */
  lemma LowerFloor(s: State, r: Run, minTime: nat)
    requires Inv(s, r, minTime)
    ensures forall t: nat :: t <= minTime || r.start == 1 ==> Inv(s, r, t)
  {
    hide Slot, LastSent, HoldsWindow, IndexesSent, Bytes;
  }

  /** Between sending a packet and trimming the window. */
  ghost predicate Untrimmed(s: State, r: Run, minTime: nat) {
    && Core(s, r, minTime)
    && r.start == r.read - s.bufferSize
  }

  lemma PreviousSlot(p: nat)
    ensures Slot(p) == (Slot(p + 1) + QUEUE_MAX - 1) % QUEUE_MAX
  {
  }

  lemma GuardValues(sum: nat, writeIndex: nat)
    requires writeIndex < QUEUE_MAX && sum in {writeIndex, (writeIndex + QUEUE_MAX - 1) % QUEUE_MAX}
    ensures !(writeIndex > 0 && sum > writeIndex)
  {
  }

  /**
    The guard against a full ring never fires: the delete index plus the size is
    always the write index or one less, and the one case in which that is the larger
    number, a write index of 0, is the case the guard excludes.
   */
  lemma GuardIsDead(s: State, r: Run, minTime: nat)
    requires Inv(s, r, minTime)
    ensures (s.deleteIndex + s.size) % QUEUE_MAX in {s.writeIndex, (s.writeIndex + QUEUE_MAX - 1) % QUEUE_MAX}
    ensures !FullGuard(s.deleteIndex, s.size, s.writeIndex)
  {
    hide HoldsWindow, IndexesSent, Retained, Bytes, Slot;
    DeletePlusSize(r.start, |r.history| + 1, s.deleteIndex);
    PreviousSlot(|r.history|);
    GuardValues((s.deleteIndex + s.size) % QUEUE_MAX, s.writeIndex);
  }

  /** The state after a packet was written into the write slot. */
  function Put(s: State, x: Packet): State
    requires s.writeIndex < |s.queue|
  {
    s.(queue := s.queue[s.writeIndex := Some(x)], bytesize := s.bytesize + |x.data|, size := s.size + 1,
       writeIndex := (s.writeIndex + 1) % QUEUE_MAX, clock := x.time)
  }

  lemma PutLater(s: State, now: nat, x: Packet)
    requires s.writeIndex < |s.queue|
    ensures Put(s.(clock := now), x) == Put(s, x)
  {
  }

  lemma WindowFits(s: State, r: Run, minTime: nat)
    ensures Inv(s, r, minTime) ==> |r.history| + 1 <= r.start + QUEUE_MAX - 1
  {
  }

  /** Queueing keeps what every run keeps exactly as long as one slot stays free behind the packet. */
  lemma PutKeepsInv(s: State, r: Run, minTime: nat, x: Packet)
    requires Inv(s, r, minTime) && s.clock <= x.time && x.seqRtp < SEQ_SIZE && x.data != []
    ensures s.writeIndex < |s.queue| && s.size == |r.history| + 1 - r.start <= QUEUE_MAX - 1
    ensures Inv(Put(s, x), r.(history := r.history + [x]), minTime) <==> s.size < QUEUE_MAX - 1
  {
    hide Slot, LastSent;
    NextSlot(|r.history| + 1);
    if s.size < QUEUE_MAX - 1 {
      WindowPut(s.queue, r.history, r.start, x);
    }
    IndexesPut(s.seqIndex, r.history, r.read, x);
    RetainedPut(r.history, r.start, minTime, s.clock, x);
    BytesPut(r.history, r.start, |r.history|, x);
    assert Bytes(r.history + [x], r.start, |r.history| + 1) == Bytes(r.history, r.start, |r.history|) + |x.data|;
    WindowFits(Put(s, x), r.(history := r.history + [x]), minTime);
    hide HoldsWindow, IndexesSent, Retained, Bytes;
  }

  lemma FullSlots(n: nat, start: nat, read: nat)
    requires n + 1 - start == QUEUE_MAX - 1 && 1 <= start <= read + 1 <= n + 1
    ensures (Slot(n + 1) + 1) % QUEUE_MAX == Slot(start)
    ensures (Slot(read) + 1) % QUEUE_MAX == Slot(start) <==> read + 1 == start
  {
    SlotAdds(n + 1, 1);
    SlotAdds(start, QUEUE_MAX);
    SlotAdds(read, 1);
    OnceRound(Slot(start));
    hide Slot;
    if read + 1 != start {
      SlotsDiffer(start, read + 1);
    }
  }

  /**
    With a single free slot left the guard lets the packet through all the same, and the
    write index comes to the oldest packet held. If none of those was sent, a ring that is
    full now looks empty to the drain.
   */
  lemma FullLooksEmpty(s: State, r: Run, minTime: nat, x: Packet)
    requires Inv(s, r, minTime) && s.size == QUEUE_MAX - 1
    ensures !FullGuard(s.deleteIndex, s.size, s.writeIndex) && s.writeIndex < |s.queue|
    ensures Put(s, x).writeIndex == Slot(r.start)
    ensures (s.readIndex + 1) % QUEUE_MAX == Put(s, x).writeIndex <==> s.bufferSize == 0
  {
    GuardIsDead(s, r, minTime);
    FullSlots(|r.history|, r.start, r.read);
  }

  /** Position read + 1 is waiting unless the next slot is the write slot. */
  lemma NextToSend(s: State, r: Run, minTime: nat)
    requires Inv(s, r, minTime)
    ensures (s.readIndex + 1) % QUEUE_MAX == s.writeIndex <==> r.read == |r.history|
    ensures r.read <= |r.history|
    ensures r.read < |r.history| ==>
              var idx := (s.readIndex + 1) % QUEUE_MAX;
              |s.queue| == QUEUE_MAX && s.queue[idx] == Some(r.history[r.read]) && r.history[r.read].seqRtp < SEQ_SIZE
  {
    NextSlot(r.read);
    if r.read < |r.history| {
      SlotsDiffer(r.read + 1, |r.history| + 1);
    }
  }

  lemma UpToDate(s: State, r: Run, minTime: nat)
    requires Inv(s, r, minTime)
    ensures r.read <= |r.history| && ((s.readIndex + 1) % QUEUE_MAX == s.writeIndex <==> r.read == |r.history|)
  {
    NextToSend(s, r, minTime);
  }

  lemma SendKeepsCore(s: State, r: Run, minTime: nat)
    requires Inv(s, r, minTime) && r.read < |r.history|
    ensures r.history[r.read].seqRtp < |s.seqIndex|
    ensures var idx := (s.readIndex + 1) % QUEUE_MAX;
            Untrimmed(s.(readIndex := idx, seqIndex := s.seqIndex[r.history[r.read].seqRtp := idx]),
                      r.(read := r.read + 1), minTime)
  {
    hide Slot, LastSent, HoldsWindow, Bytes;
    NextSlot(r.read);
    IndexesSend(s.seqIndex, r.history, r.read);
  }

  lemma SlotBehind(p: nat, n: nat)
    requires n <= p
    ensures (Slot(p) - n) % QUEUE_MAX == Slot(p - n)
  {
  }

  /** The slot that the trimming loop looks at is the oldest one held. */
  lemma OldestSlot(s: State, r: Run, minTime: nat)
    requires Untrimmed(s, r, minTime)
    ensures 1 <= r.start <= |r.history|
    ensures var idx := (s.readIndex - s.bufferSize) % QUEUE_MAX;
            idx == Slot(r.start) && |s.queue| == QUEUE_MAX && s.queue[idx] == Some(r.history[r.start - 1])
    ensures 1 <= r.start <= r.read <= |r.history| && r.history[r.start - 1].time <= s.clock && s.size > 0
  {
    SlotBehind(r.read, s.bufferSize);
  }

  lemma ClockKeepsCore(s: State, r: Run, minTime: nat, now: nat)
    requires Core(s, r, minTime) && s.clock <= now
    ensures Core(s.(clock := now), r, minTime)
  {
    hide Slot, LastSent, HoldsWindow, IndexesSent, Bytes;
  }

  lemma DropKeepsCore(s: State, r: Run, minTime: nat)
    requires Core(s, r, minTime) && r.start <= |r.history|
    requires Delay(r.history[r.start - 1], s.clock) >= minTime
    ensures Slot(r.start) < |s.queue|
    ensures Core(s.(queue := s.queue[Slot(r.start) := None], size := s.size - 1,
                    bytesize := s.bytesize - |r.history[r.start - 1].data|),
                 r.(start := r.start + 1), minTime)
  {
    hide Slot, LastSent;
    WindowDrop(s.queue, r.history, r.start);
    BytesDrop(r.history, r.start, |r.history|);
    hide HoldsWindow, IndexesSent, Bytes;
  }

  /** What one pass of the trimming loop does; it asks for another one only after making the window smaller. */
  ghost predicate TrimStep(r: Run, bufferSize: nat, r': Run, bufferSize': nat, minTime: nat,
                           reduce: bool, now: nat, again: bool)
  {
    && 1 <= r.start <= |r.history|
    && var delay := Delay(r.history[r.start - 1], now);
       && (again <==> delay >= minTime && !reduce && 10 * delay > 11 * minTime && bufferSize > 0)
       && r' == r.(start := r.start + (if delay < minTime then 0 else 1))
       && bufferSize' == bufferSize + (if delay < minTime then 1 else if again then -1 else 0)
  }

  lemma OnePass(r: Run, bufferSize: nat, r': Run, bufferSize': nat, minTime: nat, now: nat)
    requires TrimStep(r, bufferSize, r', bufferSize', minTime, false, now, false)
    requires r.start == r.read - bufferSize && r.read <= |r.history|
    ensures Window(r'.start, bufferSize') == Trimmed(r.history, r.read, bufferSize, minTime, now, now)
  {
  }

  lemma TwoPasses(r: Run, b: nat, r1: Run, b1: nat, r2: Run, b2: nat, minTime: nat, t1: nat, t2: nat)
    requires TrimStep(r, b, r1, b1, minTime, false, t1, true)
    requires r.start == r.read - b && r.read <= |r.history|
    requires TrimStep(r1, b1, r2, b2, minTime, true, t2, false)
    ensures Window(r2.start, b2) == Trimmed(r.history, r.read, b, minTime, t1, t2)
  {
  }

  /** A packet younger than every retention time under which packets were dropped has not been dropped. */
  lemma YoungIsHeld(s: State, r: Run, minTime: nat, p: nat)
    requires Inv(s, r, minTime) && 1 <= p <= |r.history|
    requires Delay(r.history[p - 1], s.clock) < minTime
    ensures r.start <= p
  {
  }

  /** While the packet last sent under a number is held, the lookup finds exactly that packet. */
  lemma LookupFindsLast(s: State, r: Run, minTime: nat, seqNum: nat)
    requires Inv(s, r, minTime)
    ensures |s.seqIndex| == SEQ_SIZE && s.seqIndex[seqNum % SEQ_SIZE] < |s.queue|
    ensures var p := LastSent(r.history, r.read, seqNum % SEQ_SIZE);
            p >= r.start ==> LookupIn(s.queue, s.seqIndex, seqNum) == Hit(r.history[p - 1])
  {
    hide Slot;
    var p := LastSent(r.history, r.read, seqNum % SEQ_SIZE);
    assert s.seqIndex[seqNum % SEQ_SIZE] == Slot(p);
  }

  /** The one position of the ring's length from start on that shares a slot with p. */
  lemma InWindow(p: nat, start: nat) returns (q: nat)
    ensures start <= q < start + QUEUE_MAX && Slot(q) == Slot(p)
    ensures p >= start ==> p >= q
  {
    q := start + (p - start) % QUEUE_MAX;
  }

  /**
    Whatever the lookup finds carries the number asked for and is held; it is the packet
    last sent under that number or, once that one was dropped and its slot taken again,
    one that is still waiting to be sent.
   */
  lemma LookupIsSound(s: State, r: Run, minTime: nat, seqNum: nat) returns (q: nat)
    requires Inv(s, r, minTime)
    requires |s.seqIndex| == SEQ_SIZE && s.seqIndex[seqNum % SEQ_SIZE] < |s.queue|
    requires LookupIn(s.queue, s.seqIndex, seqNum).Hit?
    ensures r.start <= q <= |r.history|
    ensures LookupIn(s.queue, s.seqIndex, seqNum).packet == r.history[q - 1]
    ensures r.history[q - 1].seqRtp == seqNum % SEQ_SIZE
    ensures q == LastSent(r.history, r.read, seqNum % SEQ_SIZE) || q > r.read
  {
    var p := LastSent(r.history, r.read, seqNum % SEQ_SIZE);
    q := InWindow(p, r.start);
    assert s.queue[Slot(q)] == s.queue[Slot(p)];
    if q <= r.read && q != p {
      assert q <= p;
      hide Slot;
      SlotsDiffer(q, p);
    }
  }

  /** The p-th packet was sent, fewer than 2^16 numbers ago, and is younger than minTime. */
  ghost predicate IsRecent(r: Run, numbers: seq<nat>, clock: nat, minTime: nat, p: nat) {
    && 1 <= p <= r.read <= |r.history| == |numbers|
    && numbers[r.read - 1] < numbers[p - 1] + SEQ_SIZE && Delay(r.history[p - 1], clock) < minTime
  }

  /** A request for this number finds this packet. */
  ghost predicate Finds(s: State, number: nat, x: Packet) {
    && |s.seqIndex| == SEQ_SIZE && s.seqIndex[number % SEQ_SIZE] < |s.queue|
    && LookupIn(s.queue, s.seqIndex, number) == Hit(x)
  }

  /**
    A retransmission request for a packet that was sent, fewer than 2^16 numbers ago and
    less than the retention time ago, finds exactly that packet. Where the retention time
    has changed, minTime is the least of those in force since the first packet was dropped.
   */
  lemma RetransmissionFound(s: State, r: Run, minTime: nat, numbers: seq<nat>, p: nat)
    requires Inv(s, r, minTime) && AutoNumbered(r.history, numbers) && IsRecent(r, numbers, s.clock, minTime, p)
    ensures Finds(s, numbers[p - 1], r.history[p - 1])
  {
    YoungIsHeld(s, r, minTime, p);
    RecentIsLast(r.history, numbers, r.read, p);
    LookupFindsLast(s, r, minTime, numbers[p - 1]);
  }

  /** Every recent packet is found under its number. */
  ghost predicate Answers(s: State, r: Run, minTime: nat, numbers: seq<nat>) {
    forall p: nat :: IsRecent(r, numbers, s.clock, minTime, p) ==> Finds(s, numbers[p - 1], r.history[p - 1])
  }

  lemma RunAnswers(s: State, r: Run, minTime: nat, numbers: seq<nat>)
    requires Inv(s, r, minTime) && AutoNumbered(r.history, numbers)
    ensures Answers(s, r, minTime, numbers)
  {
    hide Inv, Finds, AutoNumbered, Delay;
    forall p: nat | IsRecent(r, numbers, s.clock, minTime, p)
      ensures 1 <= p <= |numbers| && p <= |r.history| && Finds(s, numbers[p - 1], r.history[p - 1])
    {
      RetransmissionFound(s, r, minTime, numbers, p);
    }
  }

  class Sender {
    const queue: array<Option<Packet>>
    var queueBytesize: int
    var queueSize: int
    var deleteIndex: nat
    var readIndex: nat
    var writeIndex: nat
    /** The static local of sender_send_data. */
    var bufferSize: nat
    const seqIndex: array<nat>
    var recoverMinTime: nat
    /** The least retention time in force since the first packet was dropped. */
    ghost var floor: nat
    /** The latest reading of the system clock. */
    var clock: nat

    ghost var run: Run

    ghost function View(): State
      reads this, queue, seqIndex
    {
      State(queue[..], queueBytesize, queueSize, deleteIndex, readIndex, writeIndex, bufferSize, seqIndex[..], clock)
    }

    ghost predicate Valid()
      reads this, queue, seqIndex
    {
      queue as object != seqIndex && floor <= recoverMinTime && Inv(View(), run, floor)
    }

    /** The fields of the value that the specification speaks of. */
    lemma Fields()
      ensures QUEUE_MAX > 0
      ensures View() == State(queue[..], queueBytesize, queueSize, deleteIndex, readIndex, writeIndex, bufferSize,
                              seqIndex[..], clock)
    {
    }

    lemma Parts()
      ensures Valid() <==> queue as object != seqIndex && floor <= recoverMinTime && Inv(View(), run, floor)
    {
      hide Inv;
    }

    constructor ()
      ensures Valid() && fresh(queue) && fresh(seqIndex)
      ensures run == Run([], 0, 1) && recoverMinTime == 0
      ensures queueSize == 0 && readIndex == 0 && writeIndex == 1 && bufferSize == 0
    {
      queue := new Option<Packet>[QUEUE_MAX](_ => None);
      seqIndex := new nat[SEQ_SIZE](_ => 0);
      queueBytesize, queueSize, deleteIndex, readIndex, writeIndex, bufferSize := 0, 0, 1, 0, 1, 0;
      recoverMinTime, floor := 0, 0;
      clock, run := 0, Run([], 0, 1);
    }

    /** What a new peer makes of the retention time; numbers are in the range of the fields they come from. */
    method AddPeer(lengthMax: nat, rttMin: nat)
      requires Valid() && lengthMax < WORD32 && rttMin < WORD32
      modifies `recoverMinTime, `floor
      ensures Valid() && recoverMinTime == RetentionAfter(old(recoverMinTime), lengthMax, rttMin)
      ensures floor == if run.start == 1 then recoverMinTime else Least(old(floor), recoverMinTime)
    {
      LowerFloor(View(), run, floor);
      hide Inv;
      if (lengthMax + 2 * rttMin) % WORD32 > recoverMinTime {
        recoverMinTime := lengthMax + (2 * rttMin) % WORD32 / RIST_CLOCK;
      }
      floor := if run.start == 1 then recoverMinTime else Least(floor, recoverMinTime);
    }

    /** A reading of the clock, which never runs backwards. */
    method ReadClock() returns (now: nat)
      modifies `clock
      ensures clock == now >= old(clock)
    {
      var passed: int := *;
      if passed > 0 {
        clock := clock + passed;
      }
      now := clock;
    }

    /** Writes a packet into the write slot. */
    method Write(x: Packet)
      requires queue as object != seqIndex && writeIndex < queue.Length && x.time == clock
      modifies queue, `queueBytesize, `queueSize, `writeIndex
      ensures View() == Put(old(View()), x)
    {
      ghost var q := queue[..];
      queue[writeIndex] := Some(x);
      assert queue[..] == q[writeIndex := Some(x)];
      queueBytesize := queueBytesize + |x.data|;
      queueSize := queueSize + 1;
      writeIndex := (writeIndex + 1) % QUEUE_MAX;
    }

    /**
      rist_sender_enqueue, for a non-empty packet. Without a peer nothing is queued; the
      guard against a full ring never fires, not even when the packet takes the last slot.
     */
    method Enqueue(data: seq<bv8>, seqRtp: nat, hasPeers: bool) returns (ret: int)
      requires Valid() && data != []
      modifies queue, `queueBytesize, `queueSize, `writeIndex, `clock, `run
      ensures Valid() <==> !hasPeers || old(queueSize) < QUEUE_MAX - 1
      ensures clock >= old(clock) && old(writeIndex) < queue.Length
      ensures View() == if hasPeers then Put(old(View()), Packet(data, seqRtp % SEQ_SIZE, clock)) else old(View())
      ensures ret == if hasPeers then 0 else -1
      ensures run == if hasPeers then
                old(run).(history := old(run).history + [Packet(data, seqRtp % SEQ_SIZE, clock)]) else old(run)
    {
      if !hasPeers {
        return -1;
      }
      hide Inv, FullGuard, Put;
      ghost var s := View();
      GuardIsDead(s, run, floor);
      if FullGuard(deleteIndex, queueSize, writeIndex) {
        assert false;
      }
      var now := ReadClock();
      var x := Packet(data, seqRtp % SEQ_SIZE, now);
      PutKeepsInv(s, run, floor, x);
      PutLater(s, now, x);
      assert View() == s.(clock := now);
      Write(x);
      run := run.(history := run.history + [x]);
      ret := 0;
    }

    /** Frees the oldest packet. */
    method DropOldest(ghost idx: nat)
      requires queue as object != seqIndex && Core(View(), run, floor)
      requires deleteIndex == Slot(run.start) == idx < queue.Length && run.start <= |run.history|
      requires queue[idx] == Some(run.history[run.start - 1])
      requires Delay(run.history[run.start - 1], clock) >= floor
      modifies queue, `queueBytesize, `queueSize, `run
      ensures Core(View(), run, floor) && run == old(run).(start := old(run).start + 1)
      ensures seqIndex[..] == old(seqIndex[..])
    {
      ghost var s := View();
      DropKeepsCore(s, run, floor);
      hide Core, Slot;
      queueBytesize := queueBytesize - |queue[deleteIndex].value.data|;
      queueSize := queueSize - 1;
      queue[deleteIndex] := None;
      run := run.(start := run.start + 1);
      assert queue[..] == s.queue[idx := None];
    }

    /**
      The body of the do loop of sender_send_data. The slot it looks at is never empty,
      so both tests of the source for that always pass. The loop goes on only after
      the window was made smaller.
     */
    method TrimOnce(reduce: bool) returns (again: bool, now: nat)
      requires queue as object != seqIndex && floor <= recoverMinTime && Untrimmed(View(), run, floor)
      modifies queue, `queueBytesize, `queueSize, `deleteIndex, `bufferSize, `clock, `run
      ensures old(clock) <= now == clock && seqIndex[..] == old(seqIndex[..])
      ensures if again then Untrimmed(View(), run, floor) else Valid()
      ensures TrimStep(old(run), old(bufferSize), run, bufferSize, recoverMinTime, reduce, now, again)
      ensures run.history == old(run).history && run.read == old(run).read && (reduce ==> !again)
    {
      OldestSlot(View(), run, floor);
      hide Core, Slot, Delay;
      deleteIndex := (readIndex - bufferSize) % QUEUE_MAX;
      ghost var s := View();
      now := ReadClock();
      ClockKeepsCore(s, run, floor, now);
      var delay := Delay(queue[deleteIndex].value, now);
      again := reduce;
      if delay < recoverMinTime {
        bufferSize := bufferSize + 1;
        again := false;
        return;
      } else if !again && 10 * delay > 11 * recoverMinTime {
        if bufferSize > 0 {
          again := true;
          bufferSize := bufferSize - 1;
        }
      } else {
        again := false;
      }
      DropOldest(deleteIndex);
    }

    /**
      The do loop. The oldest packet stays while it is younger than the retention time;
      an older one goes, and one older than 1.1 times that takes the next one with it
      unless that is young.
     */
    method Trim() returns (ghost t1: nat, ghost t2: nat)
      requires queue as object != seqIndex && floor <= recoverMinTime && Untrimmed(View(), run, floor)
      modifies queue, `queueBytesize, `queueSize, `deleteIndex, `bufferSize, `clock, `run
      ensures Valid() && old(clock) <= t1 <= t2 == clock
      ensures run.history == old(run).history && run.read == old(run).read
      ensures old(bufferSize) < run.read <= |run.history|
      ensures 1 <= old(run).start <= |run.history|
      ensures DropsRightly(run.history, old(run).start, run.start, old(bufferSize), recoverMinTime, t1, t2)
      ensures Window(run.start, bufferSize) == Trimmed(run.history, run.read, old(bufferSize), recoverMinTime, t1, t2)
    {
      OldestSlot(View(), run, floor);
      hide Core, Inv, TrimStep, Trimmed, DropsRightly, Delay;
      var reduce, now := TrimOnce(false);
      t1, t2 := now, now;
      ghost var r, b := run, bufferSize;
      if !reduce {
        OnePass(old(run), old(bufferSize), r, b, recoverMinTime, now);
      }
      while reduce && queueSize > 0
        invariant queue as object != seqIndex && old(clock) <= t1 <= t2 == clock
        invariant reduce ==> run == r && bufferSize == b && Untrimmed(View(), run, floor)
        invariant reduce ==> TrimStep(old(run), old(bufferSize), r, b, recoverMinTime, false, t1, true)
        invariant !reduce ==> Valid() && run.history == r.history && run.read == r.read
        invariant !reduce ==>
          Window(run.start, bufferSize) == Trimmed(r.history, r.read, old(bufferSize), recoverMinTime, t1, t2)
        decreases reduce
      {
        reduce, now := TrimOnce(true);
        t2 := now;
        TwoPasses(old(run), old(bufferSize), r, b, run, bufferSize, recoverMinTime, t1, t2);
      }
      if reduce {
        OldestSlot(View(), run, floor);
        assert false;
      }
      TrimmedMeaning(run.history, run.read, old(bufferSize), recoverMinTime, t1, t2);
    }

    /** The mapping from sequence numbers to slots. */
    method Index(seqRtp: nat, idx: nat)
      requires queue as object != seqIndex && seqRtp < seqIndex.Length
      modifies seqIndex
      ensures View() == old(View()).(seqIndex := old(View()).seqIndex[seqRtp := idx])
    {
      ghost var index := seqIndex[..];
      seqIndex[seqRtp] := idx;
      assert seqIndex[..] == index[seqRtp := idx];
    }

    /** One iteration of the sending loop: the next packet goes out and the window is trimmed. */
    method SendNext() returns (packet: Packet, ghost t1: nat, ghost t2: nat)
      requires Valid() && run.read < |run.history|
      modifies queue, seqIndex, `queueBytesize, `queueSize, `deleteIndex, `readIndex, `bufferSize, `clock, `run
      ensures Valid() && old(clock) <= clock
      ensures run.history == old(run).history && run.read == old(run).read + 1
      ensures packet == run.history[run.read - 1]
      ensures old(clock) <= t1 <= t2 == clock && 1 <= old(run).start <= |run.history|
      ensures DropsRightly(run.history, old(run).start, run.start, old(bufferSize), recoverMinTime, t1, t2)
    {
      hide *;
      Fields();
      Parts();
      ghost var s, r := View(), run;
      NextToSend(s, r, floor);
      SendKeepsCore(s, r, floor);
      var idx := (readIndex + 1) % QUEUE_MAX;
      readIndex := idx;
      Fields();
      if queue[idx] == None {
        assert false;
      }
      packet := queue[idx].value;
      Index(packet.seqRtp, idx);
      Fields();
      run := run.(read := run.read + 1);
      Fields();
      t1, t2 := Trim();
    }

    /**
      sender_send_data: as many as maxcount + 1 waiting packets go out, in the order they
      were queued, and fewer only when none is left. Neither the test for an empty slot
      nor a full ring ever gets in the way.
     */
    method SendData(maxcount: nat) returns (sent: nat)
      requires Valid()
      modifies queue, seqIndex, `queueBytesize, `queueSize, `deleteIndex, `readIndex, `bufferSize, `clock, `run
      ensures Valid() && old(clock) <= clock
      ensures run.history == old(run).history && run.read == old(run).read + sent <= |run.history|
      ensures forall n: nat :: n <= sent && OldFrom(run.history, old(run).start, n, old(clock), recoverMinTime) ==>
                run.start >= old(run).start + n
      ensures sent == maxcount + 1 || (sent <= maxcount && run.read == |run.history|)
    {
      hide *;
      Parts();
      UpToDate(View(), run, floor);
      var counter := 0;
      sent := 0;
      while true
        invariant Valid() && old(clock) <= clock
        invariant run.history == old(run).history && run.read == old(run).read + sent <= |run.history|
        invariant counter == sent <= maxcount + 1
        invariant forall n: nat :: n <= sent && OldFrom(run.history, old(run).start, n, old(clock), recoverMinTime) ==>
          run.start >= old(run).start + n
        decreases |run.history| - run.read
      {
        Fields();
        Parts();
        UpToDate(View(), run, floor);
        if counter > maxcount {
          break;
        }
        counter := counter + 1;
        var idx := (readIndex + 1) % QUEUE_MAX;
        if idx == writeIndex {
          break;
        }
        ghost var r, window, t1, t2 := run, bufferSize, 0, 0;
        var packet;
        packet, t1, t2 := SendNext();
        OneMoreGone(run.history, old(run).start, r.start, run.start, sent, old(clock), recoverMinTime, window, t1, t2);
        sent := sent + 1;
      }
    }

    /** The lookup part of rist_retry_dequeue. */
    method Lookup(seqNum: nat) returns (f: Found)
      requires Valid()
      ensures seqIndex.Length == SEQ_SIZE && seqIndex[seqNum % SEQ_SIZE] < queue.Length
      ensures f == LookupIn(queue[..], seqIndex[..], seqNum)
    {
      LookupFindsLast(View(), run, floor, seqNum);
      hide Inv;
      var idx := seqIndex[seqNum % SEQ_SIZE];
      if queue[idx] == None {
        f := Missing;
      } else if seqNum % SEQ_SIZE != queue[idx].value.seqRtp {
        f := WrongSeq;
      } else {
        f := Hit(queue[idx].value);
      }
    }
  }
}
