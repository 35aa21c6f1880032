/**
  The receiver's list of missing packets, a singly linked list with a tail pointer:
  appending (librist-master/src/flow.c:15-44), flushing (librist-master/src/flow.c:66-78),
  and the pass that requests retransmissions and prunes the list
  (librist-master/src/rist-common.c:717-788 and 1042-1227).
 */
module MissingQueue {
  import opened Arithmetic
  import opened Wrappers
  import opened ReorderRing
  import opened Sequences

  const RIST_MAX_NACKS := 200

  /** Unsigned 64-bit subtraction. */
  function Sub64(x: nat, y: nat): nat {
    (x - y) % WORD64
  }

  datatype CongestionControl = Off | Normal | Aggressive

  /** The configuration of the peer a packet is missing from. */
  datatype Config = Config(id: nat, disabled: bool, mode: CongestionControl, maxRetries: nat, rttMin: nat, rttMax: nat)

  /** The state of a peer's link at the time of a pass. */
  datatype Link = Link(bloat: bool, eightTimesRtt: nat)

  /** A missing packet. */
  datatype Entry = Entry(seqNum: nat, nextNack: nat, insertionTime: nat, nackCount: nat, peer: Config)

  /** A peer that can carry the requests. */
  datatype RtcpPeer = RtcpPeer(isRtcp: bool, dead: bool, lastRtt: nat, deadSince: nat)

  // ----- what becomes of one entry -----

  /** The time a new entry is given: no later than now and no earlier than a buffer time before it. */
  function ClampedTime(nackTime: nat, now: nat, recovery: nat): nat {
    var t := if nackTime > now then now else nackTime;
    if t < Sub64(now, recovery) then now else t
  }

  datatype Fate = Keep(entry: Entry) | Request(entry: Entry) | Remove

  function ClampedRtt(e: Entry, link: Link): nat {
    var rtt := link.eightTimesRtt / 8;
    if rtt < e.peer.rttMin then e.peer.rttMin else if rtt > e.peer.rttMax then e.peer.rttMax else rtt
  }

  /** rist_process_nack: give up after maxRetries or 1.1 times the buffer time, else ask again when it is time to. */
  function Process(e: Entry, link: Link, now: nat, recovery: nat): Fate {
    if e.nackCount >= e.peer.maxRetries then Remove
    else if 10 * Sub64(now, e.insertionTime) > 11 * recovery then Remove
    else if now >= e.nextNack then
      Request(e.(nextNack := now + ClampedRtt(e, link) * 11 / 10, nackCount := e.nackCount + 1))
    else Keep(e)
  }

  /** One entry in the pass: recovered packets go, a collapsed link drops or holds back requests, the rest is processed. */
  function FateOf(e: Entry, ring: Ring, link: Link, now: nat, recovery: nat): Fate
    requires e.seqNum < |ring|
  {
    if e.peer.disabled then Remove
    else if ring[e.seqNum].Some? then Remove
    else if link.bloat then
      if e.peer.mode == Aggressive || (e.peer.mode == Normal && e.nackCount > 4) then Remove else Keep(e)
    else Process(e, link, now, recovery)
  }

  /** The packet has not come, and its peer may be asked. */
  predicate StillMissing(e: Entry, ring: Ring)
    requires e.seqNum < |ring|
  {
    !e.peer.disabled && ring[e.seqNum] == None
  }

  /** Neither its retries nor its time are used up. */
  predicate HasChances(e: Entry, now: nat, recovery: nat) {
    e.nackCount < e.peer.maxRetries && 10 * Sub64(now, e.insertionTime) <= 11 * recovery
  }

  /** What is asked for now: over a link that is not choked, with chances left, when its time has come. */
  predicate AsksNow(e: Entry, ring: Ring, link: Link, now: nat, recovery: nat)
    requires e.seqNum < |ring|
  {
    StillMissing(e, ring) && !link.bloat && HasChances(e, now, recovery) && e.nextNack <= now
  }

  /** What stays: on a choked link what the mode of congestion control spares, else what has chances left. */
  predicate Stays(e: Entry, ring: Ring, link: Link, now: nat, recovery: nat)
    requires e.seqNum < |ring|
  {
    && StillMissing(e, ring)
    && if link.bloat then e.peer.mode == Off || (e.peer.mode == Normal && e.nackCount <= 4) else HasChances(e, now, recovery)
  }

  /**
    What becomes of an entry. One that is asked for counts one more retry, and is asked
    for again 1.1 round-trip times later, for a round trip between the peer's bounds.
   */
  lemma FateMeaning(e: Entry, ring: Ring, link: Link, now: nat, recovery: nat)
    requires e.seqNum < |ring|
    ensures var fate := FateOf(e, ring, link, now, recovery);
            && (fate.Request? <==> AsksNow(e, ring, link, now, recovery))
            && (fate.Remove? <==> !Stays(e, ring, link, now, recovery))
            && (fate.Keep? ==> fate.entry == e)
            && (fate.Request? ==>
                  && fate.entry == e.(nextNack := fate.entry.nextNack, nackCount := e.nackCount + 1)
                  && (e.peer.rttMin <= e.peer.rttMax ==>
                        && now + 11 * e.peer.rttMin / 10 <= fate.entry.nextNack <= now + 11 * e.peer.rttMax / 10)
                  && (e.peer.rttMin <= link.eightTimesRtt / 8 <= e.peer.rttMax ==>
                        fate.entry.nextNack == now + 11 * (link.eightTimesRtt / 8) / 10))
  {
    hide Sub64;
  }

  /**
    On a link that is not choked an entry stays for as many requests as it has retries and
    for 1.1 times the buffer time; on one that is, every entry is given up at once, after
    its fifth request, or not at all, as its peer's congestion control says.
   */
  lemma StaysMeaning(e: Entry, ring: Ring, link: Link, now: nat, recovery: nat)
    requires e.seqNum < |ring| && ring[e.seqNum] == None && !e.peer.disabled
    ensures var fate, age := FateOf(e, ring, link, now, recovery), (now - e.insertionTime) % 0x1_0000_0000_0000_0000;
            && (!link.bloat ==> (fate.Remove? <==> e.nackCount >= e.peer.maxRetries || 10 * age > 11 * recovery))
            && (!link.bloat ==> (fate.Keep? <==> !fate.Remove? && now < e.nextNack))
            && (link.bloat ==> fate.Keep? || fate.Remove?)
            && (link.bloat && e.peer.mode.Off? ==> fate.Keep?)
            && (link.bloat && e.peer.mode.Normal? ==> (fate.Remove? <==> e.nackCount >= 5))
            && (link.bloat && e.peer.mode.Aggressive? ==> fate.Remove?)
  {
  }

  /** A new entry has the time it was given if that is within the buffer time before now, else the present one. */
  lemma ClampedTimeMeaning(nackTime: nat, now: nat, recovery: nat)
    requires recovery <= now < WORD64
    ensures var t := ClampedTime(nackTime, now, recovery);
            && now - recovery <= t <= now
            && t == if now - recovery <= nackTime <= now then nackTime else now
  {
  }

  // ----- the whole pass -----

  /** The clock readings and link states that a pass meets, entry by entry. */
  datatype Reading = Reading(link: Link, now: nat)

  ghost predicate WellFormed(entries: seq<Entry>) {
    forall k :: 0 <= k < |entries| ==> entries[k].seqNum < QUEUE_MAX && entries[k].nackCount <= entries[k].peer.maxRetries
  }

  /** The entries that stay, in their order. */
  ghost function Survivors(entries: seq<Entry>, ring: Ring, readings: nat -> Reading, recovery: nat): (r: seq<Entry>)
    requires WellFormed(entries) && |ring| == QUEUE_MAX
  {
    if entries == [] then []
    else
      var n := |entries| - 1;
      var before := Survivors(entries[..n], ring, readings, recovery);
      match FateOf(entries[n], ring, readings(n).link, readings(n).now, recovery)
      case Remove => before
      case Keep(e) => before + [e]
      case Request(e) => before + [e]
  }

  /** The sequence numbers that are due, in queue order. */
  ghost function Due(entries: seq<Entry>, ring: Ring, readings: nat -> Reading, recovery: nat): (r: seq<nat>)
    requires WellFormed(entries) && |ring| == QUEUE_MAX
  {
    if entries == [] then []
    else
      var n := |entries| - 1;
      var before := Due(entries[..n], ring, readings, recovery);
      if FateOf(entries[n], ring, readings(n).link, readings(n).now, recovery).Request?
      then before + [entries[n].seqNum] else before
  }

  lemma SurvivorsAppend(entries: seq<Entry>, k: nat, ring: Ring, readings: nat -> Reading, recovery: nat)
    requires WellFormed(entries) && |ring| == QUEUE_MAX && k < |entries|
    ensures Survivors(entries[..k + 1], ring, readings, recovery)
            == Survivors(entries[..k], ring, readings, recovery)
               + (match FateOf(entries[k], ring, readings(k).link, readings(k).now, recovery)
                  case Remove => [] case Keep(e) => [e] case Request(e) => [e])
    ensures Due(entries[..k + 1], ring, readings, recovery)
            == Due(entries[..k], ring, readings, recovery)
               + (if FateOf(entries[k], ring, readings(k).link, readings(k).now, recovery).Request?
                  then [entries[k].seqNum] else [])
  {
    assert entries[..k + 1][..k] == entries[..k];
  }

  /** All of these are still missing. */
  ghost predicate AllMissing(entries: seq<Entry>, ring: Ring) {
    forall k :: 0 <= k < |entries| ==> entries[k].seqNum < |ring| && StillMissing(entries[k], ring)
  }

  /** No packet with one of these numbers has come. */
  ghost predicate NoneCame(numbers: seq<nat>, ring: Ring) {
    forall k :: 0 <= k < |numbers| ==> numbers[k] < |ring| && ring[numbers[k]] == None
  }

  /** The same packet, missing from the same peer since the same time. */
  predicate SamePacket(e: Entry, e': Entry) {
    e.seqNum == e'.seqNum && e.peer == e'.peer && e.insertionTime == e'.insertionTime
  }

  /** What is due are the numbers to be asked for now, and nothing that has come. */
  lemma {:induction false} DueMeaning(entries: seq<Entry>, ring: Ring, readings: nat -> Reading, recovery: nat)
    requires WellFormed(entries) && |ring| == QUEUE_MAX
    ensures NoneCame(Due(entries, ring, readings, recovery), ring)
    ensures forall x :: x in Due(entries, ring, readings, recovery) <==>
              exists j :: 0 <= j < |entries| && entries[j].seqNum == x
                          && AsksNow(entries[j], ring, readings(j).link, readings(j).now, recovery)
  {
    if entries != [] {
      var n := |entries| - 1;
      DueMeaning(entries[..n], ring, readings, recovery);
      FateMeaning(entries[n], ring, readings(n).link, readings(n).now, recovery);
      hide FateOf, AsksNow;
      forall x
        ensures x in Due(entries, ring, readings, recovery) <==>
                  exists j :: 0 <= j < |entries| && entries[j].seqNum == x
                              && AsksNow(entries[j], ring, readings(j).link, readings(j).now, recovery)
      {
        forall j | 0 <= j < n
          ensures entries[..n][j] == entries[j]
        {
        }
      }
    }
  }

  /** Each of the numbers due belongs to an entry of its own, in the order of the list, and no entry to be asked for is left out. */
  lemma {:induction false} DueInOrder(entries: seq<Entry>, ring: Ring, readings: nat -> Reading, recovery: nat)
    returns (places: seq<nat>)
    requires WellFormed(entries) && |ring| == QUEUE_MAX
    ensures |places| == |Due(entries, ring, readings, recovery)|
    ensures forall j, k :: 0 <= j < k < |places| ==> places[j] < places[k]
    ensures forall k :: 0 <= k < |places| ==>
              places[k] < |entries| && Due(entries, ring, readings, recovery)[k] == entries[places[k]].seqNum
    ensures forall j :: 0 <= j < |entries| ==>
              (j in places <==> AsksNow(entries[j], ring, readings(j).link, readings(j).now, recovery))
  {
    if entries == [] {
      places := [];
    } else {
      var n := |entries| - 1;
      places := DueInOrder(entries[..n], ring, readings, recovery);
      SurvivorsAppend(entries, n, ring, readings, recovery);
      FateMeaning(entries[n], ring, readings(n).link, readings(n).now, recovery);
      assert entries[..n + 1] == entries;
      hide FateOf, AsksNow, Due, Survivors, WellFormed;
      assert forall j :: 0 <= j < n ==> entries[..n][j] == entries[j];
      if AsksNow(entries[n], ring, readings(n).link, readings(n).now, recovery) {
        places := places + [n];
      }
    }
  }

  /** What survives is still missing, and every entry that stays is among it. */
  lemma {:induction false} SurvivorsMeaning(entries: seq<Entry>, ring: Ring, readings: nat -> Reading, recovery: nat)
    requires WellFormed(entries) && |ring| == QUEUE_MAX
    ensures AllMissing(Survivors(entries, ring, readings, recovery), ring)
    ensures forall j :: 0 <= j < |entries| && Stays(entries[j], ring, readings(j).link, readings(j).now, recovery) ==>
              exists k :: 0 <= k < |Survivors(entries, ring, readings, recovery)|
                          && SamePacket(Survivors(entries, ring, readings, recovery)[k], entries[j])
  {
    if entries != [] {
      var n := |entries| - 1;
      SurvivorsMeaning(entries[..n], ring, readings, recovery);
      FateMeaning(entries[n], ring, readings(n).link, readings(n).now, recovery);
      var before, all := Survivors(entries[..n], ring, readings, recovery), Survivors(entries, ring, readings, recovery);
      hide FateOf, Stays;
      forall j | 0 <= j < |entries| && Stays(entries[j], ring, readings(j).link, readings(j).now, recovery)
        ensures exists k :: 0 <= k < |all| && SamePacket(all[k], entries[j])
      {
        if j < n {
          assert entries[..n][j] == entries[j];
          var k :| 0 <= k < |before| && SamePacket(before[k], entries[j]);
          assert all[k] == before[k];
        } else {
          assert SamePacket(all[|all| - 1], entries[j]);
        }
      }
    }
  }

  /** The survivors are the entries that stay, each once and in the order of the list. */
  lemma {:induction false} SurvivorsInOrder(entries: seq<Entry>, ring: Ring, readings: nat -> Reading, recovery: nat)
    returns (places: seq<nat>)
    requires WellFormed(entries) && |ring| == QUEUE_MAX
    ensures |places| == |Survivors(entries, ring, readings, recovery)|
    ensures forall j, k :: 0 <= j < k < |places| ==> places[j] < places[k]
    ensures forall k :: 0 <= k < |places| ==>
              places[k] < |entries| && SamePacket(Survivors(entries, ring, readings, recovery)[k], entries[places[k]])
    ensures forall j :: 0 <= j < |entries| ==>
              (j in places <==> Stays(entries[j], ring, readings(j).link, readings(j).now, recovery))
  {
    if entries == [] {
      places := [];
    } else {
      var n := |entries| - 1;
      places := SurvivorsInOrder(entries[..n], ring, readings, recovery);
      SurvivorsAppend(entries, n, ring, readings, recovery);
      FateMeaning(entries[n], ring, readings(n).link, readings(n).now, recovery);
      assert entries[..n + 1] == entries;
      hide FateOf, Stays, Due, Survivors, WellFormed;
      assert forall j :: 0 <= j < n ==> entries[..n][j] == entries[j];
      if Stays(entries[n], ring, readings(n).link, readings(n).now, recovery) {
        places := places + [n];
      }
    }
  }

  /** How many entries have been requested at least once. */
  ghost function Requested(entries: seq<Entry>): nat {
    if entries == [] then 0
    else Requested(entries[..|entries| - 1]) + (if entries[|entries| - 1].nackCount > 0 then 1 else 0)
  }

  lemma RequestedAppend(entries: seq<Entry>, e: Entry)
    ensures Requested(entries + [e]) == Requested(entries) + (if e.nackCount > 0 then 1 else 0)
  {
    assert (entries + [e])[..|entries|] == entries;
  }

  lemma {:induction false} RequestedConcat(a: seq<Entry>, b: seq<Entry>)
    ensures Requested(a + b) == Requested(a) + Requested(b)
  {
    if b == [] {
      assert a + b == a;
    } else {
      var n := |b| - 1;
      assert a + b == (a + b[..n]) + [b[n]];
      RequestedConcat(a, b[..n]);
      RequestedAppend(a + b[..n], b[n]);
    }
  }

  /** The sequence s without its i-th element. */
  function Without<T>(s: seq<T>, i: nat): (r: seq<T>)
    requires i < |s|
    ensures |r| == |s| - 1
    ensures forall j :: 0 <= j < |r| ==> r[j] == s[if j < i then j else j + 1]
  {
    s[..i] + s[i + 1..]
  }

  /** It counts the entries that were. */
  lemma {:induction false} RequestedCounts(entries: seq<Entry>)
    ensures Requested(entries) == |set i | 0 <= i < |entries| && entries[i].nackCount > 0|
  {
    if entries != [] {
      var n := |entries| - 1;
      RequestedCounts(entries[..n]);
      var before := set i | 0 <= i < |entries[..n]| && entries[..n][i].nackCount > 0;
      var all := set i | 0 <= i < |entries| && entries[i].nackCount > 0;
      assert all == before + (if entries[n].nackCount > 0 then {n} else {});
    }
  }

  /** Replacing or removing one entry changes the count by that entry alone. */
  lemma RequestedAt(entries: seq<Entry>, i: nat, e: Entry)
    requires i < |entries|
    ensures var was := if entries[i].nackCount > 0 then 1 else 0;
            && Requested(Without(entries, i)) == Requested(entries) - was
            && Requested(entries[i := e]) == Requested(entries) - was + (if e.nackCount > 0 then 1 else 0)
  {
    var a, b := entries[..i], entries[i + 1..];
    assert entries == a + [entries[i]] + b && entries[i := e] == a + [e] + b;
    RequestedConcat(a + [entries[i]], b);
    RequestedConcat(a + [e], b);
    RequestedConcat(a, b);
    RequestedAppend(a, entries[i]);
    RequestedAppend(a, e);
  }

  // ----- choosing the peer for a group -----

  predicate IsLive(p: RtcpPeer) {
    p.isRtcp && !p.dead && p.lastRtt < WORD64 - 1
  }

  /** Whether some peer can carry requests. */
  ghost predicate HasLivePeer(peers: seq<RtcpPeer>) {
    exists i :: 0 <= i < |peers| && IsLive(peers[i])
  }

  /** The first live one of the first n peers with the least round-trip time. */
  ghost predicate IsBest(peers: seq<RtcpPeer>, n: nat, i: nat) {
    && i < n <= |peers| && IsLive(peers[i])
    && (forall j :: 0 <= j < n && IsLive(peers[j]) ==> peers[i].lastRtt <= peers[j].lastRtt)
    && (forall j :: 0 <= j < i && IsLive(peers[j]) ==> peers[i].lastRtt < peers[j].lastRtt)
  }

  /**
    Without a live peer the group goes to peers that died, once for every position from
    the first of them on, to the last of them found so far.
   */
  function DeadTargets(peers: seq<RtcpPeer>, n: nat): (t: seq<nat>)
    requires n <= |peers|
  {
    if n == 0 then []
    else
      var before := DeadTargets(peers, n - 1);
      if peers[n - 1].isRtcp && peers[n - 1].deadSince > 0 then before + [n - 1]
      else if before != [] then before + [before[|before| - 1]] else []
  }

  /** The group goes to a peer that carries requests and is alive, and none of those has a shorter round trip. */
  lemma BestIsLive(peers: seq<RtcpPeer>, i: nat)
    requires IsBest(peers, |peers|, i)
    ensures peers[i].isRtcp && !peers[i].dead
    ensures forall j :: 0 <= j < |peers| && peers[j].isRtcp && !peers[j].dead ==> peers[i].lastRtt <= peers[j].lastRtt
  {
  }

  /** Without a live peer nobody is asked but peers that died, and somebody is if there is one. */
  lemma {:induction false} DeadAreAsked(peers: seq<RtcpPeer>, n: nat)
    requires n <= |peers|
    ensures var t := DeadTargets(peers, n);
            && (forall k :: 0 <= k < |t| ==> t[k] < n && peers[t[k]].isRtcp && peers[t[k]].deadSince > 0)
            && (forall j :: 0 <= j < n && peers[j].isRtcp && peers[j].deadSince > 0 ==> j in t)
  {
    if n > 0 {
      DeadAreAsked(peers, n - 1);
      var before, t := DeadTargets(peers, n - 1), DeadTargets(peers, n);
      assert |t| > |before| ==> t == before + [t[|t| - 1]];
    }
  }

  /** A group of requests handed to a peer. */
  datatype Group = Group(peer: nat, seqNums: seq<nat>)

  ghost function Flatten(groups: seq<Group>): seq<nat> {
    if groups == [] then [] else Flatten(groups[..|groups| - 1]) + groups[|groups| - 1].seqNums
  }

  lemma FlattenAppend(groups: seq<Group>, g: Group)
    ensures Flatten(groups + [g]) == Flatten(groups) + g.seqNums
  {
    assert (groups + [g])[..|groups|] == groups;
  }

  /** Every group goes to the best live peer, and none is empty or larger than a message takes. */
  ghost predicate GroupsFit(groups: seq<Group>, peers: seq<RtcpPeer>) {
    forall k :: 0 <= k < |groups| ==>
      IsBest(peers, |peers|, groups[k].peer) && 0 < |groups[k].seqNums| <= RIST_MAX_NACKS - 1
  }

  lemma {:induction false} FlattenConcat(a: seq<Group>, b: seq<Group>)
    ensures Flatten(a + b) == Flatten(a) + Flatten(b)
  {
    if b == [] {
      assert a + b == a;
    } else {
      var init, g := b[..|b| - 1], b[|b| - 1];
      assert b == init + [g] && a + b == (a + init) + [g];
      FlattenConcat(a, init);
      FlattenAppend(init, g);
      FlattenAppend(a + init, g);
      assert (Flatten(a) + Flatten(init)) + g.seqNums == Flatten(a) + (Flatten(init) + g.seqNums);
    }
  }

  /** The list after the first k entries were passed: i of them stayed. */
  ghost predicate PassedTo(entries0: seq<Entry>, entries: seq<Entry>, k: nat, i: nat,
                           ring: Ring, readings: nat -> Reading, recovery: nat)
  {
    && WellFormed(entries0) && |ring| == QUEUE_MAX && k <= |entries0|
    && var stay := Survivors(entries0[..k], ring, readings, recovery);
       i == |stay| && entries == stay + entries0[k..]
  }

  /** The list after its i-th entry met its fate. */
  function After(entries: seq<Entry>, i: nat, fate: Fate): seq<Entry>
    requires i < |entries|
  {
    match fate
    case Remove => Without(entries, i)
    case Keep(e) => entries[i := e]
    case Request(e) => entries[i := e]
  }

  lemma PassNext(entries0: seq<Entry>, entries: seq<Entry>, k: nat, i: nat,
                 ring: Ring, readings: nat -> Reading, recovery: nat)
    requires PassedTo(entries0, entries, k, i, ring, readings, recovery) && k < |entries0|
    ensures i < |entries| && entries[i] == entries0[k] && entries[i].seqNum < QUEUE_MAX
    ensures var fate := FateOf(entries[i], ring, readings(k).link, readings(k).now, recovery);
            PassedTo(entries0, After(entries, i, fate), k + 1, if fate.Remove? then i else i + 1, ring, readings, recovery)
  {
    SurvivorsAppend(entries0, k, ring, readings, recovery);
    assert entries0[k..] == [entries0[k]] + entries0[k + 1..];
  }

  /** The nodes from the i-th on are those from the k-th on of the original list. */
  ghost predicate Remaining<T>(nodes0: seq<T>, nodes: seq<T>, k: nat, i: nat) {
    k <= |nodes0| && i <= |nodes| && nodes[i..] == nodes0[k..]
  }

  /** What was sent and what is pending, against what has been due so far. */
  ghost predicate RequestsTo(groups: seq<Group>, pending: seq<nat>, pending0: seq<nat>, entries0: seq<Entry>, k: nat,
                             ring: Ring, readings: nat -> Reading, recovery: nat)
  {
    && WellFormed(entries0) && |ring| == QUEUE_MAX && k <= |entries0|
    && Flatten(groups) + pending == pending0 + Due(entries0[..k], ring, readings, recovery)
  }

  lemma PassStarts<T>(entries0: seq<Entry>, nodes0: seq<T>, pending0: seq<nat>,
                      ring: Ring, readings: nat -> Reading, recovery: nat)
    requires WellFormed(entries0) && |ring| == QUEUE_MAX
    ensures PassedTo(entries0, entries0, 0, 0, ring, readings, recovery) && Remaining(nodes0, nodes0, 0, 0)
    ensures RequestsTo([], pending0, pending0, entries0, 0, ring, readings, recovery)
  {
    assert entries0[..0] == [] && entries0[0..] == entries0;
    var none: seq<Group> := [];
    assert Flatten(none) + pending0 == pending0;
    assert pending0 + Due(entries0[..0], ring, readings, recovery) == pending0;
    assert RequestsTo(none, pending0, pending0, entries0, 0, ring, readings, recovery);
  }

  lemma RequestsEnd(groups: seq<Group>, last: seq<Group>, pending: seq<nat>, pending0: seq<nat>, entries0: seq<Entry>,
                    peers: seq<RtcpPeer>, ring: Ring, readings: nat -> Reading, recovery: nat)
    requires RequestsTo(groups, pending, pending0, entries0, |entries0|, ring, readings, recovery)
    requires GroupsFit(groups, peers) && |pending| < RIST_MAX_NACKS
    requires if pending == [] then last == []
             else |last| == 1 && last[0].seqNums == pending && IsBest(peers, |peers|, last[0].peer)
    ensures GroupsFit(groups + last, peers)
    ensures Flatten(groups + last) == pending0 + Due(entries0, ring, readings, recovery)
  {
    assert entries0[..|entries0|] == entries0;
    if pending == [] {
      assert groups + last == groups && Flatten(groups) + pending == Flatten(groups);
    } else {
      assert last == [last[0]];
      FlattenAppend(groups, last[0]);
    }
  }

  lemma PassEnds(entries0: seq<Entry>, entries: seq<Entry>, i: nat, ring: Ring, readings: nat -> Reading, recovery: nat)
    requires PassedTo(entries0, entries, |entries0|, i, ring, readings, recovery)
    ensures entries == Survivors(entries0, ring, readings, recovery)
  {
    assert entries0[..|entries0|] == entries0;
  }

  lemma RemainingNext<T>(nodes0: seq<T>, nodes: seq<T>, k: nat, i: nat)
    requires Remaining(nodes0, nodes, k, i) && k < |nodes0|
    ensures i < |nodes| && nodes[i] == nodes0[k]
    ensures Remaining(nodes0, nodes, k + 1, i + 1) && Remaining(nodes0, Without(nodes, i), k + 1, i)
    ensures i + 1 < |nodes| <==> k + 1 < |nodes0|
    ensures k + 1 < |nodes0| ==> nodes[i + 1] == nodes0[k + 1]
    ensures forall j :: 0 <= j < i ==> Without(nodes, i)[j] == nodes[j]
    ensures i + 1 < |nodes| ==> Without(nodes, i)[i] == nodes[i + 1]
  {
    assert nodes[i..][0] == nodes0[k..][0];
    assert nodes[i..][1..] == nodes0[k..][1..];
    assert nodes[i + 1..] == nodes[i..][1..] && nodes0[k + 1..] == nodes0[k..][1..];
    assert Without(nodes, i)[i..] == nodes[i + 1..];
  }

  /** No node that was not there before. */
  ghost predicate Within<T>(nodes: seq<T>, nodes0: seq<T>) {
    forall j :: 0 <= j < |nodes| ==> nodes[j] in nodes0
  }

  lemma WithinNext<T>(nodes: seq<T>, nodes0: seq<T>, i: nat)
    requires Within(nodes, nodes0) && i < |nodes|
    ensures Within(Without(nodes, i), nodes0)
  {
  }

  /** Sequence numbers and nothing else. */
  ghost predicate Numbers(s: seq<nat>) {
    forall j :: 0 <= j < |s| ==> s[j] < QUEUE_MAX
  }

  /** What is asked for are sequence numbers, once what was pending before are. */
  lemma {:induction false} DueAreNumbers(entries: seq<Entry>, ring: Ring, readings: nat -> Reading, recovery: nat)
    requires WellFormed(entries) && |ring| == QUEUE_MAX
    ensures Numbers(Due(entries, ring, readings, recovery))
  {
    if entries != [] {
      DueAreNumbers(entries[..|entries| - 1], ring, readings, recovery);
    }
  }

  lemma {:induction false} GroupsAreNumbers(groups: seq<Group>)
    requires Numbers(Flatten(groups))
    ensures forall k :: 0 <= k < |groups| ==> Numbers(groups[k].seqNums)
  {
    if groups != [] {
      var init, g := groups[..|groups| - 1], groups[|groups| - 1];
      assert Flatten(groups)[..|Flatten(init)|] == Flatten(init);
      assert Flatten(groups)[|Flatten(init)|..] == g.seqNums;
      GroupsAreNumbers(init);
      forall k | 0 <= k < |groups|
        ensures Numbers(groups[k].seqNums)
      {
        assert k < |init| ==> groups[k] == init[k];
      }
    }
  }

  lemma Regroup(sent: seq<nat>, more: seq<nat>, pending': seq<nat>, pending: seq<nat>, pending0: seq<nat>,
                due: seq<nat>, d: seq<nat>)
    requires sent + pending == pending0 + due && more + pending' == pending + d
    ensures (sent + more) + pending' == pending0 + (due + d)
  {
    assert (sent + more) + pending' == sent + (more + pending');
    assert sent + (pending + d) == (sent + pending) + d;
    assert (pending0 + due) + d == pending0 + (due + d);
  }

  lemma RequestsNext(groups: seq<Group>, more: seq<Group>, pending: seq<nat>, pending': seq<nat>, pending0: seq<nat>,
                     entries0: seq<Entry>, k: nat, ring: Ring, readings: nat -> Reading, recovery: nat)
    requires RequestsTo(groups, pending, pending0, entries0, k, ring, readings, recovery) && k < |entries0|
    requires Flatten(more) + pending' == pending
               + (if FateOf(entries0[k], ring, readings(k).link, readings(k).now, recovery).Request?
                  then [entries0[k].seqNum] else [])
    ensures RequestsTo(groups + more, pending', pending0, entries0, k + 1, ring, readings, recovery)
  {
    SurvivorsAppend(entries0, k, ring, readings, recovery);
    FlattenConcat(groups, more);
    hide Flatten, Due, FateOf;
    Regroup(Flatten(groups), Flatten(more), pending', pending, pending0, Due(entries0[..k], ring, readings, recovery),
            if FateOf(entries0[k], ring, readings(k).link, readings(k).now, recovery).Request? then [entries0[k].seqNum] else []);
  }

  lemma GroupsFitConcat(a: seq<Group>, b: seq<Group>, peers: seq<RtcpPeer>)
    requires GroupsFit(a, peers) && GroupsFit(b, peers)
    ensures GroupsFit(a + b, peers)
  {
  }

  /** What a pass starts from: the list, what was pending, and what it meets on the way. */
  datatype Pass<T> = Pass(entries: seq<Entry>, nodes: seq<T>, pending: seq<nat>, ring: Ring, readings: nat -> Reading,
                          recovery: nat, peers: seq<RtcpPeer>, sends: bool)
  {
    function Fate(k: nat): Fate
      requires |ring| == QUEUE_MAX && k < |entries| && entries[k].seqNum < QUEUE_MAX
    {
      FateOf(entries[k], ring, readings(k).link, readings(k).now, recovery)
    }
  }

  /** The pass after k entries, of which i stayed: the list, the groups sent and the requests pending. */
  ghost predicate PassAt<T>(p: Pass<T>, k: nat, i: nat, entries: seq<Entry>, nodes: seq<T>,
                            groups: seq<Group>, pending: seq<nat>)
  {
    && |p.nodes| == |p.entries| && |nodes| == |entries|
    && PassedTo(p.entries, entries, k, i, p.ring, p.readings, p.recovery)
    && Remaining(p.nodes, nodes, k, i) && Within(nodes, p.nodes)
    && (Numbers(p.pending) ==> Numbers(pending))
    && (p.sends ==> |pending| < RIST_MAX_NACKS && GroupsFit(groups, p.peers)
                    && RequestsTo(groups, pending, p.pending, p.entries, k, p.ring, p.readings, p.recovery))
  }

  lemma PassAtStart<T>(p: Pass<T>)
    requires WellFormed(p.entries) && |p.ring| == QUEUE_MAX && |p.nodes| == |p.entries|
    requires p.sends ==> |p.pending| < RIST_MAX_NACKS
    ensures PassAt(p, 0, 0, p.entries, p.nodes, [], p.pending)
  {
    PassStarts(p.entries, p.nodes, p.pending, p.ring, p.readings, p.recovery);
  }

  class Node {
    var entry: Entry
    var next: Node?

    constructor (entry: Entry)
      ensures this.entry == entry && next == null
    {
      this.entry, next := entry, null;
    }
  }

  /** The i-th node, or null outside the list. */
  ghost function At(nodes: seq<Node>, i: int): Node? {
    if 0 <= i < |nodes| then nodes[i] else null
  }

  lemma PassAtNode(p: Pass<Node>, k: nat, i: nat, entries: seq<Entry>, nodes: seq<Node>,
                   groups: seq<Group>, pending: seq<nat>)
    requires PassAt(p, k, i, entries, nodes, groups, pending) && k < |p.nodes|
    ensures i < |nodes| && nodes[i] == p.nodes[k] && |p.ring| == QUEUE_MAX
    ensures entries[i] == p.entries[k] && entries[i].seqNum < QUEUE_MAX
    ensures At(p.nodes, k) == nodes[i] && At(p.nodes, k + 1) == At(nodes, i + 1)
    ensures p.sends ==> |pending| < RIST_MAX_NACKS
  {
    PassNext(p.entries, entries, k, i, p.ring, p.readings, p.recovery);
    RemainingNext(p.nodes, nodes, k, i);
  }

  lemma PassAtNext(p: Pass<Node>, k: nat, i: nat, entries: seq<Entry>, nodes: seq<Node>,
                   groups: seq<Group>, pending: seq<nat>, more: seq<Group>, pending': seq<nat>)
    requires PassAt(p, k, i, entries, nodes, groups, pending) && k < |p.nodes| && i < |nodes|
    requires |p.ring| == QUEUE_MAX && p.entries[k].seqNum < QUEUE_MAX
    requires Numbers(pending) ==> Numbers(pending')
    requires p.sends ==> |pending'| < RIST_MAX_NACKS && GroupsFit(more, p.peers)
                         && Flatten(more) + pending' == pending + (if p.Fate(k).Request? then [p.entries[k].seqNum] else [])
    ensures var gone := p.Fate(k).Remove?;
            var nodes' := if gone then Without(nodes, i) else nodes;
            && PassAt(p, k + 1, if gone then i else i + 1, After(entries, i, p.Fate(k)), nodes', groups + more, pending')
            && At(nodes', if gone then i - 1 else i) == if gone then At(nodes, i - 1) else nodes[i]
  {
    hide FateOf;
    PassNext(p.entries, entries, k, i, p.ring, p.readings, p.recovery);
    RemainingNext(p.nodes, nodes, k, i);
    WithinNext(nodes, p.nodes, i);
    hide Survivors, Due, PassedTo, Remaining, Within, Numbers;
    if p.sends {
      RequestsNext(groups, more, pending, pending', p.pending, p.entries, k, p.ring, p.readings, p.recovery);
      GroupsFitConcat(groups, more, p.peers);
    }
  }

  lemma PassAtEnd<T>(p: Pass<T>, i: nat, entries: seq<Entry>, nodes: seq<T>,
                     groups: seq<Group>, pending: seq<nat>, last: seq<Group>)
    requires PassAt(p, |p.nodes|, i, entries, nodes, groups, pending)
    requires p.sends ==>
               if pending == [] then last == []
               else |last| == 1 && last[0].seqNums == pending && IsBest(p.peers, |p.peers|, last[0].peer)
    ensures WellFormed(p.entries) && |p.ring| == QUEUE_MAX && Within(nodes, p.nodes)
    ensures Numbers(p.pending) ==> Numbers(pending)
    ensures entries == Survivors(p.entries, p.ring, p.readings, p.recovery)
    ensures p.sends ==>
              && GroupsFit(groups + last, p.peers)
              && Flatten(groups + last) == p.pending + Due(p.entries, p.ring, p.readings, p.recovery)
  {
    PassEnds(p.entries, entries, i, p.ring, p.readings, p.recovery);
    if p.sends {
      RequestsEnd(groups, last, pending, p.pending, p.entries, p.peers, p.ring, p.readings, p.recovery);
    }
  }

  // ----- the list -----

  /** The nodes are distinct and chained in this order. */
  ghost predicate Chained(nodes: seq<Node>)
    reads nodes`next
  {
    && Distinct(nodes)
    && (forall i {:trigger nodes[i].next} :: 0 <= i < |nodes| - 1 ==> nodes[i].next == nodes[i + 1])
    && (nodes != [] ==> nodes[|nodes| - 1].next == null)
  }

  function Only(n: Node?): set<Node> {
    if n == null then {} else {n}
  }

  /** What the nodes hold, in order. */
  ghost predicate Hold(nodes: seq<Node>, entries: seq<Entry>)
    reads nodes`entry
  {
    |entries| == |nodes| && forall i :: 0 <= i < |nodes| ==> nodes[i].entry == entries[i]
  }

  lemma DistinctWithout<T>(s: seq<T>, i: nat)
    requires Distinct(s) && i < |s|
    ensures Distinct(Without(s, i))
    ensures i > 0 ==> forall j :: 0 <= j < |s| - 1 && j != i - 1 ==> Without(s, i)[j] != s[i - 1]
  {
  }

  lemma WellFormedAt(entries: seq<Entry>, i: nat, e: Entry)
    requires WellFormed(entries) && i < |entries|
    requires e.seqNum == entries[i].seqNum && e.nackCount <= e.peer.maxRetries
    ensures WellFormed(entries[i := e])
  {
  }

  lemma ListWithout(nodes: seq<Node>, entries: seq<Entry>, i: nat)
    requires Hold(nodes, entries) && WellFormed(entries) && i < |nodes|
    ensures Hold(Without(nodes, i), Without(entries, i)) && WellFormed(Without(entries, i))
  {
  }

  class MissingList {
    var missing: Node?
    var missingTail: Node?
    var missingCounter: int
    const nacks: array<nat>
    var nacksCounter: nat

    ghost var nodes: seq<Node>
    ghost var entries: seq<Entry>

    /** missing leads through the nodes, and missingTail to the last of them. */
    ghost predicate Linked()
      reads `missing, `missingTail, `nodes, nodes`next
    {
      && Chained(nodes)
      && missing == (if nodes == [] then null else nodes[0])
      && (nodes != [] ==> missingTail == nodes[|nodes| - 1])
    }

    /** The list is well formed, its tail pointer leads to its last node, and the counter counts what was requested. */
    ghost predicate Valid()
      reads this, nodes
    {
      && nacks.Length == RIST_MAX_NACKS && nacksCounter <= RIST_MAX_NACKS
      && Linked() && Hold(nodes, entries)
      && WellFormed(entries)
      && missingCounter == Requested(entries)
    }

    constructor ()
      ensures Valid() && fresh(nacks) && entries == [] && nodes == [] && nacksCounter == 0
    {
      missing, missingTail, missingCounter, nacksCounter := null, null, 0, 0;
      nacks := new nat[RIST_MAX_NACKS];
      nodes, entries := [], [];
    }

    /** The pointer part of appending a node. */
    method AppendNode(m: Node)
      requires Linked() && m !in nodes && m.next == null
      modifies `missing, `missingTail, `nodes, nodes`next
      ensures Linked() && nodes == old(nodes) + [m]
    {
      if missing == null {
        missing := m;
        missingTail := m;
      } else {
        missingTail.next := m;
        missingTail := m;
      }
      nodes := nodes + [m];
    }

    /** rist_receiver_missing: a new entry at the end; its time is kept within the buffer time before now. */
    method Append(peer: Config, nackTime0: nat, seqNum: nat, rtt: nat, now: nat, recovery: nat)
      requires Valid() && seqNum < QUEUE_MAX
      modifies `missing, `missingTail, `nodes, `entries, nodes`next
      ensures Valid()
      ensures nodes != [] && nodes[..|nodes| - 1] == old(nodes) && fresh(nodes[|nodes| - 1])
      ensures entries == old(entries) + [Entry(seqNum, now + rtt, ClampedTime(nackTime0, now, recovery), 0, peer)]
    {
      hide Requested, Sub64, Linked;
      var nackTime := nackTime0;
      if nackTime > now {
        nackTime := now;
      }
      if nackTime < Sub64(now, recovery) {
        nackTime := now;
      }
      var m := new Node(Entry(seqNum, now + rtt, nackTime, 0, peer));
      RequestedAppend(entries, m.entry);
      AppendNode(m);
      entries := entries + [m.entry];
    }

    lemma HeadFacts()
      requires Valid()
      ensures missing == At(nodes, 0) && |entries| == |nodes|
    {
    }

    lemma NodeFacts(i: nat)
      requires Valid() && i < |nodes|
      ensures |entries| == |nodes| && nodes[i].entry == entries[i] && entries[i].seqNum < QUEUE_MAX
      ensures nodes[i].next == At(nodes, i + 1)
    {
    }

    /** rist_flush_missing_flow_queue; the tail pointer is left dangling, which an empty list allows. */
    method Flush()
      requires Valid()
      modifies `missing, `missingCounter, `nodes, `entries
      ensures Valid() && entries == [] && nodes == []
    {
      missing := null;
      missingCounter := 0;
      nodes, entries := [], [];
    }

    /** The pointer part of taking mb, the i-th node, out of the list. */
    method UnlinkNode(mb: Node, previous: Node?, ghost i: nat)
      requires Linked() && i < |nodes| && nodes[i] == mb
      requires previous == At(nodes, i - 1)
      modifies `missing, `missingTail, `nodes, Only(previous)`next
      ensures Linked() && nodes == Without(old(nodes), i)
    {
      DistinctWithout(nodes, i);
      hide Distinct;
      ghost var rest := Without(nodes, i);
      var next := mb.next;
      if next == null {
        missingTail := previous;
      }
      if previous == null {
        missing := next;
      } else {
        previous.next := next;
      }
      nodes := rest;
      forall j {:trigger rest[j].next} | 0 <= j < |rest| - 1
        ensures rest[j].next == rest[j + 1]
      {
        if j != i - 1 {
          assert rest[j].next == old(rest[j].next);
        }
      }
    }

    /** Takes mb, the i-th node, out of the list. */
    method Unlink(mb: Node, previous: Node?, ghost i: nat)
      requires Valid() && i < |nodes| && nodes[i] == mb
      requires previous == At(nodes, i - 1)
      modifies `missing, `missingTail, `missingCounter, `nodes, `entries, Only(previous)`next
      ensures Valid() && nodes == Without(old(nodes), i) && entries == Without(old(entries), i)
    {
      hide Requested, WellFormed, Linked;
      assert mb.entry == entries[i];
      hide Hold;
      ghost var rest := Without(entries, i);
      RequestedAt(entries, i, entries[i]);
      ListWithout(nodes, entries, i);
      UnlinkNode(mb, previous, i);
      if mb.entry.nackCount != 0 {
        missingCounter := missingCounter - 1;
      }
      entries := rest;
    }

    /** The i-th node comes nowhere else in the list. */
    lemma OnlyAt(i: nat)
      requires Valid() && i < |nodes|
      ensures |entries| == |nodes| && nodes[i].entry == entries[i]
      ensures forall j :: 0 <= j < |nodes| && j != i ==> nodes[j] != nodes[i]
    {
    }

    /** Writes a processed entry back; the first request counts it. */
    method Restamp(mb: Node, e: Entry, ghost i: nat)
      requires Valid() && i < |nodes| && nodes[i] == mb
      requires e.seqNum == mb.entry.seqNum && e.peer == mb.entry.peer
      requires mb.entry.nackCount < e.nackCount <= e.peer.maxRetries
      modifies `missingCounter, `entries, mb`entry
      ensures Valid() && entries == old(entries)[i := e]
    {
      OnlyAt(i);
      WellFormedAt(entries, i, e);
      RequestedAt(entries, i, e);
      hide Requested, Linked, WellFormed, Distinct;
      if mb.entry.nackCount == 0 {
        missingCounter := missingCounter + 1;
      }
      mb.entry := e;
      entries := entries[i := e];
    }

    /** send_nack_group. */
    method SendNackGroup(peers: seq<RtcpPeer>) returns (groups: seq<Group>)
      requires nacks.Length == RIST_MAX_NACKS && nacksCounter <= RIST_MAX_NACKS
      modifies `nacksCounter
      ensures nacksCounter == if peers == [] then old(nacksCounter) else 0
      ensures old(nacksCounter) == 0 || peers == [] ==> groups == []
      ensures old(nacksCounter) > 0 && HasLivePeer(peers) ==>
                |groups| == 1 && IsBest(peers, |peers|, groups[0].peer) && groups[0].seqNums == nacks[..old(nacksCounter)]
      ensures old(nacksCounter) > 0 && !HasLivePeer(peers) ==>
                |groups| == |DeadTargets(peers, |peers|)|
                && forall k :: 0 <= k < |groups| ==>
                     groups[k] == Group(DeadTargets(peers, |peers|)[k], nacks[..old(nacksCounter)])
    {
      groups := [];
      if nacksCounter == 0 || peers == [] {
        return;
      }
      var peer: Option<nat> := None;
      var lastRtt := WORD64 - 1;
      for i := 0 to |peers|
        invariant peer == None ==> lastRtt == WORD64 - 1 && forall j :: 0 <= j < i ==> !IsLive(peers[j])
        invariant peer.Some? ==> IsBest(peers, i, peer.value) && lastRtt == peers[peer.value].lastRtt < WORD64 - 1
      {
        if peers[i].isRtcp && !peers[i].dead && peers[i].lastRtt < lastRtt {
          peer, lastRtt := Some(i), peers[i].lastRtt;
        }
      }
      if peer.Some? {
        groups := [Group(peer.value, nacks[..nacksCounter])];
      } else {
        for i := 0 to |peers|
          invariant |groups| == |DeadTargets(peers, i)|
          invariant peer == if groups == [] then None else Some(DeadTargets(peers, i)[|groups| - 1])
          invariant forall k :: 0 <= k < |groups| ==> groups[k] == Group(DeadTargets(peers, i)[k], nacks[..nacksCounter])
        {
          if peers[i].isRtcp && peers[i].deadSince > 0 {
            peer := Some(i);
          }
          if peer.Some? {
            groups := groups + [Group(peer.value, nacks[..nacksCounter])];
          }
        }
      }
      nacksCounter := 0;
    }

    /** rist_process_nack on the i-th node: whether to remove it, and a request noted if it is due. */
    method ProcessNack(mb: Node, link: Link, now: nat, recovery: nat, ghost i: nat) returns (remove: bool)
      requires Valid() && i < |nodes| && nodes[i] == mb && nacksCounter < RIST_MAX_NACKS
      modifies `missingCounter, `entries, `nacksCounter, mb`entry, nacks
      ensures Valid()
      ensures match Process(old(entries)[i], link, now, recovery)
              case Remove => remove && entries == old(entries) && nacks[..nacksCounter] == old(nacks[..nacksCounter])
              case Keep(e) => !remove && entries == old(entries) && nacks[..nacksCounter] == old(nacks[..nacksCounter])
              case Request(e) =>
                && !remove && entries == old(entries)[i := e]
                && nacks[..nacksCounter] == old(nacks[..nacksCounter]) + [e.seqNum]
    {
      hide Requested, WellFormed, Linked;
      var e := mb.entry;
      assert e == entries[i];
      if e.nackCount >= e.peer.maxRetries {
        return true;
      }
      if 10 * Sub64(now, e.insertionTime) > 11 * recovery {
        return true;
      }
      if now >= e.nextNack {
        var rtt := ClampedRtt(e, link);
        Restamp(mb, e.(nextNack := now + rtt * 11 / 10, nackCount := e.nackCount + 1), i);
        nacks[nacksCounter] := e.seqNum;
        nacksCounter := nacksCounter + 1;
      }
      remove := false;
    }

    /**
      The body of the pass for mb, the i-th node: the reasons for removal in the order the
      source tries them, with room made for another request before an entry is processed.
     */
    method NackEntry(mb: Node, queue: array<Option<Buffer>>, peers: seq<RtcpPeer>, reading: Reading, recovery: nat,
                     seqMsb: nat, ghost i: nat)
      returns (remove: bool, groups: seq<Group>)
      requires Valid() && i < |nodes| && nodes[i] == mb && SlotsMatch(queue[..]) && seqMsb == 0
      modifies `missingCounter, `entries, `nacksCounter, mb`entry, nacks
      ensures Valid() && old(entries[i].seqNum) < QUEUE_MAX
      ensures match FateOf(old(entries)[i], old(queue[..]), reading.link, reading.now, recovery)
              case Remove => remove && entries == old(entries)
              case Keep(e) => !remove && entries == old(entries)
              case Request(e) => !remove && entries == old(entries)[i := e]
      ensures Numbers(old(nacks[..nacksCounter])) ==> Numbers(nacks[..nacksCounter])
      ensures HasLivePeer(peers) && old(nacksCounter) < RIST_MAX_NACKS ==>
                && nacksCounter < RIST_MAX_NACKS
                && GroupsFit(groups, peers)
                && Flatten(groups) + nacks[..nacksCounter]
                   == old(nacks[..nacksCounter])
                      + (if FateOf(old(entries)[i], old(queue[..]), reading.link, reading.now, recovery).Request?
                         then [old(entries[i].seqNum)] else [])
    {
      hide Requested, Linked;
      var e := mb.entry;
      assert e == entries[i] && e.seqNum < QUEUE_MAX;
      var idx := e.seqNum % QUEUE_MAX;
      groups, remove := [], false;
      if e.peer.disabled {
        remove := true;
      } else if queue[idx].Some? {
        if queue[idx].value.seqNum != e.seqNum {
          assert false;
        }
        remove := true;
      } else if reading.link.bloat {
        if e.peer.mode == Aggressive {
          remove := true;
        } else if e.peer.mode == Normal {
          if e.nackCount > 4 {
            remove := true;
          }
        }
      } else {
        if seqMsb != e.seqNum / 65536 {
          assert false;
        } else if nacksCounter == RIST_MAX_NACKS - 1 {
          groups := SendNackGroup(peers);
        } else if nacksCounter >= RIST_MAX_NACKS {
          nacksCounter := 0;
        }
        remove := ProcessNack(mb, reading.link, reading.now, recovery, i);
      }
    }

    /** One turn of the pass: mb, the i-th node, is processed and goes or stays. */
    method NackTurn(mb: Node, previous: Node?, queue: array<Option<Buffer>>, peers: seq<RtcpPeer>, reading: Reading,
                    recovery: nat, seqMsb: nat, ghost i: nat)
      returns (previous': Node?, groups: seq<Group>, remove: bool)
      requires Valid() && i < |nodes| && nodes[i] == mb && SlotsMatch(queue[..]) && seqMsb == 0
      requires previous == At(nodes, i - 1)
      modifies `missing, `missingTail, `missingCounter, `nodes, `entries, `nacksCounter
      modifies mb`entry, Only(previous)`next, nacks
      ensures Valid() && old(entries[i].seqNum) < QUEUE_MAX
      ensures previous' == if remove then previous else mb
      ensures nodes == if remove then Without(old(nodes), i) else old(nodes)
      ensures var fate := FateOf(old(entries)[i], old(queue[..]), reading.link, reading.now, recovery);
              entries == After(old(entries), i, fate) && (remove <==> fate.Remove?)
      ensures Numbers(old(nacks[..nacksCounter])) ==> Numbers(nacks[..nacksCounter])
      ensures HasLivePeer(peers) && old(nacksCounter) < RIST_MAX_NACKS ==>
                && nacksCounter < RIST_MAX_NACKS
                && GroupsFit(groups, peers)
                && Flatten(groups) + nacks[..nacksCounter]
                   == old(nacks[..nacksCounter])
                      + (if FateOf(old(entries)[i], old(queue[..]), reading.link, reading.now, recovery).Request?
                         then [old(entries[i].seqNum)] else [])
    {
      assert Hold(nodes, entries) && entries[i].seqNum < QUEUE_MAX;
      hide Requested, Hold, Linked, WellFormed, FateOf, Flatten, GroupsFit, HasLivePeer, Numbers;
      remove, groups := NackEntry(mb, queue, peers, reading, recovery, seqMsb, i);
      previous' := previous;
      if remove {
        Unlink(mb, previous, i);
      } else {
        previous' := mb;
      }
    }

    /** The state of the pass when k entries are behind it, with mb at hand and previous before it. */
    ghost predicate Passing(p: Pass<Node>, k: nat, i: nat, mb: Node?, previous: Node?, groups: seq<Group>,
                            queue: array<Option<Buffer>>)
      reads this, nodes, nacks, queue
    {
      && Valid() && queue[..] == p.ring && SlotsMatch(p.ring)
      && PassAt(p, k, i, entries, nodes, groups, nacks[..nacksCounter])
      && k <= |p.nodes| && (p.sends ==> HasLivePeer(p.peers))
      && mb == At(p.nodes, k) && previous == At(nodes, i - 1)
      && (previous != null ==> previous in p.nodes)
    }

    static ghost predicate InPass(p: Pass<Node>, k: nat, mb: Node?, previous: Node?) {
      && k <= |p.nodes| && (mb == null <==> k == |p.nodes|)
      && (mb != null ==> mb in p.nodes) && (previous != null ==> previous in p.nodes)
    }

    /** One turn of the pass, as a step of the whole. */
    method NackStep(mb: Node, previous: Node?, queue: array<Option<Buffer>>, peers: seq<RtcpPeer>, reading: Reading,
                    recovery: nat, seqMsb: nat, groups: seq<Group>, ghost p: Pass<Node>, ghost k: nat, ghost i: nat)
      returns (next: Node?, previous': Node?, groups': seq<Group>, ghost i': nat)
      requires Passing(p, k, i, mb, previous, groups, queue) && k < |p.nodes| && seqMsb == 0
      requires peers == p.peers && reading == p.readings(k) && recovery == p.recovery
      modifies `missing, `missingTail, `missingCounter, `nodes, `entries, `nacksCounter
      modifies mb`entry, Only(previous)`next, nacks
      ensures Passing(p, k + 1, i', next, previous', groups', queue) && InPass(p, k + 1, next, previous')
    {
      hide PassAt, Requested, WellFormed, FateOf, Flatten, HasLivePeer, GroupsFit, Linked, Hold, After, SlotsMatch, Without,
           Numbers;
      ghost var pending, e, n := nacks[..nacksCounter], entries, nodes;
      PassAtNode(p, k, i, e, n, groups, pending);
      NodeFacts(i);
      next := mb.next;
      var remove, more;
      previous', more, remove := NackTurn(mb, previous, queue, peers, reading, recovery, seqMsb, i);
      PassAtNext(p, k, i, e, n, groups, pending, more, nacks[..nacksCounter]);
      groups' := groups + more;
      i' := if remove then i else i + 1;
    }

    lemma PassingStarts(p: Pass<Node>, queue: array<Option<Buffer>>)
      requires Valid() && SlotsMatch(queue[..])
      requires p.entries == entries && p.nodes == nodes && p.pending == nacks[..nacksCounter] && p.ring == queue[..]
      requires p.sends == (HasLivePeer(p.peers) && nacksCounter < RIST_MAX_NACKS)
      ensures Passing(p, 0, 0, missing, null, [], queue) && InPass(p, 0, missing, null)
      ensures missing != null ==> missing.entry.seqNum < QUEUE_MAX
    {
      hide Requested, WellFormed, PassAt, HasLivePeer;
      HeadFacts();
      PassAtStart(p);
      if missing != null {
        NodeFacts(0);
      }
    }

    lemma PassingEnds(p: Pass<Node>, k: nat, i: nat, previous: Node?, groups: seq<Group>, queue: array<Option<Buffer>>)
      requires Passing(p, k, i, null, previous, groups, queue)
      ensures Valid() && PassAt(p, |p.nodes|, i, entries, nodes, groups, nacks[..nacksCounter])
    {
    }

    /** The loop of the pass over the whole list. */
    method NackLoop(queue: array<Option<Buffer>>, peers: seq<RtcpPeer>, readings: nat -> Reading, recovery: nat,
                    ghost p: Pass<Node>)
      returns (groups: seq<Group>, ghost i: nat)
      requires Valid() && SlotsMatch(queue[..])
      requires p == Pass(entries, nodes, nacks[..nacksCounter], queue[..], readings, recovery, peers,
                         HasLivePeer(peers) && nacksCounter < RIST_MAX_NACKS)
      modifies `missing, `missingTail, `missingCounter, `nodes, `entries, `nacksCounter, nodes, nacks
      ensures Valid() && PassAt(p, |p.nodes|, i, entries, nodes, groups, nacks[..nacksCounter])
    {
      hide Passing, Valid, SlotsMatch, PassAt, HasLivePeer;
      PassingStarts(p, queue);
      var mb, previous: Node?, k := missing, null, 0;
      var seqMsb := if mb != null then mb.entry.seqNum / 65536 else 0;
      groups, i := [], 0;
      while mb != null
        invariant Passing(p, k, i, mb, previous, groups, queue) && InPass(p, k, mb, previous)
        decreases |p.nodes| - k
      {
        mb, previous, groups, i := NackStep(mb, previous, queue, peers, readings(k), recovery, seqMsb, groups, p, k, i);
        k := k + 1;
      }
      PassingEnds(p, k, i, previous, groups, queue);
    }

    /**
      receiver_nack_output. The entries that stay are restamped and keep their order;
      while a live peer is there, the groups sent are together what was pending before
      followed by exactly the due sequence numbers in queue order.
     */
    method NackPass(queue: array<Option<Buffer>>, peers: seq<RtcpPeer>, readings: nat -> Reading, recovery: nat,
                    authenticated: bool)
      returns (groups: seq<Group>)
      requires Valid() && SlotsMatch(queue[..])
      modifies `missing, `missingTail, `missingCounter, `nodes, `entries, `nacksCounter, nodes, nacks
      ensures Valid() && Within(nodes, old(nodes))
      ensures Numbers(old(nacks[..nacksCounter])) ==> Numbers(nacks[..nacksCounter])
      ensures !authenticated ==> entries == old(entries) && groups == []
      ensures authenticated ==> entries == Survivors(old(entries), old(queue[..]), readings, recovery)
                                && AllMissing(entries, old(queue[..]))
      ensures authenticated && HasLivePeer(peers) && old(nacksCounter) < RIST_MAX_NACKS ==>
                && nacksCounter == 0
                && GroupsFit(groups, peers)
                && Flatten(groups) == old(nacks[..nacksCounter]) + Due(old(entries), old(queue[..]), readings, recovery)
                && NoneCame(Due(old(entries), old(queue[..]), readings, recovery), old(queue[..]))
    {
      hide PassAt, Requested, Survivors, Due, Flatten, HasLivePeer, GroupsFit, Linked, Hold, AllMissing, NoneCame, AsksNow,
           Stays;
      groups := [];
      if !authenticated {
        return;
      }
      ghost var i, p := 0, Pass(entries, nodes, nacks[..nacksCounter], queue[..], readings, recovery, peers,
                                HasLivePeer(peers) && nacksCounter < RIST_MAX_NACKS);
      groups, i := NackLoop(queue, peers, readings, recovery, p);
      ghost var pending := nacks[..nacksCounter];
      var last := SendNackGroup(peers);
      PassAtEnd(p, i, entries, nodes, groups, pending, last);
      DueMeaning(p.entries, p.ring, readings, recovery);
      SurvivorsMeaning(p.entries, p.ring, readings, recovery);
      groups := groups + last;
    }
  }
}
