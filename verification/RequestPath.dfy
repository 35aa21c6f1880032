/**
  The way of a request from the receiver's list to the sender's retry queue: a pass over
  the list (librist-master/src/rist-common.c:1082-1227), its groups written as messages
  (librist-master/src/udp.c:478-569), and the messages read back
  (librist-master/src/rist-common.c:1549-1622).
 */
module RequestPath {
  import opened Arithmetic
  import opened Bits
  import opened Wrappers
  import opened ReorderRing
  import opened MissingQueue
  import opened NackCodec

  /** Numbers of sixteen bits share the upper half of 0. */
  lemma NumbersShare(s: seq<nat>)
    requires Numbers(s)
    ensures Shares(s, 0)
  {
  }

  /** A group that fits one message comes back whole and in order from the range form. */
  lemma RangeGroup(s: seq<nat>, p: seq<Octet>, ssrc: nat)
    requires Numbers(s) && 0 < |s| < RIST_MAX_NACKS && RangeMessage(p, ssrc, RangeRecords(s))
    ensures Complete(p) && Requests(p, 0, false, true) == s
  {
    NumbersShare(s);
    hide RangeMessage, Requests, Complete, Numbers, Shares;
    RangeRoundTrip(p, ssrc, s, 0);
  }

  /** The bitmask form gives back the same numbers, though perhaps in another order. */
  lemma BitmaskGroup(s: seq<nat>, p: seq<Octet>, ssrc: nat)
    requires Numbers(s) && 0 < |s| < RIST_MAX_NACKS && BitmaskMessage(p, ssrc, BitmaskRecords(s))
    ensures Complete(p) && forall x: nat :: x in Requests(p, 0, false, true) <==> x in s
  {
    NumbersShare(s);
    hide BitmaskMessage, Requests, Complete, Numbers, Shares;
    BitmaskRoundTrip(p, ssrc, s, 0);
  }

  lemma FlattenNext(groups: seq<Group>, k: nat)
    requires k < |groups|
    ensures Flatten(groups[..k + 1]) == Flatten(groups[..k]) + groups[k].seqNums
  {
    assert groups[..k + 1][..k] == groups[..k];
  }

  /** A group on its way: written by the receiver, read by the sender. */
  method Transfer(seqNums: seq<nat>, ssrc: nat, bitmask: bool) returns (queued: seq<nat>)
    requires Numbers(seqNums) && 0 < |seqNums| < RIST_MAX_NACKS && ssrc < WORD32
    ensures !bitmask ==> queued == seqNums
    ensures forall x: nat :: x in queued <==> x in seqNums
  {
    hide Numbers, Requests, Complete, RangeMessage, BitmaskMessage, RangeRecords, BitmaskRecords;
    var buf := new Octet[FB_HEADER_SIZE + 4 * |seqNums|](_ => 0);
    if bitmask {
      var size := EncodeBitmask(seqNums, ssrc, buf);
      BitmaskGroup(seqNums, buf[..], ssrc);
    } else {
      var size := EncodeRange(seqNums, ssrc, buf);
      RangeGroup(seqNums, buf[..], ssrc);
    }
    queued := Decode(buf, 0, false, true);
  }

  lemma AtStart(list: MissingList, queue: array<Option<Buffer>>)
    requires list.Valid() && SlotsMatch(queue[..])
    ensures WellFormed(list.entries) && queue.Length == QUEUE_MAX && list.nacks.Length == RIST_MAX_NACKS
  {
  }

  /** What a pass with nothing pending hands out: groups of sequence numbers, each of them fit for a message. */
  lemma GroupsAsDue(groups: seq<Group>, peers: seq<RtcpPeer>, entries: seq<Entry>, ring: Ring, readings: nat -> Reading,
                    recovery: nat)
    requires WellFormed(entries) && |ring| == QUEUE_MAX && GroupsFit(groups, peers)
    requires Flatten(groups) == [] + Due(entries, ring, readings, recovery)
    ensures Flatten(groups) == Due(entries, ring, readings, recovery)
    ensures forall k :: 0 <= k < |groups| ==> Numbers(groups[k].seqNums) && 0 < |groups[k].seqNums| < RIST_MAX_NACKS
  {
    DueAreNumbers(entries, ring, readings, recovery);
    assert [] + Due(entries, ring, readings, recovery) == Due(entries, ring, readings, recovery);
    GroupsAreNumbers(groups);
    hide Numbers, Flatten, Due;
  }

  lemma NoGroups(groups: seq<Group>)
    requires groups == []
    ensures Flatten(groups) == []
  {
  }

  /** All groups of a pass, one after the other. */
  method TransferAll(groups: seq<Group>, ssrc: nat, bitmask: bool) returns (queued: seq<nat>)
    requires forall k :: 0 <= k < |groups| ==> Numbers(groups[k].seqNums) && 0 < |groups[k].seqNums| < RIST_MAX_NACKS
    requires ssrc < WORD32
    ensures !bitmask ==> queued == Flatten(groups)
    ensures forall x: nat :: x in queued <==> x in Flatten(groups)
  {
    hide Numbers, Flatten;
    queued := [];
    NoGroups(groups[..0]);
    for k := 0 to |groups|
      invariant !bitmask ==> queued == Flatten(groups[..k])
      invariant forall x: nat :: x in queued <==> x in Flatten(groups[..k])
    {
      var more := Transfer(groups[k].seqNums, ssrc, bitmask);
      FlattenNext(groups, k);
      queued := queued + more;
    }
    assert groups[..|groups|] == groups;
  }

  /**
    With a live peer and nothing pending, the sender queues exactly what was due at the
    receiver: in the same order in the range form, the same numbers in the bitmask form.
   */
  method Exchange(list: MissingList, queue: array<Option<Buffer>>, peers: seq<RtcpPeer>, readings: nat -> Reading,
                  recovery: nat, ssrc: nat, bitmask: bool)
    returns (queued: seq<nat>)
    requires list.Valid() && SlotsMatch(queue[..]) && HasLivePeer(peers) && list.nacksCounter == 0 && ssrc < WORD32
    modifies list, list.nodes, list.nacks
    ensures list.Valid() && list.nacksCounter == 0 && WellFormed(old(list.entries)) && |old(queue[..])| == QUEUE_MAX
    ensures var due := Due(old(list.entries), old(queue[..]), readings, recovery);
            && (!bitmask ==> queued == due)
            && (forall x: nat :: x in queued <==> x in due)
            && NoneCame(due, old(queue[..]))
  {
    AtStart(list, queue);
    hide Numbers, Flatten, Due, HasLivePeer, GroupsFit, SlotsMatch, WellFormed, MissingList.Valid, AllMissing, NoneCame;
    ghost var entries, ring := list.entries, queue[..];
    var groups := list.NackPass(queue, peers, readings, recovery, true);
    GroupsAsDue(groups, peers, entries, ring, readings, recovery);
    queued := TransferAll(groups, ssrc, bitmask);
  }
}
