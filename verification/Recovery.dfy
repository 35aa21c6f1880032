/**
  The whole way of a lost packet: due at the receiver, asked for, and looked up at the
  sender (librist-master/src/rist-common.c:1082-1227 and 1549-1622,
  librist-master/src/udp.c:478-569 and 788-831).
 */
module Recovery {
  import opened Arithmetic
  import opened Wrappers
  import opened ReorderRing
  import opened MissingQueue
  import RequestPath
  import Sent = SenderQueue

  /** What was found is the recent packet of this number, if there is one. */
  ghost predicate FoundFor(r: Sent.Run, numbers: seq<nat>, clock: nat, floor: nat, number: nat, f: Sent.Found) {
    forall p: nat :: Sent.IsRecent(r, numbers, clock, floor, p) && numbers[p - 1] % Sent.SEQ_SIZE == number
      ==> f == Sent.Hit(r.history[p - 1])
  }

  /** Every recent packet whose number was asked for was found. */
  ghost predicate AllFound(r: Sent.Run, numbers: seq<nat>, clock: nat, floor: nat, queued: seq<nat>, found: seq<Sent.Found>) {
    |found| == |queued| && forall i :: 0 <= i < |queued| ==> FoundFor(r, numbers, clock, floor, queued[i], found[i])
  }

  lemma LookupFinds(s: Sent.State, r: Sent.Run, numbers: seq<nat>, floor: nat, number: nat)
    requires Sent.Answers(s, r, floor, numbers)
    requires |s.seqIndex| == Sent.SEQ_SIZE && s.seqIndex[number % Sent.SEQ_SIZE] < |s.queue|
    ensures FoundFor(r, numbers, s.clock, floor, number, Sent.LookupIn(s.queue, s.seqIndex, number))
  {
    hide Sent.Delay;
    forall p: nat | Sent.IsRecent(r, numbers, s.clock, floor, p) && numbers[p - 1] % Sent.SEQ_SIZE == number
      ensures Sent.LookupIn(s.queue, s.seqIndex, number) == Sent.Hit(r.history[p - 1])
    {
      assert Sent.Finds(s, numbers[p - 1], r.history[p - 1]);
    }
  }

  /** Looks up every number that was asked for. */
  method LookupAll(sender: Sent.Sender, queued: seq<nat>, ghost numbers: seq<nat>) returns (found: seq<Sent.Found>)
    requires sender.Valid() && Sent.AutoNumbered(sender.run.history, numbers)
    ensures AllFound(sender.run, numbers, sender.clock, sender.floor, queued, found)
  {
    Sent.RunAnswers(sender.View(), sender.run, sender.floor, numbers);
    hide Sent.Inv, Sent.Answers, Sent.LookupIn, Sent.AutoNumbered, FoundFor;
    found := [];
    for i := 0 to |queued|
      invariant AllFound(sender.run, numbers, sender.clock, sender.floor, queued[..i], found)
    {
      var f := sender.Lookup(queued[i]);
      LookupFinds(sender.View(), sender.run, numbers, sender.floor, queued[i]);
      found := found + [f];
    }
    assert queued[..|queued|] == queued;
  }

  /**
    Whatever is due at the receiver is asked for, and every packet among it that the
    sender sent recently enough is found.
   */
  method Recover(list: MissingList, queue: array<Option<Buffer>>, peers: seq<RtcpPeer>, readings: nat -> Reading,
                 recovery: nat, ssrc: nat, sender: Sent.Sender, ghost numbers: seq<nat>)
    returns (queued: seq<nat>, found: seq<Sent.Found>)
    requires list.Valid() && SlotsMatch(queue[..]) && HasLivePeer(peers) && list.nacksCounter == 0 && ssrc < WORD32
    requires sender.Valid() && Sent.AutoNumbered(sender.run.history, numbers) && sender.seqIndex != list.nacks
    modifies list, list.nodes, list.nacks
    ensures list.Valid() && sender.Valid() && WellFormed(old(list.entries)) && |old(queue[..])| == QUEUE_MAX
    ensures queued == Due(old(list.entries), old(queue[..]), readings, recovery) && NoneCame(queued, old(queue[..]))
    ensures AllFound(sender.run, numbers, sender.clock, sender.floor, queued, found)
  {
    hide Sent.Inv, Sent.AutoNumbered, AllFound, SlotsMatch, Due, HasLivePeer, MissingList.Valid;
    queued := RequestPath.Exchange(list, queue, peers, readings, recovery, ssrc, false);
    found := LookupAll(sender, queued, numbers);
  }
}
