/**
  Whole runs of a receiver: arrivals, output passes and request passes in any order
  (librist-master/src/rist-common.c:517-715, 847-1040 and 1082-1227).
 */
module ReceiverRun {
  import opened Wrappers
  import opened ReorderRing
  import opened MissingQueue
  import opened ReceiverFlow
  import opened Receiver

  /** One thing that happens to a flow. */
  datatype Step =
    | Arrive(packet: Arrival, peer: Config, bloat: bool, missingCounterMax: int, rtt: nat)
    | Deliver(scaling: bool)
    | Rescale(ticks: nat)
    | Reset
    | ForgetMissing
    | Ask(peers: seq<RtcpPeer>, readings: nat -> Reading, authenticated: bool)

  /** Packets have 16-bit numbers and are not empty. */
  predicate Sound(step: Step) {
    step.Arrive? ==> step.packet.seqNum < QUEUE_MAX && step.packet.data != []
  }

  predicate Carries(b: Buffer, a: Arrival) {
    b.data == a.data && b.seqNum == a.seqNum && b.sourceTime == a.sourceTime
  }

  /** Some packet that arrived is the one in b. */
  ghost predicate Came(b: Buffer, steps: seq<Step>) {
    exists j :: 0 <= j < |steps| && steps[j].Arrive? && Carries(b, steps[j].packet)
  }

  ghost predicate AllCame(inserted: multiset<Buffer>, steps: seq<Step>) {
    forall b :: b in inserted ==> Came(b, steps)
  }

  lemma CameEarlier(inserted: multiset<Buffer>, steps: seq<Step>, step: Step)
    requires AllCame(inserted, steps)
    ensures AllCame(inserted, steps + [step])
  {
    forall b | b in inserted
      ensures Came(b, steps + [step])
    {
      var j :| 0 <= j < |steps| && steps[j].Arrive? && Carries(b, steps[j].packet);
      assert (steps + [step])[j] == steps[j];
    }
  }

  /** Only what arrived is accepted. */
  lemma ArrivedCame(s: State, k: Intake, r: Run, step: Step, v: Verdict, b: Buffer, s': State, k': Intake, r': Run,
                    recovery: nat, steps: seq<Step>)
    requires step.Arrive? && Arrived(s, k, r, step.packet, v, b, s', k', r', recovery) && AllCame(r.inserted, steps)
    ensures AllCame(r'.inserted, steps + [step]) && r'.delivered == r.delivered
  {
    CameEarlier(r.inserted, steps, step);
    assert (steps + [step])[|steps|] == step && Carries(b, step.packet);
    assert Came(b, steps + [step]);
  }

  lemma {:induction false} DeliveredOnce(delivered: seq<Block>, k: nat)
    requires k < |delivered|
    ensures Delivered(delivered, delivered[k].buffer) > 0
  {
    var n := |delivered| - 1;
    if k < n {
      DeliveredOnce(delivered[..n], k);
    }
  }

  /** What every run keeps, for the blocks delivered: they are in sequence or marked, and none is made up or multiplied. */
  lemma RunMeans(s: State, r: Run, steps: seq<Step>)
    requires Inv(s, r) && AllCame(r.inserted, steps)
    ensures Continuous(r.delivered) && Conserved(s.queue, r)
    ensures forall b :: Delivered(r.delivered, b) <= r.inserted[b]
    ensures forall k :: 0 <= k < |r.delivered| ==> Came(r.delivered[k].buffer, steps)
  {
    hide Continuous, Delivered, Came;
    forall k | 0 <= k < |r.delivered|
      ensures Came(r.delivered[k].buffer, steps)
    {
      DeliveredOnce(r.delivered, k);
      assert r.delivered[k].buffer in r.inserted;
    }
  }

  /** An arrival. */
  method TakeArrival(flow: Flow, step: Step, ghost steps: seq<Step>)
    requires flow.Valid() && step.Arrive? && Sound(step) && AllCame(flow.run.inserted, steps)
    modifies flow, flow.queue, flow.missing, flow.missing.nodes
    ensures flow.Valid() && AllCame(flow.run.inserted, steps + [step])
    ensures forall i :: 0 <= i < |flow.missing.nodes| ==>
              flow.missing.nodes[i] in old(flow.missing.nodes) || fresh(flow.missing.nodes[i])
    ensures old(flow.run).delivered == flow.run.delivered
  {
    hide Inv, AllCame, Arrived, MissingAfter, MissingList.Valid, VerdictOf;
    ghost var s, k, r := flow.View(), flow.Taken(), flow.run;
    var ret, v;
    ghost var b, start;
    ret, v, b, start := flow.Enqueue(step.packet, step.peer, step.bloat, step.missingCounterMax, step.rtt);
    ArrivedCame(s, k, r, step, v, b, flow.View(), flow.Taken(), flow.run, flow.recovery, steps);
  }

  /** One step of a flow. */
  method Take(flow: Flow, step: Step, ghost steps: seq<Step>)
    requires flow.Valid() && Sound(step) && AllCame(flow.run.inserted, steps)
    modifies flow, flow.queue, flow.missing, flow.missing.nodes, flow.missing.nacks
    ensures flow.Valid() && AllCame(flow.run.inserted, steps + [step])
    ensures forall i :: 0 <= i < |flow.missing.nodes| ==>
              flow.missing.nodes[i] in old(flow.missing.nodes) || fresh(flow.missing.nodes[i])
    ensures old(flow.run).delivered <= flow.run.delivered
  {
    hide Inv, AllCame, Survivors, Due, Flatten, HasLivePeer, MissingList.Valid, TurnOf, InRingOrder, LeftInTime, Excess,
         AllEmpty, WellFormed, SlotsMatch, Numbers, Sound;
    CameEarlier(flow.run.inserted, steps, step);
    match step {
      case Arrive(_, _, _, _, _) =>
        TakeArrival(flow, step, steps);
      case Deliver(scaling) =>
        ghost var last, last';
        last, last' := flow.Output(scaling);
      case Rescale(ticks) =>
        flow.Rescale(ticks);
      case Reset =>
        flow.Reset();
      case ForgetMissing =>
        flow.missing.Flush();
      case Ask(peers, readings, authenticated) =>
        var groups := flow.RequestMissing(peers, readings, authenticated);
    }
  }

  lemma NothingCame(steps: seq<Step>)
    ensures AllCame(multiset{}, steps)
  {
  }

  /**
    Any run at all: a block that is not marked follows the one delivered just before it,
    every block is a packet that arrived, no packet is delivered more often than it was
    accepted, and each that was accepted and neither delivered nor freed still waits.
   */
  method Play(steps: seq<Step>, recovery: nat) returns (flow: Flow)
    requires forall j :: 0 <= j < |steps| ==> Sound(steps[j])
    ensures fresh(flow) && flow.Valid()
    ensures Continuous(flow.run.delivered) && Conserved(flow.queue[..], flow.run)
    ensures forall b :: Delivered(flow.run.delivered, b) <= flow.run.inserted[b]
    ensures forall k :: 0 <= k < |flow.run.delivered| ==> Came(flow.run.delivered[k].buffer, steps)
  {
    hide Inv, AllCame, Continuous, Conserved, Delivered, Came, MissingList.Valid;
    flow := new Flow(recovery);
    assert AllCame(flow.run.inserted, steps[..0]) by {
      NothingCame(steps[..0]);
    }
    for n := 0 to |steps|
      invariant fresh(flow) && fresh(flow.queue) && fresh(flow.missing) && fresh(flow.missing.nacks)
      invariant forall i :: 0 <= i < |flow.missing.nodes| ==> fresh(flow.missing.nodes[i])
      invariant flow.Valid() && AllCame(flow.run.inserted, steps[..n])
    {
      Take(flow, steps[n], steps[..n]);
      assert steps[..n] + [steps[n]] == steps[..n + 1];
    }
    assert steps[..|steps|] == steps;
    RunMeans(flow.View(), flow.run, steps);
  }
}
