/**
  Whole runs of a sender: peers are added, packets queued under automatic numbers
  (librist-master/src/rist.c:566-574) and sent, in any order.
 */
module SenderRun {
  import opened Arithmetic
  import opened Wrappers
  import opened SenderQueue

  /** One thing that happens to a sender. */
  datatype Step =
    | AddPeer(lengthMax: nat, rttMin: nat)
    | Queue(data: seq<bv8>, hasPeers: bool)
    | Send(maxcount: nat)

  /** Peer settings have 32 bits, and the library's user queues no empty packet. */
  predicate Sound(step: Step) {
    && (step.AddPeer? ==> step.lengthMax < WORD32 && step.rttMin < WORD32)
    && (step.Queue? ==> step.data != [])
  }

  /** How many numbers were given out: one for every packet, also where there is no peer. */
  function Given(steps: seq<Step>): nat {
    if steps == [] then 0
    else Given(steps[..|steps| - 1]) + (if steps[|steps| - 1].Queue? then 1 else 0)
  }

  /** What was queued. */
  function Payloads(steps: seq<Step>): seq<seq<bv8>> {
    if steps == [] then []
    else
      var init, last := steps[..|steps| - 1], steps[|steps| - 1];
      if last.Queue? && last.hasPeers then Payloads(init) + [last.data] else Payloads(init)
  }

  /** The numbers it was queued under, when first is the number given out first. */
  function Numbers(steps: seq<Step>, first: nat): seq<nat> {
    if steps == [] then []
    else
      var init, last := steps[..|steps| - 1], steps[|steps| - 1];
      if last.Queue? && last.hasPeers then Numbers(init, first) + [first + Given(init)] else Numbers(init, first)
  }

  /** The history of the run holds these payloads in their order, under these numbers, all of them given out before next. */
  ghost predicate Holds(history: seq<Packet>, payloads: seq<seq<bv8>>, numbers: seq<nat>, next: nat) {
    && |history| == |payloads| && (forall k :: 0 <= k < |history| ==> history[k].data == payloads[k])
    && AutoNumbered(history, numbers) && (forall k :: 0 <= k < |numbers| ==> numbers[k] < next)
  }

  lemma StepNext(steps: seq<Step>, step: Step, first: nat)
    ensures var queued := step.Queue? && step.hasPeers;
            && Payloads(steps + [step]) == (if queued then Payloads(steps) + [step.data] else Payloads(steps))
            && Numbers(steps + [step], first)
               == (if queued then Numbers(steps, first) + [first + Given(steps)] else Numbers(steps, first))
    ensures Given(steps + [step]) == Given(steps) + (if step.Queue? then 1 else 0)
  {
    assert (steps + [step])[..|steps|] == steps;
  }

  lemma HoldsNext(history: seq<Packet>, steps: seq<Step>, first: nat, step: Step, history': seq<Packet>, x: Packet)
    requires Holds(history, Payloads(steps), Numbers(steps, first), first + Given(steps))
    requires history' == if step.Queue? && step.hasPeers then history + [x] else history
    requires step.Queue? && step.hasPeers ==> x.data == step.data && x.seqRtp == (first + Given(steps)) % SEQ_SIZE
    ensures Holds(history', Payloads(steps + [step]), Numbers(steps + [step], first), first + Given(steps + [step]))
    ensures Given(steps + [step]) == Given(steps) + (if step.Queue? then 1 else 0)
  {
    StepNext(steps, step, first);
    hide Given, Payloads, Numbers;
  }

  /** Whether a step would take the last free slot. */
  ghost predicate Fills(sender: Sender, step: Step)
    reads sender
  {
    step.Queue? && step.hasPeers && sender.queueSize >= QUEUE_MAX - 1
  }

  /** One step of a sender, for a packet with the number that comes next. */
  method Take(sender: Sender, step: Step, number: nat) returns (ghost x: Packet)
    requires sender.Valid() && Sound(step) && !Fills(sender, step)
    modifies sender, sender.queue, sender.seqIndex
    ensures sender.Valid()
    ensures sender.run.history == if step.Queue? && step.hasPeers then old(sender.run.history) + [x] else old(sender.run.history)
    ensures step.Queue? && step.hasPeers ==> x.data == step.data && x.seqRtp == number % SEQ_SIZE
  {
    hide Inv;
    x := Packet([], 0, 0);
    match step {
      case AddPeer(lengthMax, rttMin) =>
        sender.AddPeer(lengthMax, rttMin);
      case Queue(data, hasPeers) =>
        var ret := sender.Enqueue(data, number, hasPeers);
        x := Packet(data, number % SEQ_SIZE, sender.clock);
      case Send(maxcount) =>
        var sent := sender.SendData(maxcount);
    }
  }

  lemma NothingQueued(steps: seq<Step>, first: nat)
    requires steps == []
    ensures Given(steps) == 0 && Holds([], Payloads(steps), Numbers(steps, first), first)
  {
  }

  lemma AllNumbered(history: seq<Packet>, steps: seq<Step>, first: nat)
    requires Holds(history, Payloads(steps), Numbers(steps, first), first + Given(steps))
    ensures AutoNumbered(history, Numbers(steps, first))
  {
  }

  /**
    Any run, up to a packet that would take the last free slot: the packets queued are
    in the run in their order, and every recent one that was sent is found.
   */
  method Play(steps: seq<Step>, first: nat) returns (sender: Sender, done: nat)
    requires forall j :: 0 <= j < |steps| ==> Sound(steps[j])
    ensures fresh(sender) && sender.Valid() && done <= |steps|
    ensures done < |steps| ==> Fills(sender, steps[done])
    ensures Holds(sender.run.history, Payloads(steps[..done]), Numbers(steps[..done], first), first + Given(steps[..done]))
    ensures Answers(sender.View(), sender.run, sender.floor, Numbers(steps[..done], first))
  {
    hide Inv, Holds, Answers, Given, Payloads, Numbers, Sound;
    sender := new Sender();
    done := 0;
    var number := first;
    NothingQueued(steps[..0], first);
    while done < |steps| && !(steps[done].Queue? && steps[done].hasPeers && sender.queueSize >= QUEUE_MAX - 1)
      invariant fresh(sender) && fresh(sender.queue) && fresh(sender.seqIndex) && done <= |steps|
      invariant sender.Valid() && number == first + Given(steps[..done])
      invariant Holds(sender.run.history, Payloads(steps[..done]), Numbers(steps[..done], first), first + Given(steps[..done]))
    {
      ghost var history := sender.run.history;
      ghost var x;
      x := Take(sender, steps[done], number);
      HoldsNext(history, steps[..done], first, steps[done], sender.run.history, x);
      if steps[done].Queue? {
        number := number + 1;
      }
      assert steps[..done] + [steps[done]] == steps[..done + 1];
      done := done + 1;
    }
    AllNumbered(sender.run.history, steps[..done], first);
    RunAnswers(sender.View(), sender.run, sender.floor, Numbers(steps[..done], first));
  }

  /**
    A ring that is filled before anything is sent: the last packet is not refused, all
    slots are taken, and the drain finds nothing to send.
   */
  method FillUp(data: seq<bv8>) returns (sender: Sender, ret: int)
    requires data != []
    ensures fresh(sender) && !sender.Valid() && ret == 0
    ensures sender.queueSize == QUEUE_MAX && (sender.readIndex + 1) % QUEUE_MAX == sender.writeIndex
  {
    hide Inv, Slot;
    sender := new Sender();
    ret := 0;
    var i := 0;
    while i < QUEUE_MAX - 1
      invariant fresh(sender) && fresh(sender.queue) && fresh(sender.seqIndex) && i <= QUEUE_MAX - 1
      invariant sender.Valid() && sender.queueSize == i
      invariant sender.readIndex == 0 && sender.writeIndex == (i + 1) % QUEUE_MAX
    {
      ret := sender.Enqueue(data, i, true);
      i := i + 1;
    }
    ret := sender.Enqueue(data, i, true);
  }
}
