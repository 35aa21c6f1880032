/**
  The weighted packet scheduler of the sender (librist-master/src/udp.c:681-786), for a
  fixed set of connected peers whose counters start at their weights
  (librist-master/src/rist.c:973 and 1131-1135).
 */
module WeightedScheduler {
  import opened Arithmetic
  import opened Sequences

  /** What the scheduler reads of a peer: only data peers without a parent take part. */
  datatype Member = Member(weight: nat, takesPart: bool)

  /** The counters of those that take part, summed up. */
  ghost function Sum(ms: seq<Member>, cs: seq<nat>): nat
    requires |ms| == |cs|
  {
    if ms == [] then 0
    else
      var n := |ms| - 1;
      Sum(ms[..n], cs[..n]) + (if ms[n].takesPart then cs[n] else 0)
  }

  /** Where every counter starts. */
  function Weights(ms: seq<Member>): (cs: seq<nat>)
    ensures |cs| == |ms|
    ensures forall i :: 0 <= i < |ms| ==> cs[i] == ms[i].weight
  {
    seq(|ms|, i requires 0 <= i < |ms| => ms[i].weight)
  }

  ghost function Total(ms: seq<Member>): nat {
    Sum(ms, Weights(ms))
  }

  predicate Eligible(m: Member) {
    m.takesPart && m.weight != 0
  }

  /** The first peer with the largest counter was elected; nobody, if no counter is left. */
  ghost predicate IsElected(ms: seq<Member>, cs: seq<nat>, n: nat, e: int)
    requires |ms| == |cs| && n <= |ms|
  {
    if e < 0 then forall i :: 0 <= i < n && Eligible(ms[i]) ==> cs[i] == 0
    else
      && e < n && Eligible(ms[e]) && cs[e] > 0
      && (forall i :: 0 <= i < n && Eligible(ms[i]) ==> cs[i] <= cs[e])
      && (forall i :: 0 <= i < e && Eligible(ms[i]) ==> cs[i] < cs[e])
  }

  // ----- sums -----

  lemma {:induction false} SumUpdate(ms: seq<Member>, cs: seq<nat>, i: nat, c: nat)
    requires |ms| == |cs| && i < |ms|
    ensures Sum(ms, cs[i := c]) == Sum(ms, cs) + (if ms[i].takesPart then c - cs[i] else 0)
  {
    var n := |ms| - 1;
    if i < n {
      SumUpdate(ms[..n], cs[..n], i, c);
      assert cs[i := c][..n] == cs[..n][i := c];
    } else {
      assert cs[i := c][..n] == cs[..n];
    }
  }

  lemma {:induction false} SumIsPositive(ms: seq<Member>, cs: seq<nat>)
    requires |ms| == |cs| && Sum(ms, cs) > 0
    ensures exists i :: 0 <= i < |ms| && ms[i].takesPart && cs[i] > 0
  {
    var n := |ms| - 1;
    if !(ms[n].takesPart && cs[n] > 0) {
      SumIsPositive(ms[..n], cs[..n]);
      var i :| 0 <= i < n && ms[..n][i].takesPart && cs[..n][i] > 0;
      assert ms[i].takesPart && cs[i] > 0;
    }
  }

  /** Counters below their limits with the same sum are at their limits. */
  lemma {:induction false} SumAtLimit(ms: seq<Member>, cs: seq<nat>, ds: seq<nat>)
    requires |ms| == |cs| == |ds| && forall i :: 0 <= i < |ms| && ms[i].takesPart ==> cs[i] <= ds[i]
    ensures Sum(ms, cs) <= Sum(ms, ds)
    ensures Sum(ms, cs) == Sum(ms, ds) ==> forall i :: 0 <= i < |ms| && ms[i].takesPart ==> cs[i] == ds[i]
  {
    if ms != [] {
      var n := |ms| - 1;
      SumAtLimit(ms[..n], cs[..n], ds[..n]);
      if Sum(ms, cs) == Sum(ms, ds) {
        forall i | 0 <= i < |ms| && ms[i].takesPart
          ensures cs[i] == ds[i]
        {
          if i < n {
            assert ms[..n][i].takesPart && cs[..n][i] == ds[..n][i];
          }
        }
      }
    }
  }

  // ----- runs -----

  /** How often i was elected. */
  ghost function Chosen(history: seq<nat>, i: nat): nat {
    if history == [] then 0
    else Chosen(history[..|history| - 1], i) + (if history[|history| - 1] == i then 1 else 0)
  }

  lemma ChosenAppend(history: seq<nat>, e: nat, i: nat)
    ensures Chosen(history + [e], i) == Chosen(history, i) + (if e == i then 1 else 0)
  {
    assert (history + [e])[..|history|] == history;
  }

  /** Who was elected so far, and how many rounds of all weights that makes. */
  datatype Run = Run(history: seq<nat>, rounds: nat)

  /** What a peer has had in the full rounds and in the current one. */
  ghost function Share(r: Run, m: Member, c: nat): int {
    r.rounds * m.weight + (m.weight - c)
  }

  /**
    The counters of two peers stay in the order of their weights up to one, and no further
    apart than the weights, or one if those are closer.
   */
  predicate Close(m: Member, n: Member, c: nat, d: nat) {
    m.weight >= n.weight ==> c >= d - 1 && c <= d + (if m.weight - n.weight > 1 then m.weight - n.weight else 1)
  }

  ghost predicate Balanced(ms: seq<Member>, cs: seq<nat>)
    requires |ms| == |cs|
  {
    forall i, j :: 0 <= i < |ms| && 0 <= j < |ms| && Eligible(ms[i]) && Eligible(ms[j]) ==> Close(ms[i], ms[j], cs[i], cs[j])
  }

  /** The weight counter is the sum of the counters, and everybody has had a fair share. */
  ghost predicate Inv(ms: seq<Member>, cs: seq<nat>, weightCounter: int, r: Run) {
    && |cs| == |ms| && Total(ms) > 0
    && (forall i :: 0 <= i < |ms| && ms[i].takesPart ==> cs[i] <= ms[i].weight)
    && weightCounter == Sum(ms, cs) && 0 < weightCounter <= Total(ms)
    && |r.history| == r.rounds * Total(ms) + (Total(ms) - weightCounter)
    && (forall i :: 0 <= i < |ms| && ms[i].takesPart ==> Chosen(r.history, i) == Share(r, ms[i], cs[i]))
    && Balanced(ms, cs)
  }

  lemma InvStarts(ms: seq<Member>)
    requires Total(ms) > 0
    ensures Inv(ms, Weights(ms), Total(ms), Run([], 0))
  {
  }

  /** While counters are left, somebody can be elected. */
  lemma SomebodyIsElected(ms: seq<Member>, cs: seq<nat>, weightCounter: int, r: Run, e: int)
    requires Inv(ms, cs, weightCounter, r) && IsElected(ms, cs, |ms|, e)
    ensures 0 <= e < |ms| && 0 < cs[e] && Eligible(ms[e])
  {
    SumIsPositive(ms, cs);
    var i :| 0 <= i < |ms| && ms[i].takesPart && cs[i] > 0;
    assert Eligible(ms[i]);
  }

  /** The state after e was elected: a new round starts when the last counter is used up. */
  function AfterElection(ms: seq<Member>, cs: seq<nat>, weightCounter: int, e: nat): seq<nat>
    requires |cs| == |ms| && e < |ms| && cs[e] > 0
  {
    if weightCounter == 1 then Weights(ms) else cs[e := cs[e] - 1]
  }

  ghost function RunAfter(r: Run, weightCounter: int, e: nat): Run {
    Run(r.history + [e], if weightCounter == 1 then r.rounds + 1 else r.rounds)
  }

  lemma BalanceKept(ms: seq<Member>, cs: seq<nat>, e: nat)
    requires |ms| == |cs| && Balanced(ms, cs) && IsElected(ms, cs, |ms|, e)
    ensures Balanced(ms, cs[e := cs[e] - 1])
  {
  }

  lemma {:induction false} NothingLeft(ms: seq<Member>, cs: seq<nat>, i: nat)
    requires |ms| == |cs| && Sum(ms, cs) == 0 && i < |ms| && ms[i].takesPart
    ensures cs[i] == 0
  {
    var n := |ms| - 1;
    if i < n {
      NothingLeft(ms[..n], cs[..n], i);
    }
  }

  lemma ElectionKeepsInv(ms: seq<Member>, cs: seq<nat>, weightCounter: int, r: Run, e: int)
    requires Inv(ms, cs, weightCounter, r) && IsElected(ms, cs, |ms|, e)
    ensures 0 <= e < |ms| && cs[e] > 0
    ensures Inv(ms, AfterElection(ms, cs, weightCounter, e), if weightCounter == 1 then Total(ms) else weightCounter - 1,
                RunAfter(r, weightCounter, e))
  {
    SomebodyIsElected(ms, cs, weightCounter, r, e);
    BalanceKept(ms, cs, e);
    SumUpdate(ms, cs, e, cs[e] - 1);
    var cs1 := cs[e := cs[e] - 1];
    forall i | 0 <= i < |ms| && ms[i].takesPart
      ensures Chosen(r.history + [e], i) == Share(r, ms[i], cs1[i])
    {
      ChosenAppend(r.history, e, i);
    }
    if weightCounter == 1 {
      var r' := RunAfter(r, weightCounter, e);
      forall i | 0 <= i < |ms| && ms[i].takesPart
        ensures Chosen(r'.history, i) == Share(r', ms[i], Weights(ms)[i])
      {
        NothingLeft(ms, cs1, i);
        Distribute(r.rounds, ms[i].weight);
      }
      Distribute(r.rounds, Total(ms));
    }
  }

  lemma RoundsAreExact(rounds: nat, k: nat, total: nat, left: nat)
    requires 0 < left <= total && rounds * total + (total - left) == k * total
    ensures rounds == k && left == total
  {
    if rounds < k {
      Apart(rounds, k, total);
    } else if rounds > k {
      Apart(k, rounds, total);
    }
  }

  /** After k times as many packets as all weights make, everybody has had exactly k times its weight. */
  lemma SharesAreExact(ms: seq<Member>, cs: seq<nat>, weightCounter: int, r: Run, k: nat, i: nat)
    requires Inv(ms, cs, weightCounter, r) && |r.history| == k * Total(ms)
    requires i < |ms| && ms[i].takesPart
    ensures Chosen(r.history, i) == k * ms[i].weight
  {
    RoundsAreExact(r.rounds, k, Total(ms), weightCounter);
    SumAtLimit(ms, cs, Weights(ms));
  }

  /** Without weights there is nobody to elect. */
  lemma NobodyIsElected(ms: seq<Member>, cs: seq<nat>, e: int)
    requires |ms| == |cs| && Total(ms) == 0 && IsElected(ms, cs, |ms|, e)
    ensures e < 0
  {
    if e >= 0 {
      NothingLeft(ms, Weights(ms), e);
    }
  }

  // ----- the sender -----

  class Peer {
    const weight: nat
    const takesPart: bool
    var wCount: nat

    constructor (weight: nat, takesPart: bool)
      ensures this.weight == weight == wCount && this.takesPart == takesPart
    {
      this.weight, this.takesPart, wCount := weight, takesPart, weight;
    }
  }

  class Scheduler {
    const peers: seq<Peer>
    var weightCounter: int
    const totalWeight: nat
    ghost var run: Run

    ghost function Members(): (ms: seq<Member>)
      ensures |ms| == |peers|
      ensures forall i :: 0 <= i < |peers| ==> ms[i] == Member(peers[i].weight, peers[i].takesPart)
    {
      seq(|peers|, i requires 0 <= i < |peers| => Member(peers[i].weight, peers[i].takesPart))
    }

    ghost function Counts(): (cs: seq<nat>)
      reads peers
      ensures |cs| == |peers|
      ensures forall i :: 0 <= i < |peers| ==> cs[i] == peers[i].wCount
    {
      seq(|peers|, i requires 0 <= i < |peers| reads peers => peers[i].wCount)
    }

    /** The peers are different objects, and the counters are those of a run. */
    ghost predicate Valid()
      reads this, peers
    {
      && Distinct(peers)
      && totalWeight == Total(Members())
      && if totalWeight == 0 then weightCounter == 0 else Inv(Members(), Counts(), weightCounter, run)
    }

    /** The sender starts with all counters full and the weights summed up. */
    constructor (peers: seq<Peer>, ghost ms: seq<Member>, totalWeight: nat)
      requires Distinct(peers)
      requires forall i :: 0 <= i < |peers| ==> peers[i].wCount == peers[i].weight
      requires |ms| == |peers| && forall i :: 0 <= i < |peers| ==> ms[i] == Member(peers[i].weight, peers[i].takesPart)
      requires totalWeight == Total(ms)
      ensures Valid() && this.peers == peers && run == Run([], 0)
    {
      this.peers, this.totalWeight := peers, totalWeight;
      weightCounter, run := totalWeight, Run([], 0);
      new;
      assert Members() == ms && Counts() == Weights(ms);
      if totalWeight > 0 {
        InvStarts(ms);
      }
    }

    /**
      The loop over the peers: every peer of weight zero gets the packet, and one of the
      others is elected.
     */
    method Elect() returns (elected: int, copies: seq<nat>)
      ensures elected >= -1 && IsElected(Members(), Counts(), |peers|, elected)
      ensures forall i :: i in copies <==> 0 <= i < |peers| && peers[i].takesPart && peers[i].weight == 0
      ensures Distinct(copies)
    {
      elected, copies := -1, [];
      var maxRemainder := 0;
      var i := 0;
      while i < |peers|
        invariant 0 <= i <= |peers| && elected >= -1 && IsElected(Members(), Counts(), i, elected)
        invariant maxRemainder == if elected < 0 then 0 else peers[elected].wCount
        invariant forall j :: j in copies <==> 0 <= j < i && peers[j].takesPart && peers[j].weight == 0
        invariant Distinct(copies)
      {
        if peers[i].takesPart {
          if peers[i].weight == 0 {
            copies := copies + [i];
          } else if peers[i].wCount > maxRemainder {
            maxRemainder := peers[i].wCount;
            elected := i;
          }
        }
        i := i + 1;
      }
    }

    /** Every counter starts anew. */
    method Refill()
      requires Distinct(peers)
      modifies `weightCounter, peers
      ensures weightCounter == totalWeight && Counts() == Weights(Members())
    {
      weightCounter := totalWeight;
      var i := 0;
      while i < |peers|
        invariant 0 <= i <= |peers| && weightCounter == totalWeight
        invariant forall j :: 0 <= j < i ==> peers[j].wCount == peers[j].weight
      {
        peers[i].wCount := peers[i].weight;
        i := i + 1;
      }
    }

    /** One packet less for the elected peer. */
    method Charge(e: nat)
      requires Distinct(peers)
      requires e < |peers| && peers[e].wCount > 0
      modifies `weightCounter, peers
      ensures weightCounter == old(weightCounter) - 1 && Counts() == old(Counts())[e := old(peers[e].wCount) - 1]
    {
      ghost var cs := Counts();
      weightCounter := weightCounter - 1;
      peers[e].wCount := peers[e].wCount - 1;
      forall j | 0 <= j < |peers|
        ensures Counts()[j] == cs[e := cs[e] - 1][j]
      {
        if j != e {
          assert peers[j] != peers[e];
        }
      }
    }

    /** What an election leaves of the counters: a new round starts with the last one used up. */
    method Account(elected: int)
      requires Distinct(peers) && elected < |peers| && (elected >= 0 <==> totalWeight > 0)
      requires elected >= 0 ==> peers[elected].wCount > 0 && weightCounter > 0
      modifies `weightCounter, peers
      ensures elected < 0 ==> weightCounter == old(weightCounter) && Counts() == old(Counts())
      ensures elected >= 0 ==>
                && weightCounter == (if old(weightCounter) == 1 then totalWeight else old(weightCounter) - 1)
                && Counts() == AfterElection(Members(), old(Counts()), old(weightCounter), elected)
    {
      hide Distinct;
      if elected >= 0 {
        Charge(elected);
      }
      if totalWeight > 0 && (weightCounter == 0 || elected < 0) {
        Refill();
      }
    }

    lemma LeftPositive()
      requires Valid()
      ensures totalWeight > 0 ==> weightCounter > 0
    {
    }

    /** An election and its account keep what every run keeps. */
    lemma Parts()
      ensures Valid() <==> Distinct(peers) && totalWeight == Total(Members())
                           && if totalWeight == 0 then weightCounter == 0 else Inv(Members(), Counts(), weightCounter, run)
    {
      hide Inv, Total, Distinct;
    }

    /** What an election finds, and what keeping account of it leaves. */
    lemma Settled(elected: int)
      requires Valid() && elected >= -1 && IsElected(Members(), Counts(), |peers|, elected)
      ensures Distinct(peers) && totalWeight == Total(Members()) && elected < |peers| && (elected >= 0 <==> totalWeight > 0)
      ensures totalWeight == 0 ==> weightCounter == 0
      ensures totalWeight > 0 ==>
                && peers[elected].wCount == Counts()[elected] > 0 && weightCounter > 0
                && Inv(Members(), AfterElection(Members(), Counts(), weightCounter, elected),
                       if weightCounter == 1 then totalWeight else weightCounter - 1, RunAfter(run, weightCounter, elected))
    {
      if totalWeight > 0 {
        LeftPositive();
        ElectionKeepsInv(Members(), Counts(), weightCounter, run, elected);
        SomebodyIsElected(Members(), Counts(), weightCounter, run, elected);
      } else {
        NobodyIsElected(Members(), Counts(), elected);
      }
      hide Inv, IsElected, Total, AfterElection, RunAfter;
    }

    method Settle(elected: int)
      requires Valid() && elected >= -1 && IsElected(Members(), Counts(), |peers|, elected)
      modifies `weightCounter, `run, peers
      ensures Valid()
      ensures totalWeight == 0 ==> elected < 0 && run == old(run)
      ensures totalWeight > 0 ==> 0 <= elected < |peers| && run == RunAfter(old(run), old(weightCounter), elected)
    {
      hide *;
      Settled(elected);
      ghost var r := if totalWeight > 0 then RunAfter(run, weightCounter, elected) else run;
      Account(elected);
      run := r;
      Parts();
    }

    /**
      rist_sender_send_data_balanced: the packet goes once to every peer of weight zero
      and, if there are others, to the first of those with the most left. Somebody is always
      left to elect, so the jump back for the case of nobody is never needed.
     */
    method Send() returns (sent: seq<nat>, ghost e: int)
      requires Valid()
      modifies `weightCounter, `run, peers
      ensures Valid() && e >= -1 && old(IsElected(Members(), Counts(), |peers|, e))
      ensures totalWeight == 0 ==> e < 0 && run == old(run)
      ensures totalWeight > 0 ==> 0 <= e < |peers| && run == RunAfter(old(run), old(weightCounter), e)
      ensures Distinct(sent)
      ensures forall i: nat :: i in sent <==> i == e || (0 <= i < |peers| && peers[i].takesPart && peers[i].weight == 0)
    {
      var elected, copies := Elect();
      e := elected;
      assert Distinct(copies) && elected !in copies ==> Distinct(copies + [elected]);
      hide Inv, IsElected, Total, Distinct;
      sent := copies;
      if elected >= 0 {
        sent := sent + [elected as nat];
      }
      Settle(elected);
    }
  }
}
