/** The read deadline of autoRedial mode: each recvEvent gives its frame
    `heartbeat + netDelay` from the moment it starts reading. */
module Timing {

  function Max(a: int, b: int): int {
    if a < b then b else a
  }

  /** One run of the reader over frames that are complete at `arrivals`: it starts
      its first read at `start` and lets `delays[i]` pass between having frame i and
      starting to read the next.  True if some read meets its deadline first. */
  predicate DeadlineHit(start: int, arrivals: seq<int>, delays: seq<nat>, limit: nat)
    requires |delays| == |arrivals|
    decreases |arrivals|
  {
    arrivals != [] &&
    (arrivals[0] > start + limit ||
     DeadlineHit(Max(start, arrivals[0]) + delays[0], arrivals[1..], delays[1..], limit))
  }

  /** The earliest moment at which frame i can be waited for. */
  function Ready(start: int, arrivals: seq<int>, i: nat): int
    requires i <= |arrivals|
  {
    if i == 0 then start else Max(start, arrivals[i - 1])
  }

  /** Each frame arrives at most `limit` after the one before it, or after the first
      read starts. */
  predicate Steady(start: int, arrivals: seq<int>, limit: nat) {
    forall i :: 0 <= i < |arrivals| ==> arrivals[i] <= Ready(start, arrivals, i) + limit
  }

  predicate Ordered(arrivals: seq<int>) {
    forall i :: 0 < i < |arrivals| ==> arrivals[i - 1] <= arrivals[i]
  }

  lemma {:induction false} SteadyNeverHits(start: int, arrivals: seq<int>, delays: seq<nat>, limit: nat)
    requires |delays| == |arrivals| && Steady(start, arrivals, limit)
    ensures !DeadlineHit(start, arrivals, delays, limit)
    decreases |arrivals|
  {
    if arrivals != [] {
      assert arrivals[0] <= Ready(start, arrivals, 0) + limit;
      var next := Max(start, arrivals[0]) + delays[0];
      var rest := arrivals[1..];
      forall i | 0 <= i < |rest|
        ensures rest[i] <= Ready(next, rest, i) + limit
      {
        assert arrivals[i + 1] <= Ready(start, arrivals, i + 1) + limit;
      }
      SteadyNeverHits(next, rest, delays[1..], limit);
    }
  }

  function Zeros(n: nat): (zs: seq<nat>)
    ensures |zs| == n
  {
    seq(n, _ => 0)
  }

  /** A reader that never dawdles meets the deadline before the first late frame. */
  lemma {:induction false} LateHits(start: int, arrivals: seq<int>, limit: nat, i: nat)
    requires Ordered(arrivals) && i < |arrivals|
    requires arrivals[i] > Ready(start, arrivals, i) + limit
    ensures DeadlineHit(start, arrivals, Zeros(|arrivals|), limit)
    decreases |arrivals|
  {
    if i > 0 {
      var rest := arrivals[1..];
      OrderedFrom(arrivals, i - 1);
      assert rest[i - 1] == arrivals[i];
      assert i > 1 ==> rest[i - 2] == arrivals[i - 1];
      LateHits(Max(start, arrivals[0]), rest, limit, i - 1);
      assert Zeros(|arrivals|)[1..] == Zeros(|rest|);
    }
  }

  lemma {:induction false} OrderedFrom(arrivals: seq<int>, i: nat)
    requires Ordered(arrivals) && i < |arrivals|
    ensures arrivals[0] <= arrivals[i]
  {
    if i > 0 {
      OrderedFrom(arrivals, i - 1);
    }
  }

  /** No false redial, exactly: however long the reader dispatches between reads, no
      read meets its deadline, if and only if every frame arrives at most `limit`
      after the one before it or the first read. */
  lemma NoFalseRedial(start: int, arrivals: seq<int>, limit: nat)
    requires Ordered(arrivals)
    ensures (forall delays: seq<nat> :: |delays| == |arrivals| ==> !DeadlineHit(start, arrivals, delays, limit))
            <==> Steady(start, arrivals, limit)
  {
    if Steady(start, arrivals, limit) {
      forall delays: seq<nat> | |delays| == |arrivals|
        ensures !DeadlineHit(start, arrivals, delays, limit)
      {
        SteadyNeverHits(start, arrivals, delays, limit);
      }
    } else {
      var i :| 0 <= i < |arrivals| && arrivals[i] > Ready(start, arrivals, i) + limit;
      LateHits(start, arrivals, limit, i);
      var delays := Zeros(|arrivals|);
      assert |delays| == |arrivals| && DeadlineHit(start, arrivals, delays, limit);
    }
  }

  /** What the heartbeat option is for: heartbeats sent at most `heartbeat` apart, and each
      on its way for at most `netDelay`, cause no redial however the reader dawdles. */
  lemma HeartbeatsSuffice(start: int, sent: seq<int>, arrivals: seq<int>, delays: seq<nat>,
                          heartbeat: nat, netDelay: nat)
    requires |sent| == |arrivals| == |delays| && Steady(start, sent, heartbeat)
    requires forall i :: 0 <= i < |sent| ==> sent[i] <= arrivals[i] <= sent[i] + netDelay
    ensures !DeadlineHit(start, arrivals, delays, heartbeat + netDelay)
  {
    forall i | 0 <= i < |arrivals|
      ensures arrivals[i] <= Ready(start, arrivals, i) + (heartbeat + netDelay)
    {
      assert arrivals[i] <= sent[i] + netDelay;
      if i > 0 {
        assert sent[i - 1] <= arrivals[i - 1];
      }
    }
    SteadyNeverHits(start, arrivals, delays, heartbeat + netDelay);
  }
}
