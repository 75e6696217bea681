/** Reachability of the deadlock, and when HandleEvents can return after Close. */
module Shutdown {
  import opened Machine
  import opened Lifecycle
  import opened Deadlock
  import Conservation

  // ---- the threshold is tight at every capacity ------------------------------

  lemma {:induction false} EmitMany(c: Config, s: State, n: nat) returns (s': State)
    requires Reachable(c, s) && Awaiting(s, 0) && s.phase == Top && Ahead(s.wire) == |s.wire|
    requires s.events.queue == [] && s.command.queue == [] && s.api.queue == [] && |s.owed| == 1
    ensures Reachable(c, s') && Awaiting(s', 0) && s'.phase == Top && Ahead(s'.wire) == |s'.wire| == |s.wire| + n
    ensures s'.events.queue == [] && s'.command.queue == [] && s'.api.queue == [] && |s'.owed| == 1
    decreases n
  {
    if n == 0 {
      s' := s;
    } else {
      var l := Emit(Generic(n));
      ReachableStep(c, s, l);
      QuietKeeps(c, s, 0, l);
      NoReplyAhead(s.wire);
      FramesSnoc(s.wire, Generic(n));
      s' := EmitMany(c, Do(c, s, l), n - 1);
    }
  }

  lemma {:induction false} NoReplyAhead(frames: seq<Frame>)
    requires Ahead(frames) == |frames|
    ensures !HasReply(frames)
  {
    if frames != [] {
      AheadBound(frames[1..]);
      NoReplyAhead(frames[1..]);
      HasReplyTail(frames);
    }
  }

  lemma {:induction false} AheadBound(frames: seq<Frame>)
    ensures Ahead(frames) <= |frames|
  {
    if frames != [] {
      AheadBound(frames[1..]);
    }
  }

  /** A reachable state in which the first callback waits for a reply that is on
      the wire behind exactly `n` generic events. */
  lemma AwaitingBehind(c: Config, n: nat) returns (s: State)
    ensures Reachable(c, s) && Awaiting(s, 0) && HasReply(s.wire) && Load(s) == n
    ensures s.events.queue == [] && s.command.queue == [] && s.api.queue == []
  {
    assert Run(c, INIT, []) == INIT;
    var w := Write(Callback(0), Command);
    ReachableStep(c, INIT, w);
    var s1 := Do(c, INIT, w);
    assert s1.waiting.Keys == {Callback(0)};
    var s2 := EmitMany(c, s1, n);
    ReachableStep(c, s2, Answer);
    QuietKeeps(c, s2, 0, Answer);
    s := Do(c, s2, Answer);
    AheadSnocReply(s2.wire, s2.owed[0]);
    assert s.wire[|s.wire| - 1].Reply?;
  }

  lemma {:induction false} AheadSnocReply(frames: seq<Frame>, r: Request)
    ensures Ahead(frames + [Reply(r)]) == Ahead(frames)
  {
    if frames == [] {
      assert frames + [Reply(r)] == [Reply(r)];
    } else {
      assert (frames + [Reply(r)])[1..] == frames[1..] + [Reply(r)];
      AheadSnocReply(frames[1..], r);
    }
  }

  lemma {:induction false} ReachableRun(c: Config, s: State, ls: seq<Label>)
    requires Reachable(c, s) && Legal(c, s, ls)
    ensures Reachable(c, Run(c, s, ls))
    decreases |ls|
  {
    if ls != [] {
      ReachableStep(c, s, ls[0]);
      ReachableRun(c, Do(c, s, ls[0]), ls[1..]);
    }
  }

  /** One event more than the channel holds, and the deadlock is reachable,
      whatever the capacity; with no more than that the reply gets through. */
  lemma ThresholdIsTight(c: Config)
    requires c.cap > 0
    ensures exists s :: Reachable(c, s) && Awaiting(s, 0) && Load(s) == c.cap && Fits(c, s, 0)
    ensures exists s :: Reachable(c, s) && Deadlocked(c, s, 0)
  {
    var s1 := AwaitingBehind(c, c.cap);
    assert Fits(c, s1, 0);
    var s2 := AwaitingBehind(c, c.cap + 1);
    var ls := DeadlockingRun(c, s2, 0);
    ReachableRun(c, s2, ls);
  }

  // ---- a reader nobody can free ----------------------------------------------

  /** The reader is blocked on a full event channel and no callback is alive. */
  ghost predicate Stranded(c: Config, s: State) {
    s.phase.HoldingEvent? && |s.events.queue| >= c.cap && forall j :: !IsLive(s, j)
  }

  /** A stranded reader stays so on every run: the send ignores its context, and
      only the reader could spawn another callback. */
  lemma {:induction false} StrandedForever(c: Config, s: State, ls: seq<Label>)
    requires Stranded(c, s) && Legal(c, s, ls)
    ensures Stranded(c, Run(c, s, ls)) && Run(c, s, ls).phase == s.phase
    decreases |ls|
  {
    if ls != [] {
      StrandedStep(c, s, ls[0]);
      StrandedForever(c, Do(c, s, ls[0]), ls[1..]);
    }
  }

  lemma StrandedStep(c: Config, s: State, l: Label)
    requires Stranded(c, s) && Enabled(c, s, l)
    ensures Stranded(c, Do(c, s, l)) && Do(c, s, l).phase == s.phase
  {
    var s' := Do(c, s, l);
    assert l.Handle? ==> IsLive(s, l.handler);
    assert l.Exit? ==> IsLive(s, l.exiting);
    assert |s'.callbacks| == |s.callbacks|;
    assert forall j :: 0 <= j < |s.callbacks| ==> s'.callbacks[j].live == s.callbacks[j].live;
    assert forall j :: IsLive(s', j) ==> IsLive(s, j);
  }

  // ---- when HandleEvents can return --------------------------------------------

  ghost predicate CanReturn(c: Config, s: State) {
    exists ls :: Legal(c, s, ls) && Run(c, s, ls).phase == Returned
  }

  lemma CanReturnAfter(c: Config, s: State, l: Label)
    requires Enabled(c, s, l) && CanReturn(c, Do(c, s, l))
    ensures CanReturn(c, s)
  {
    var ls :| Legal(c, Do(c, s, l), ls) && Run(c, Do(c, s, l), ls).phase == Returned;
    RunOne(c, s, l);
    RunAppend(c, s, [l], ls);
  }

  predicate NoClose(ls: seq<Label>) {
    forall l :: l in ls ==> !l.Close?
  }

  /** HandleEvents can return without anybody calling Close. */
  ghost predicate ReturnsUnclosed(c: Config, s: State) {
    exists ls :: Legal(c, s, ls) && NoClose(ls) && Run(c, s, ls).phase == Returned
  }

  lemma ReturnsUnclosedAfter(c: Config, s: State, l: Label)
    requires Enabled(c, s, l) && !l.Close? && ReturnsUnclosed(c, Do(c, s, l))
    ensures ReturnsUnclosed(c, s)
  {
    var ls :| Legal(c, Do(c, s, l), ls) && NoClose(ls) && Run(c, Do(c, s, l), ls).phase == Returned;
    RunOne(c, s, l);
    RunAppend(c, s, [l], ls);
    assert NoClose([l] + ls);
  }

  /** From srWg.Wait on, every live callback whose context is cancelled can be made to
      exit. */
  lemma {:induction false} WaitingReturns(c: Config, s: State)
    requires Accounted(s) && AllCancelled(s) && s.phase == Waiting
    ensures ReturnsUnclosed(c, s)
    decreases LiveCount(s.callbacks), |s.waiting.Keys|
  {
    LiveCountZero(s.callbacks);
    if s.srWg == 0 {
      RunOne(c, s, Return);
      assert NoClose([Return]);
    } else {
      var i :| 0 <= i < |s.callbacks| && s.callbacks[i].live;
      if Callback(i) in s.waiting {
        GiveUpStep(c, s, i);
        WaitingReturns(c, Do(c, s, GiveUp(Callback(i))));
        ReturnsUnclosedAfter(c, s, GiveUp(Callback(i)));
      } else {
        ExitStep(c, s, i);
        WaitingReturns(c, Do(c, s, Exit(i)));
        ReturnsUnclosedAfter(c, s, Exit(i));
      }
    }
  }

  lemma GiveUpStep(c: Config, s: State, i: nat)
    requires Accounted(s) && AllCancelled(s) && s.phase == Waiting && Callback(i) in s.waiting
    ensures var s' := Do(c, s, GiveUp(Callback(i)));
      && Accounted(s') && AllCancelled(s') && s'.phase == Waiting
      && s'.callbacks == s.callbacks && |s'.waiting.Keys| < |s.waiting.Keys|
  {
    BystanderAccounted(c, s, GiveUp(Callback(i)));
    assert Do(c, s, GiveUp(Callback(i))).waiting.Keys == s.waiting.Keys - {Callback(i)};
  }

  lemma ExitStep(c: Config, s: State, i: nat)
    requires Accounted(s) && AllCancelled(s) && s.phase == Waiting && IsLive(s, i) && Callback(i) !in s.waiting
    ensures Enabled(c, s, Exit(i))
    ensures var s' := Do(c, s, Exit(i));
      && Accounted(s') && AllCancelled(s') && s'.phase == Waiting && LiveCount(s'.callbacks) < LiveCount(s.callbacks)
  {
    ExitAccounted(c, s, Exit(i));
    LiveCountUpdate(s.callbacks, i, s.callbacks[i].(live := false));
  }

  // ---- returning without Close -------------------------------------------------

  /** Behind the loop, and the last callback's context nobody will cancel. */
  ghost predicate Lingering(c: Config, s: State) {
    && Accounted(s) && (s.phase == Leaving || s.phase == Waiting)
    && !s.callbacks[|s.callbacks| - 1].cancelled
    && (s.phase == Leaving ==> c.autoRedial || !s.connected)
  }

  lemma LingeringStep(c: Config, s: State, l: Label)
    requires Lingering(c, s) && Enabled(c, s, l) && !l.Close?
    ensures Lingering(c, Do(c, s, l))
  {
    AccountedStep(c, s, l);
    if l.Return? {
      LiveCountZero(s.callbacks);
    } else if Bystander(l) {
      BystanderKeeps(c, s, l);
    }
  }

  lemma {:induction false} LingeringAlong(c: Config, s: State, ls: seq<Label>)
    requires Lingering(c, s) && Legal(c, s, ls) && NoClose(ls)
    ensures Lingering(c, Run(c, s, ls))
    decreases |ls|
  {
    if ls != [] {
      assert ls[0] in ls;
      LingeringStep(c, s, ls[0]);
      LingeringAlong(c, Do(c, s, ls[0]), ls[1..]);
    }
  }

  /** When the loop is left, by a lost connection or otherwise, HandleEvents can return
      without a Close exactly if the last callback is cancelled already, or redial is
      disabled and the connection was not closed: then the deferred function cancels
      it. */
  lemma LeavingReturns(c: Config, s: State)
    requires Reachable(c, s) && s.phase == Leaving
    ensures s.callbacks != []
    ensures ReturnsUnclosed(c, s) <==> (!c.autoRedial && s.connected) || s.callbacks[|s.callbacks| - 1].cancelled
  {
    ReachableAccounted(c, s);
    if (!c.autoRedial && s.connected) || s.callbacks[|s.callbacks| - 1].cancelled {
      AccountedStep(c, s, Depart);
      WaitingReturns(c, Do(c, s, Depart));
      ReturnsUnclosedAfter(c, s, Depart);
    } else {
      forall ls | Legal(c, s, ls) && NoClose(ls)
        ensures Run(c, s, ls).phase != Returned
      {
        LingeringAlong(c, s, ls);
      }
    }
  }

  /** So without redial, losing the connection is enough: from the start, a run without
      a Close on which the peer hangs up and HandleEvents returns. */
  lemma HangUpReturns(c: Config)
    requires !c.autoRedial
    ensures ReturnsUnclosed(c, INIT)
  {
    var s1 := Do(c, INIT, Loop);
    var s2 := Do(c, s1, Lose(HungUp));
    assert s2 == INIT.(phase := Leaving);
    assert Run(c, INIT, []) == INIT;
    ReachableStep(c, INIT, Loop);
    ReachableStep(c, s1, Lose(HungUp));
    LeavingReturns(c, s2);
    ReturnsUnclosedAfter(c, s1, Lose(HungUp));
    ReturnsUnclosedAfter(c, INIT, Loop);
  }

  // ---- returning after Close -----------------------------------------------------

  /** How far the reader is from srWg.Wait. */
  function Steps(p: Phase): nat {
    match p
    case Leaving => 1
    case Top => 2
    case Receiving => 2
    case HoldingReply(_) => 3
    case HoldingEvent(_) => 4
    case Marked(_) => 2
    case LostSeen(_) => 3
    case Renewed => 2
    case PasswordSent => 2
    case _ => 0
  }

  /** The reader's next step towards srWg.Wait, when its context is done. */
  function Out(s: State): Label {
    match s.phase
    case Top => Loop
    case Receiving => Lose(HungUp)
    case HoldingReply(_) => DropReply
    case HoldingEvent(_) => PushEvent
    case LostSeen(_) => MarkLost
    case Marked(_) => CloseLost
    case Renewed => AuthFails
    case PasswordSent => AuthFails
    case _ => Depart
  }

  lemma OutStep(c: Config, s: State)
    requires Accounted(s) && Quiescent(s) && s.ctxDone && s.phase != Waiting && s.phase != Returned
    requires s.phase.HoldingEvent? ==> |s.events.queue| < c.cap
    ensures Enabled(c, s, Out(s))
    ensures var s' := Do(c, s, Out(s));
      Accounted(s') && Quiescent(s') && s'.ctxDone && s'.phase != Returned && Steps(s'.phase) < Steps(s.phase)
      && !s'.phase.HoldingEvent?
  {
    AccountedStep(c, s, Out(s));
    QuiescentStep(c, s, Out(s));
  }

  lemma {:induction false} UnblockedReturns(c: Config, s: State)
    requires Accounted(s) && Quiescent(s) && s.ctxDone
    requires s.phase.HoldingEvent? ==> |s.events.queue| < c.cap
    ensures CanReturn(c, s)
    decreases Steps(s.phase)
  {
    if s.phase == Waiting {
      WaitingReturns(c, s);
      assert CanReturn(c, s);
    } else if s.phase == Returned {
      assert Run(c, s, []) == s;
    } else {
      OutStep(c, s);
      UnblockedReturns(c, Do(c, s, Out(s)));
      CanReturnAfter(c, s, Out(s));
    }
  }

  /** A full event channel is no obstacle while a callback is alive to drain it. */
  lemma DrainedReturns(c: Config, s: State, i: nat)
    requires Accounted(s) && Quiescent(s) && s.ctxDone && c.cap > 0 && |s.events.queue| == c.cap
    requires s.phase.HoldingEvent? && IsLive(s, i) && Callback(i) !in s.waiting
    ensures CanReturn(c, s)
  {
    AccountedStep(c, s, Handle(i));
    QuiescentStep(c, s, Handle(i));
    UnblockedReturns(c, Do(c, s, Handle(i)));
    CanReturnAfter(c, s, Handle(i));
  }

  /** After a Close that ended every callback, HandleEvents can still return
      unless the reader is stranded, and then it cannot. */
  lemma ShutdownCompletes(c: Config, s: State)
    requires c.cap > 0 && Accounted(s) && Quiescent(s) && |s.events.queue| <= c.cap
    ensures CanReturn(c, s) <==> !Stranded(c, s)
  {
    if Stranded(c, s) {
      forall ls | Legal(c, s, ls)
        ensures Run(c, s, ls).phase != Returned
      {
        StrandedForever(c, s, ls);
      }
    } else {
      AccountedStep(c, s, CancelContext);
      QuiescentStep(c, s, CancelContext);
      var s1 := Do(c, s, CancelContext);
      if s.phase.HoldingEvent? && |s.events.queue| == c.cap {
        var i :| IsLive(s, i);
        assert IsLive(s1, i);
        if Callback(i) in s1.waiting {
          var l := GiveUp(Callback(i));
          AccountedStep(c, s1, l);
          QuiescentStep(c, s1, l);
          DrainedReturns(c, Do(c, s1, l), i);
          CanReturnAfter(c, s1, l);
        } else {
          DrainedReturns(c, s1, i);
        }
      } else {
        UnblockedReturns(c, s1);
      }
      CanReturnAfter(c, s, CancelContext);
    }
  }

  /** For the caller of Close: whenever it ends the callbacks, HandleEvents can still
      return exactly if the reader is not stranded. */
  lemma CloseThenReturn(c: Config, s: State)
    requires Reachable(c, s) && c.cap > 0
    requires s.callbacks != [] && !CanRestart(s) && (s.onceUsed ==> s.callbacks[|s.callbacks| - 1].cancelled)
    ensures CanReturn(c, Do(c, s, Close)) <==> !Stranded(c, Do(c, s, Close))
  {
    ReachableAccounted(c, s);
    CloseQuiesces(c, s);
    ReachableStep(c, s, Close);
    Conservation.DemultiplexerConserves(c, Do(c, s, Close));
    ShutdownCompletes(c, Do(c, s, Close));
  }

  /** Close, then the callback's own call cancelled, then its exit: nobody is left to
      drain the channel. */
  lemma StrandedAfter(c: Config, s: State)
    requires Deadlocked(c, s, 0) && Accounted(s) && s.connected
    ensures var s1 := Do(c, s, GiveUp(Callback(0)));
      var s2 := Do(c, s1, Close);
      Enabled(c, s2, Exit(0)) && Stranded(c, Do(c, s2, Exit(0)))
  {
    var s1 := Do(c, s, GiveUp(Callback(0)));
    assert s1.callbacks == s.callbacks && s1.connected && !s1.onceUsed && s1.phase == s.phase;
    assert Callback(0) !in s1.waiting && s1.events == s.events;
    assert s.callbacks[0].cancelled || |s.callbacks| == 1;
    assert forall j :: IsLive(s1, j) <==> IsLive(s, j);
    LastExits(c, s1);
  }

  lemma LastExits(c: Config, s: State)
    requires s.phase.HoldingEvent? && |s.events.queue| >= c.cap && Callback(0) !in s.waiting && !s.onceUsed
    requires IsLive(s, 0) && (forall j :: IsLive(s, j) ==> j == 0)
    requires s.callbacks[0].cancelled || |s.callbacks| == 1
    ensures var s2 := Do(c, s, Close); Enabled(c, s2, Exit(0)) && Stranded(c, Do(c, s2, Exit(0)))
  {
    var s2 := Do(c, s, Close);
    assert forall j :: IsLive(s2, j) <==> IsLive(s, j);
    assert s2.callbacks[0].cancelled && s2.waiting == s.waiting;
    var s3 := Do(c, s2, Exit(0));
    assert forall j :: IsLive(s3, j) ==> j != 0 && IsLive(s2, j);
  }

  /** A stranded reader is reachable at every capacity. */
  lemma StrandedReachable(c: Config)
    ensures exists s :: Reachable(c, s) && Stranded(c, s)
  {
    var s0 := AwaitingBehind(c, c.cap + 1);
    var ls := DeadlockingRun(c, s0, 0);
    ReachableRun(c, s0, ls);
    var s := Run(c, s0, ls);
    ReachableAccounted(c, s);
    StrandedAfter(c, s);
    var s1 := Do(c, s, GiveUp(Callback(0)));
    ReachableStep(c, s, GiveUp(Callback(0)));
    var s2 := Do(c, s1, Close);
    ReachableStep(c, s1, Close);
    ReachableStep(c, s2, Exit(0));
  }
}
