/** Close, redial and the callback goroutines, over every interleaving. */
module Lifecycle {
  import opened Machine

  // ---- callback accounting -------------------------------------------------

  function LiveCount(cbs: seq<CallbackState>): nat {
    if cbs == [] then 0 else (if cbs[0].live then 1 else 0) + LiveCount(cbs[1..])
  }

  lemma {:induction false} LiveCountUpdate(cbs: seq<CallbackState>, i: nat, x: CallbackState)
    requires i < |cbs|
    ensures LiveCount(cbs[i := x])
         == LiveCount(cbs) - (if cbs[i].live then 1 else 0) + (if x.live then 1 else 0)
  {
    if i > 0 {
      assert cbs[i := x][1..] == cbs[1..][i - 1 := x];
      LiveCountUpdate(cbs[1..], i - 1, x);
    }
  }

  lemma {:induction false} LiveCountSnoc(cbs: seq<CallbackState>, x: CallbackState)
    ensures LiveCount(cbs + [x]) == LiveCount(cbs) + (if x.live then 1 else 0)
  {
    if cbs != [] {
      assert (cbs + [x])[1..] == cbs[1..] + [x];
      LiveCountSnoc(cbs[1..], x);
    }
  }

  predicate NoneLive(cbs: seq<CallbackState>) {
    forall i :: 0 <= i < |cbs| ==> !cbs[i].live
  }

  lemma NoneLiveTail(cbs: seq<CallbackState>)
    requires cbs != []
    ensures NoneLive(cbs) <==> !cbs[0].live && NoneLive(cbs[1..])
  {
    if !cbs[0].live && NoneLive(cbs[1..]) {
      forall i | 0 <= i < |cbs|
        ensures !cbs[i].live
      {
        if i > 0 {
          assert cbs[i] == cbs[1..][i - 1];
        }
      }
    }
  }

  lemma {:induction false} LiveCountZero(cbs: seq<CallbackState>)
    ensures LiveCount(cbs) == 0 <==> NoneLive(cbs)
  {
    if cbs != [] {
      LiveCountZero(cbs[1..]);
      NoneLiveTail(cbs);
    }
  }

  /** Between giving up a connection and spawning the next callback. */
  predicate Renewing(p: Phase) {
    p == Redialing || p == Renewed || p == PasswordSent || p == Authenticated
  }

  ghost predicate Accounted(s: State) {
    && |s.callbacks| > 0
    && s.srWg == LiveCount(s.callbacks)
    // every callback but the last was cancelled before its successor was spawned
    && (forall i :: 0 <= i < |s.callbacks| - 1 ==> s.callbacks[i].cancelled)
    && (Renewing(s.phase) ==> s.callbacks[|s.callbacks| - 1].cancelled)
    // and none exits before
    && (forall i :: 0 <= i < |s.callbacks| ==> s.callbacks[i].cancelled || s.callbacks[i].live)
    // the once of the current connection is spent by the Close that disconnects it
    && (s.connected ==> !s.onceUsed)
    && (s.onceUsed && (s.phase.LostSeen? || s.phase.Marked?) ==> s.callbacks[|s.callbacks| - 1].cancelled)
    && (s.phase.Marked? || s.phase == Redialing ==> !s.connected)
    && (s.phase == Redialing ==> s.onceUsed)
    && (s.phase == Returned ==> s.srWg == 0)
    // the peer greets a new connection first
    && (s.phase == Renewed ==> s.wire != [] && s.wire[0] == Greeting)
    // and answers the password
    && (s.phase == PasswordSent ==> s.wire != [] || s.owed != [])
  }

  lemma CancelLast(cbs: seq<CallbackState>)
    requires |cbs| > 0
    ensures LiveCount(cbs[|cbs| - 1 := cbs[|cbs| - 1].(cancelled := true)]) == LiveCount(cbs)
  {
    LiveCountUpdate(cbs, |cbs| - 1, cbs[|cbs| - 1].(cancelled := true));
  }

  /** The steps that leave the reader, the callbacks and the flags alone. */
  predicate Bystander(l: Label) {
    l.Write? || l.Take? || l.GiveUp? || l.Answer? || l.Emit? || l.Handle? || l.CancelContext?
  }

  /** The steps that move the reader and change no flag and no callback. */
  predicate Moves(l: Label) {
    || l.Loop? || l.Receive? || l.Lose? || l.PushReply? || l.DropReply? || l.PushEvent?
    || l.DialFails? || l.Greet? || l.AuthFails? || l.AuthRefused? || l.AuthSucceeds? || l.Return?
  }

  lemma BystanderKeeps(c: Config, s: State, l: Label)
    requires Enabled(c, s, l) && Bystander(l)
    ensures var s' := Do(c, s, l);
      && s'.phase == s.phase && s'.callbacks == s.callbacks && s'.srWg == s.srWg
      && s'.connected == s.connected && s'.onceUsed == s.onceUsed
      && s'.onCloses == s.onCloses && s'.dials == s.dials
      && (l.Handle? || l.Take? || l.GiveUp? || l.CancelContext? ==> s'.wire == s.wire && s'.owed == s.owed)
      && (s.wire != [] ==> s'.wire != [] && s'.wire[0] == s.wire[0])
      && (s.wire != [] || s.owed != [] ==> s'.wire != [] || s'.owed != [])
  {
    if l.Write? {
    } else if l.Take? {
    } else if l.GiveUp? {
    } else if l.Answer? {
    } else if l.Emit? {
    }
  }

  lemma MoveKeeps(c: Config, s: State, l: Label)
    requires Enabled(c, s, l) && Moves(l)
    ensures var s' := Do(c, s, l);
      && s'.callbacks == s.callbacks && s'.srWg == s.srWg
      && s'.connected == s.connected && s'.onceUsed == s.onceUsed
      && s'.onCloses == s.onCloses && s'.dials == s.dials
      && (s'.phase.LostSeen? ==> l.Lose? && c.autoRedial && s.connected)
      && !s'.phase.Marked? && s'.phase != Redialing && s'.phase != Renewed
      && (s'.phase == PasswordSent ==> s.phase == Renewed)
      && (s'.phase == Authenticated ==> s.phase == PasswordSent)
      && (s'.phase == Returned ==> s.srWg == 0)
  {
    if l.Loop? || l.Lose? {
    } else if l.Receive? {
    } else if l.PushReply? {
    } else if l.DropReply? || l.PushEvent? {
    } else if l.DialFails? {
    } else if l.Greet? || l.AuthFails? || l.AuthRefused? || l.AuthSucceeds? {
    }
  }

  lemma AccountedStep(c: Config, s: State, l: Label)
    requires Accounted(s) && Enabled(c, s, l)
    ensures Accounted(Do(c, s, l))
  {
    if Bystander(l) { BystanderAccounted(c, s, l); }
    else if Moves(l) { MoveAccounted(c, s, l); }
    else if l.Spawn? { SpawnAccounted(c, s); }
    else if l.Exit? { ExitAccounted(c, s, l); }
    else if l.DialSucceeds? || l.MarkLost? { SwitchAccounted(c, s, l); }
    else if l.Depart? { DepartAccounted(c, s); }
    else { CloseOnceAccounted(s); }
  }

  lemma BystanderAccounted(c: Config, s: State, l: Label)
    requires Accounted(s) && Enabled(c, s, l) && Bystander(l)
    ensures Accounted(Do(c, s, l))
  {
    BystanderKeeps(c, s, l);
  }

  lemma MoveAccounted(c: Config, s: State, l: Label)
    requires Accounted(s) && Enabled(c, s, l) && Moves(l)
    ensures Accounted(Do(c, s, l))
  {
    MoveKeeps(c, s, l);
  }

  lemma SpawnAccounted(c: Config, s: State)
    requires Accounted(s) && Enabled(c, s, Spawn)
    ensures Accounted(Do(c, s, Spawn))
  {
    var s' := Do(c, s, Spawn);
    LiveCountSnoc(s.callbacks, CallbackState(true, false));
    assert s'.callbacks == s.callbacks + [CallbackState(true, false)];
    assert s'.connected == s.connected && s'.onceUsed == s.onceUsed && s'.phase == Top;
    assert forall i :: 0 <= i < |s.callbacks| ==> s'.callbacks[i] == s.callbacks[i];
  }

  lemma DepartAccounted(c: Config, s: State)
    requires Accounted(s) && Enabled(c, s, Depart)
    ensures Accounted(Do(c, s, Depart))
  {
    CancelLast(s.callbacks);
  }

  lemma SwitchAccounted(c: Config, s: State, l: Label)
    requires Accounted(s) && Enabled(c, s, l) && (l.DialSucceeds? || l.MarkLost?)
    ensures Accounted(Do(c, s, l))
  {
  }

  lemma ExitAccounted(c: Config, s: State, l: Label)
    requires Accounted(s) && Enabled(c, s, l) && l.Exit?
    ensures Accounted(Do(c, s, l))
  {
    LiveCountUpdate(s.callbacks, l.exiting, s.callbacks[l.exiting].(live := false));
  }

  lemma CloseOnceAccounted(s: State)
    requires Accounted(s)
    ensures Accounted(CloseOnce(s)) && CloseOnce(s).onceUsed && !CloseOnce(s).connected && CloseOnce(s).phase == s.phase
    ensures s.phase.Marked? ==> CloseOnce(s).callbacks[|s.callbacks| - 1].cancelled
  {
    CancelLast(s.callbacks);
  }

  lemma {:induction false} AccountedAlong(c: Config, s: State, ls: seq<Label>)
    requires Accounted(s) && Legal(c, s, ls)
    ensures Accounted(Run(c, s, ls))
    decreases |ls|
  {
    if ls != [] {
      AccountedStep(c, s, ls[0]);
      AccountedAlong(c, Do(c, s, ls[0]), ls[1..]);
    }
  }

  lemma InitAccounted()
    ensures Accounted(INIT)
  {
    var cbs := [CallbackState(true, false)];
    assert LiveCount(cbs) == 1 by {
      assert LiveCount(cbs[1..]) == 0;
    }
  }

  lemma ReachableAccounted(c: Config, s: State)
    requires Reachable(c, s)
    ensures Accounted(s)
  {
    var ls :| Legal(c, INIT, ls) && Run(c, INIT, ls) == s;
    InitAccounted();
    AccountedAlong(c, INIT, ls);
  }

  /** Callback accounting, over all interleavings of redials and closes: srWg is
      the number of live callback goroutines, at most one callback context (the
      last one) is uncancelled, and HandleEvents has returned only when no
      callback is live. */
  lemma CallbackAccounting(c: Config, s: State)
    requires Reachable(c, s)
    ensures s.srWg == LiveCount(s.callbacks)
    ensures forall i :: 0 <= i < |s.callbacks| && !s.callbacks[i].cancelled ==> i == |s.callbacks| - 1
    ensures s.phase == Returned ==> forall i :: 0 <= i < |s.callbacks| ==> !s.callbacks[i].live
  {
    ReachableAccounted(c, s);
    LiveCountZero(s.callbacks);
  }

  // ---- when Close is final -------------------------------------------------

  /** The reader has decided to redial and has not connected again yet.  A read
      lost with net.ErrClosed does not count: reset gives up on it. */
  predicate RedialUnderWay(p: Phase) {
    || (p.LostSeen? && p.cause != Closed)
    || (p.Marked? && p.cause != Closed)
    || p == Redialing
  }

  /** Closed for good. */
  ghost predicate Settled(s: State) {
    !s.connected && s.onceUsed && !RedialUnderWay(s.phase)
  }

  lemma SettledStep(c: Config, s: State, l: Label)
    requires Settled(s) && Enabled(c, s, l)
    ensures var s' := Do(c, s, l); Settled(s') && s'.dials == s.dials && s'.onCloses == s.onCloses
  {
    if Bystander(l) { BystanderKeeps(c, s, l); }
    else if Moves(l) { MoveKeeps(c, s, l); }
  }

  lemma {:induction false} SettledAlong(c: Config, s: State, ls: seq<Label>)
    requires Settled(s) && Legal(c, s, ls)
    ensures var s' := Run(c, s, ls); Settled(s') && s'.dials == s.dials && s'.onCloses == s.onCloses
    decreases |ls|
  {
    if ls != [] {
      SettledStep(c, s, ls[0]);
      SettledAlong(c, Do(c, s, ls[0]), ls[1..]);
    }
  }

  /** No run from `s` dials, reconnects or calls OnClose. */
  ghost predicate ClosedForGood(c: Config, s: State) {
    forall ls :: Legal(c, s, ls) ==>
      var s' := Run(c, s, ls);
      !s'.connected && s'.dials == s.dials && s'.onCloses == s.onCloses
  }

  lemma SettledForGood(c: Config, s: State)
    requires Settled(s)
    ensures ClosedForGood(c, s)
  {
    forall ls | Legal(c, s, ls)
      ensures var s' := Run(c, s, ls); !s'.connected && s'.dials == s.dials && s'.onCloses == s.onCloses
    {
      SettledAlong(c, s, ls);
    }
  }

  /** The rest of a redial that is under way, up to the new connection. */
  function Redial(p: Phase): seq<Label>
    requires RedialUnderWay(p)
  {
    if p.LostSeen? then [MarkLost, CloseLost, DialSucceeds]
    else if p.Marked? then [CloseLost, DialSucceeds]
    else [DialSucceeds]
  }

  lemma RedialReconnects(c: Config, s: State)
    requires RedialUnderWay(s.phase)
    ensures Legal(c, s, Redial(s.phase))
    ensures var s' := Run(c, s, Redial(s.phase));
      && s'.connected && !s'.onceUsed && s'.dials == s.dials + 1
      && s'.phase == Renewed && s'.wire == [Greeting] && s'.owed == []
  {
    if s.phase.LostSeen? {
      RunThree(c, s, MarkLost, CloseLost, DialSucceeds);
    } else if s.phase.Marked? {
      RunTwo(c, s, CloseLost, DialSucceeds);
    } else {
      RunOne(c, s, DialSucceeds);
    }
  }

  /** Close is final exactly when no redial is under way: then no later step
      dials, sets `connected` or calls OnClose; otherwise the redial undoes it. */
  lemma CloseIsFinal(c: Config, s: State)
    requires Reachable(c, s)
    ensures ClosedForGood(c, Do(c, s, Close)) <==> !RedialUnderWay(s.phase)
  {
    ReachableAccounted(c, s);
    var s1 := Do(c, s, Close);
    if RedialUnderWay(s.phase) {
      RedialReconnects(c, s1);
    } else {
      SettledForGood(c, s1);
    }
  }

  // ---- OnClose -------------------------------------------------------------

  /** Between the reader's check of `connected` and its reset: a Close that lands
      here calls OnClose, and the redial then undoes it. */
  predicate BetweenCheckAndReset(s: State) {
    s.phase.LostSeen? && s.phase.cause != Closed && s.connected
  }

  /** How many Closes of a run land there. */
  ghost function Undone(c: Config, s: State, ls: seq<Label>): nat
    requires Legal(c, s, ls)
    decreases |ls|
  {
    if ls == [] then 0
    else (if ls[0].Close? && BetweenCheckAndReset(s) then 1 else 0) + Undone(c, Do(c, s, ls[0]), ls[1..])
  }

  /** OnClose was called `n` times by Closes since undone, and at most once more,
      by the Close that settled the connection. */
  ghost predicate OnCloseCounted(s: State, n: nat) {
    s.onCloses == n || (s.onCloses == n + 1 && Settled(s))
  }

  lemma NoCloseNoOnClose(c: Config, s: State, l: Label)
    requires Accounted(s) && Enabled(c, s, l) && !l.Close?
    ensures Do(c, s, l).onCloses == s.onCloses
  {
    if Bystander(l) { BystanderKeeps(c, s, l); }
    else if Moves(l) { MoveKeeps(c, s, l); }
  }

  lemma OnCloseCountedStep(c: Config, s: State, l: Label, n: nat)
    requires Accounted(s) && OnCloseCounted(s, n) && Enabled(c, s, l)
    ensures OnCloseCounted(Do(c, s, l), n + (if l.Close? && BetweenCheckAndReset(s) then 1 else 0))
  {
    if s.onCloses == n + 1 {
      SettledStep(c, s, l);
    } else if !l.Close? {
      NoCloseNoOnClose(c, s, l);
    }
  }

  lemma {:induction false} OnCloseCountedAlong(c: Config, s: State, ls: seq<Label>, n: nat)
    requires Accounted(s) && OnCloseCounted(s, n) && Legal(c, s, ls)
    ensures OnCloseCounted(Run(c, s, ls), n + Undone(c, s, ls))
    decreases |ls|
  {
    if ls != [] {
      AccountedStep(c, s, ls[0]);
      OnCloseCountedStep(c, s, ls[0], n);
      OnCloseCountedAlong(c, Do(c, s, ls[0]), ls[1..],
                          n + (if ls[0].Close? && BetweenCheckAndReset(s) then 1 else 0));
    }
  }

  /** OnClose, counted: over any run it is called once for every Close that lands
      between the reader's check and its reset, and at most once more, after which
      the connection is closed for good. */
  lemma OnCloseCount(c: Config, ls: seq<Label>)
    requires Legal(c, INIT, ls)
    ensures var s, n := Run(c, INIT, ls), Undone(c, INIT, ls);
      s.onCloses == n || (s.onCloses == n + 1 && ClosedForGood(c, s))
  {
    InitAccounted();
    OnCloseCountedAlong(c, INIT, ls, 0);
    if Settled(Run(c, INIT, ls)) {
      SettledForGood(c, Run(c, INIT, ls));
    }
  }

  /** If no Close lands there, OnClose is called at most once over the life of the
      connection, and once it has been, the connection is closed for good. */
  lemma OnCloseAtMostOnce(c: Config, ls: seq<Label>)
    requires Legal(c, INIT, ls) && Undone(c, INIT, ls) == 0
    ensures var s := Run(c, INIT, ls);
      s.onCloses <= 1 && (s.onCloses == 1 ==> ClosedForGood(c, s))
  {
    OnCloseCount(c, ls);
  }

  /** `n` more calls of OnClose, and one redial. */
  ghost predicate ClosedAgain(s: State, s': State, n: nat) {
    s'.onCloses == s.onCloses + n && s'.dials == s.dials + 1
  }

  /** A redial under way makes another OnClose possible. */
  lemma RedialThenClose(c: Config, s: State)
    requires Accounted(s) && RedialUnderWay(s.phase)
    ensures exists ls :: Legal(c, s, ls) && ClosedAgain(s, Run(c, s, ls), 1)
  {
    RedialReconnects(c, s);
    RedialIsSilent(c, s, Redial(s.phase));
    var s' := Run(c, s, Redial(s.phase));
    RunOne(c, s', Close);
    RunAppend(c, s, Redial(s.phase), [Close]);
    assert Run(c, s, Redial(s.phase) + [Close]) == Do(c, s', Close);
  }

  /** After a Close, OnClose can be called again exactly if the Close landed while a
      redial was under way. */
  lemma OnCloseAgain(c: Config, s: State)
    requires Reachable(c, s)
    ensures var s1 := Do(c, s, Close);
      (exists ls :: Legal(c, s1, ls) && Run(c, s1, ls).onCloses > s1.onCloses) <==> RedialUnderWay(s.phase)
  {
    ReachableAccounted(c, s);
    AccountedStep(c, s, Close);
    if RedialUnderWay(s.phase) {
      var s1 := Do(c, s, Close);
      RedialThenClose(c, s1);
      var ls :| Legal(c, s1, ls) && ClosedAgain(s1, Run(c, s1, ls), 1);
      assert Run(c, s1, ls).onCloses > s1.onCloses;
    } else {
      CloseIsFinal(c, s);
    }
  }

  /** Between check and reset two more calls of OnClose are always possible: the
      condition of OnCloseAtMostOnce cannot be relaxed. */
  lemma OnCloseTwiceFrom(c: Config, s: State)
    requires Reachable(c, s) && BetweenCheckAndReset(s)
    ensures exists ls :: Legal(c, s, ls) && ClosedAgain(s, Run(c, s, ls), 2)
  {
    ReachableAccounted(c, s);
    AccountedStep(c, s, Close);
    var s1 := Do(c, s, Close);
    assert s1.onCloses == s.onCloses + 1;
    RedialThenClose(c, s1);
    var ls :| Legal(c, s1, ls) && ClosedAgain(s1, Run(c, s1, ls), 1);
    RunOne(c, s, Close);
    RunAppend(c, s, [Close], ls);
    assert ClosedAgain(s, Run(c, s, [Close] + ls), 2);
  }

  /** A connection lost and redialled automatically, any number of times, never
      calls OnClose. */
  lemma {:induction false} RedialIsSilent(c: Config, s: State, ls: seq<Label>)
    requires Accounted(s) && Legal(c, s, ls)
    requires forall l :: l in ls ==> !l.Close?
    ensures Run(c, s, ls).onCloses == s.onCloses
    decreases |ls|
  {
    if ls != [] {
      assert ls[0] in ls;
      NoCloseNoOnClose(c, s, ls[0]);
      AccountedStep(c, s, ls[0]);
      RedialIsSilent(c, Do(c, s, ls[0]), ls[1..]);
    }
  }

  /** Such a run from the start: a Close between check and reset, undone by the
      redial, and another one. */
  lemma OnCloseTwice(c: Config)
    requires c.autoRedial
    ensures exists ls :: Legal(c, INIT, ls) && Run(c, INIT, ls).onCloses == 2 && Run(c, INIT, ls).dials == 1
  {
    RunTwo(c, INIT, Loop, Lose(TimedOut));
    var up := [Loop, Lose(TimedOut)];
    var s := Run(c, INIT, up);
    OnCloseTwiceFrom(c, s);
    var ls :| Legal(c, s, ls) && ClosedAgain(s, Run(c, s, ls), 2);
    RunAppend(c, INIT, up, ls);
    assert ClosedAgain(INIT, Run(c, INIT, up + ls), 2);
  }

  // ---- the orphaned callback -----------------------------------------------

  /** As above, and the new connection has no callback yet. */
  predicate CallbackPending(p: Phase) {
    RedialUnderWay(p) || p == Renewed || p == PasswordSent || p == Authenticated
  }

  /** The next frame can be a command reply. */
  predicate CommandNext(wire: seq<Frame>, owed: seq<Request>) {
    if wire != [] then wire[0].Reply? && wire[0].request.kind == Command
    else owed != [] && owed[0].kind == Command
  }

  /** A callback is pending and nothing stands in its way: a redial to come, or a
      handshake whose reply can still be a command reply. */
  predicate CanRestart(s: State) {
    || RedialUnderWay(s.phase)
    || (s.phase == Renewed && s.wire != []
        && CommandNext(s.wire[1..], s.owed + [Password(Command, |s.written|)]))
    || (s.phase == PasswordSent && CommandNext(s.wire, s.owed))
    || s.phase == Authenticated
  }

  ghost predicate AllCancelled(s: State) {
    forall i :: 0 <= i < |s.callbacks| ==> s.callbacks[i].cancelled
  }

  ghost predicate Quiescent(s: State) {
    Settled(s) && AllCancelled(s) && !CanRestart(s)
  }

  /** A handshake that cannot go well stays so until it ends. */
  lemma DoomedStep(c: Config, s: State, l: Label)
    requires Accounted(s) && !CanRestart(s) && Enabled(c, s, l) && !RedialUnderWay(Do(c, s, l).phase)
    ensures !CanRestart(Do(c, s, l))
  {
    if l.Write? || l.Answer? || l.Emit? {
      DoomedPeer(c, s, l);
    } else if Bystander(l) {
      BystanderKeeps(c, s, l);
    } else if l.Greet? || l.AuthSucceeds? {
    } else if Moves(l) {
      MoveKeeps(c, s, l);
    }
  }

  lemma DoomedPeer(c: Config, s: State, l: Label)
    requires Accounted(s) && !CanRestart(s) && Enabled(c, s, l) && (l.Write? || l.Answer? || l.Emit?)
    ensures !CanRestart(Do(c, s, l))
  {
    var s' := Do(c, s, l);
    if l.Write? {
      assert s'.wire == s.wire && s'.owed == s.owed + [Request(l.kind, |s.written|)];
    } else if l.Answer? {
      assert s.wire != [] ==> s'.wire[1..] == s.wire[1..] + [Reply(s.owed[0])];
    } else {
      assert s.wire != [] ==> s'.wire[1..] == s.wire[1..] + [l.frame];
    }
  }

  lemma QuiescentStep(c: Config, s: State, l: Label)
    requires Accounted(s) && Quiescent(s) && Enabled(c, s, l)
    ensures Quiescent(Do(c, s, l))
  {
    SettledStep(c, s, l);
    DoomedStep(c, s, l);
    if Bystander(l) { BystanderKeeps(c, s, l); }
    else if Moves(l) { MoveKeeps(c, s, l); }
  }

  lemma {:induction false} QuiescentAlong(c: Config, s: State, ls: seq<Label>)
    requires Accounted(s) && Quiescent(s) && Legal(c, s, ls)
    ensures Quiescent(Run(c, s, ls))
    decreases |ls|
  {
    if ls != [] {
      AccountedStep(c, s, ls[0]);
      QuiescentStep(c, s, ls[0]);
      QuiescentAlong(c, Do(c, s, ls[0]), ls[1..]);
    }
  }

  /** The last callback runs with a context nobody can cancel any more. */
  ghost predicate Orphaned(s: State) {
    && Accounted(s) && Settled(s) && !CallbackPending(s.phase)
    && s.callbacks[|s.callbacks| - 1] == CallbackState(true, false)
  }

  lemma OrphanedStep(c: Config, s: State, l: Label)
    requires Orphaned(s) && Enabled(c, s, l)
    ensures Orphaned(Do(c, s, l)) && Do(c, s, l).phase != Returned
  {
    AccountedStep(c, s, l);
    SettledStep(c, s, l);
    LiveCountZero(s.callbacks);
    if Bystander(l) { BystanderKeeps(c, s, l); LiveCountZero(Do(c, s, l).callbacks); }
    else if Moves(l) { MoveKeeps(c, s, l); }
  }

  /** An orphaned callback keeps HandleEvents from ever returning. */
  lemma {:induction false} OrphanedForever(c: Config, s: State, ls: seq<Label>)
    requires Orphaned(s) && Legal(c, s, ls)
    ensures Orphaned(Run(c, s, ls)) && Run(c, s, ls).phase != Returned
    decreases |ls|
  {
    if ls == [] {
      LiveCountZero(s.callbacks);
    } else {
      OrphanedStep(c, s, ls[0]);
      OrphanedForever(c, Do(c, s, ls[0]), ls[1..]);
    }
  }

  /** With redial enabled it does happen: a Close lands between the new connection
      and its callback. */
  lemma OrphanReachable(c: Config)
    requires c.autoRedial
    ensures exists s :: Reachable(c, s) && Orphaned(s)
  {
    var s := AuthenticatedReachable(c);
    ReachableStep(c, s, Close);
    var s1 := Do(c, s, Close);
    ReachableStep(c, s1, Spawn);
    var s2 := Do(c, s1, Spawn);
    ReachableAccounted(c, s2);
    assert Orphaned(s2);
  }

  lemma RenewedReachable(c: Config) returns (s: State)
    requires c.autoRedial
    ensures Reachable(c, s) && s.phase == Renewed && s.connected && !s.onceUsed && !s.ctxDone
    ensures s.wire == [Greeting] && s.owed == [] && s.written == [] && s.waiting == map[] && s.log == []
    ensures s.command.queue == [] && s.api.queue == [] && s.events.queue == []
    ensures s.authReplies == [] && s.dials == 1 && s.cancelled == 0
  {
    var lost := LostReachable(c);
    ReachableStep(c, lost, MarkLost);
    var marked := Do(c, lost, MarkLost);
    assert marked == INIT.(phase := Marked(TimedOut), connected := false);
    ReachableStep(c, marked, CloseLost);
    var closed := Do(c, marked, CloseLost);
    ReachableStep(c, closed, DialSucceeds);
    s := Do(c, closed, DialSucceeds);
  }

  lemma LostReachable(c: Config) returns (s: State)
    requires c.autoRedial
    ensures Reachable(c, s) && s == INIT.(phase := LostSeen(TimedOut))
  {
    RunTwo(c, INIT, Loop, Lose(TimedOut));
    s := Run(c, INIT, [Loop, Lose(TimedOut)]);
  }

  lemma AuthenticatedReachable(c: Config) returns (s: State)
    requires c.autoRedial
    ensures Reachable(c, s) && s.phase == Authenticated && s.connected && !s.onceUsed
  {
    var renewed := RenewedReachable(c);
    ReachableStep(c, renewed, Greet);
    var s1 := Do(c, renewed, Greet);
    assert s1.wire == [] && s1.owed == [Password(Command, 0)];
    ReachableStep(c, s1, Answer);
    var s2 := Do(c, s1, Answer);
    ReachableStep(c, s2, AuthSucceeds);
    s := Do(c, s2, AuthSucceeds);
  }

  /** No run from `s` leaves a callback that is not cancelled. */
  ghost predicate CallbacksEnd(c: Config, s: State) {
    forall ls :: Legal(c, s, ls) ==> AllCancelled(Run(c, s, ls))
  }

  /** A callback that can be spawned. */
  lemma RestartSpawns(c: Config, s: State) returns (ls: seq<Label>)
    requires Accounted(s) && CanRestart(s)
    ensures Legal(c, s, ls) && !AllCancelled(Run(c, s, ls))
    ensures !RedialUnderWay(s.phase) && Settled(s) ==> Orphaned(Run(c, s, ls))
    decreases RestartRank(s)
  {
    if s.phase == Authenticated {
      ls := [Spawn];
      RunOne(c, s, Spawn);
      AccountedStep(c, s, Spawn);
      var s' := Do(c, s, Spawn);
      assert s'.callbacks[|s'.callbacks| - 1] == CallbackState(true, false);
    } else if RedialUnderWay(s.phase) {
      RedialReconnects(c, s);
      AccountedAlong(c, s, Redial(s.phase));
      var rest := RestartSpawns(c, Run(c, s, Redial(s.phase)));
      RunAppend(c, s, Redial(s.phase), rest);
      ls := Redial(s.phase) + rest;
    } else {
      var l := ShakeOn(c, s);
      AccountedStep(c, s, l);
      var rest := RestartSpawns(c, Do(c, s, l));
      ls := [l] + rest;
      assert ls[0] == l && ls[1..] == rest;
    }
  }

  function RestartRank(s: State): nat {
    match s.phase
    case Authenticated => 0
    case PasswordSent => if s.wire != [] then 1 else 2
    case Renewed => 3
    case _ => 4
  }

  /** The next step of a handshake that can go well. */
  lemma ShakeOn(c: Config, s: State) returns (l: Label)
    requires Accounted(s) && CanRestart(s) && (s.phase == Renewed || s.phase == PasswordSent)
    ensures Enabled(c, s, l) && CanRestart(Do(c, s, l)) && RestartRank(Do(c, s, l)) < RestartRank(s)
    ensures !RedialUnderWay(Do(c, s, l).phase) && (Settled(s) ==> Settled(Do(c, s, l)))
  {
    if s.phase == Renewed {
      l := Greet;
    } else if s.wire == [] {
      l := Answer;
    } else {
      l := AuthSucceeds;
    }
  }

  /** Close ends every callback for good exactly when no callback can be pending (a
      handshake under way may already be bound to fail) and no earlier Close has
      spent the once without reaching the last callback.  Landing between the new
      connection and its callback, it is final for the connection, yet the callback
      then spawned is out of its reach and HandleEvents can no longer return. */
  lemma CloseEndsCallbacks(c: Config, s: State)
    requires Reachable(c, s)
    ensures s.callbacks != []
    ensures CallbacksEnd(c, Do(c, s, Close)) <==>
            !CanRestart(s) && (s.onceUsed ==> s.callbacks[|s.callbacks| - 1].cancelled)
    ensures CanRestart(s) && !RedialUnderWay(s.phase) ==>
            var s1 := Do(c, s, Close);
            exists ls :: Legal(c, s1, ls) && Orphaned(Run(c, s1, ls))
  {
    ReachableAccounted(c, s);
    AccountedStep(c, s, Close);
    CloseKeeps(c, s);
    var s1 := Do(c, s, Close);
    if CanRestart(s) {
      var ls := RestartSpawns(c, s1);
    } else if s.onceUsed && !s.callbacks[|s.callbacks| - 1].cancelled {
      assert Run(c, s1, []) == s1;
    } else {
      CloseQuiesces(c, s);
      forall ls | Legal(c, s1, ls)
        ensures AllCancelled(Run(c, s1, ls))
      {
        QuiescentAlong(c, s1, ls);
      }
    }
  }

  lemma CloseKeeps(c: Config, s: State)
    ensures var s1 := Do(c, s, Close);
      && s1.wire == s.wire && s1.owed == s.owed && s1.written == s.written && s1.phase == s.phase
      && (CanRestart(s1) <==> CanRestart(s)) && (s.onceUsed ==> s1 == s)
  {
  }

  /** A Close that ends the callbacks. */
  lemma CloseQuiesces(c: Config, s: State)
    requires Accounted(s) && !CanRestart(s) && (s.onceUsed ==> s.callbacks[|s.callbacks| - 1].cancelled)
    ensures Accounted(Do(c, s, Close)) && Quiescent(Do(c, s, Close))
  {
    AccountedStep(c, s, Close);
    CloseKeeps(c, s);
    var s1 := Do(c, s, Close);
    assert forall i :: 0 <= i < |s1.callbacks| - 1 ==> s1.callbacks[i].cancelled;
    assert s1.callbacks[|s1.callbacks| - 1].cancelled;
  }
}
