/** A call written to a renewed connection ahead of the password: what comes of it.
    The socket is open to callers from the moment it is dialled, auth reads the same
    stream, and replies carry no request ids. */
module AheadOfPassword {
  import opened Machine
  import opened Conservation
  import opened Correlation
  import opened Handshake
  import opened SequentialCalls
  import Lifecycle

  // ---- the call is misled ------------------------------------------------------------

  /** One call more than in `s` completed: the one of that tag, with another's reply. */
  ghost predicate MisledOne(s: State, s': State, tag: nat) {
    && |s'.log| == |s.log| + 1 && s.log <= s'.log
    && s'.log[|s.log|].0 == tag && s'.log[|s.log|].1.tag != tag
  }

  predicate NoNewCalls(ls: seq<Label>) {
    forall i :: 0 <= i < |ls| ==> !ls[i].Write? && !ls[i].GiveUp?
  }

  /** Auth accepts the reply to a call for its own.  If that call is still waiting,
      the next reply in misleads it: nobody else has to write or give up. */
  lemma AheadMisleads(c: Config, s: State, x: Caller) returns (ls: seq<Label>)
    requires Reachable(c, s) && Enabled(c, s, AuthSucceeds) && s.ahead > 0
    requires s.connected && !s.ctxDone && c.cap > 0
    requires x in s.waiting && s.waiting[x] == s.wire[0].request.tag
    ensures Legal(c, s, ls) && NoNewCalls(ls) && MisledOne(s, Run(c, s, ls), s.waiting[x])
  {
    var s2 := Accepted(c, s);
    var more := Delivers(c, s2);
    var s3 := Run(c, s2, more);
    var k := if s3.command.queue != [] then Command else Api;
    var start := [AuthSucceeds, Spawn];
    RunTwo(c, s, AuthSucceeds, Spawn);
    RunAppend(c, s, start, more);
    OtherReply(c, s, start + more, k);
    TakeMisleads(c, s, s3, x, k);
    RunOne(c, s3, Take(x, k));
    RunAppend(c, s, start + more, [Take(x, k)]);
    ls := start + more + [Take(x, k)];
    NoneNew(more, Take(x, k));
  }

  lemma NoneNew(more: seq<Label>, last: Label)
    requires AllServe(more) && last.Take?
    ensures NoNewCalls([AuthSucceeds, Spawn] + more + [last])
  {
    var ls := [AuthSucceeds, Spawn] + more + [last];
    forall i | 0 <= i < |ls|
      ensures !ls[i].Write? && !ls[i].GiveUp?
    {
      assert 2 <= i < |ls| - 1 ==> ls[i] == more[i - 2];
    }
  }

  lemma TakeMisleads(c: Config, s: State, s3: State, x: Caller, k: Kind)
    requires x in s.waiting && s3.waiting == s.waiting && s3.log == s.log
    requires ChannelOf(s3, k).queue != [] && ChannelOf(s3, k).queue[0].tag != s.waiting[x]
    ensures Enabled(c, s3, Take(x, k)) && MisledOne(s, Do(c, s3, Take(x, k)), s.waiting[x])
  {
    assert Do(c, s3, Take(x, k)).log == s.log + [(s.waiting[x], ChannelOf(s3, k).queue[0])];
  }

  /** Past auth, with a new callback and the password's reply still to come. */
  lemma Accepted(c: Config, s: State) returns (s2: State)
    requires Reachable(c, s) && Enabled(c, s, AuthSucceeds) && s.ahead > 0 && s.connected && !s.ctxDone
    ensures Enabled(c, Do(c, s, AuthSucceeds), Spawn) && s2 == Do(c, Do(c, s, AuthSucceeds), Spawn)
    ensures Reachable(c, s2) && AtWork(s2) && Free(s2) && Outstanding(s2) > 0
    ensures s2.waiting == s.waiting && s2.log == s.log && s2.written == s.written
  {
    ReachableAttended(c, s);
    ReachableShaken(c, s);
    var s1 := Do(c, s, AuthSucceeds);
    ReachableStep(c, s, AuthSucceeds);
    ReachableStep(c, s1, Spawn);
    s2 := Do(c, s1, Spawn);
    OnConnStep(c, s, AuthSucceeds);
    OnConnStep(c, s1, Spawn);
    assert |OnConn(s2)| > 0;
    assert |OnConn(s2)| == |Replies(s2.wire)| + |s2.owed|;
  }

  /** Whatever is queued behind auth's step is not the reply auth took. */
  lemma OtherReply(c: Config, s: State, ls: seq<Label>, k: Kind)
    requires Reachable(c, s) && Enabled(c, s, AuthSucceeds)
    requires ls != [] && ls[0] == AuthSucceeds && Legal(c, s, ls) && ChannelOf(Run(c, s, ls), k).queue != []
    requires Run(c, s, ls).written == s.written
    ensures ChannelOf(Run(c, s, ls), k).queue[0].tag != s.wire[0].request.tag
  {
    var r := s.wire[0].request;
    var s' := Run(c, s, ls);
    AuthRemoves(c, s, AuthSucceeds);
    GoneAlong(c, Do(c, s, AuthSucceeds), ls[1..], r);
    ReachableCorrelated(c, s);
    CorrelatedAlong(c, s, ls);
    QueuedIsWritten(s', k);
  }

  lemma QueuedIsWritten(s: State, k: Kind)
    requires Correlated(s) && ChannelOf(s, k).queue != []
    ensures var q := ChannelOf(s, k).queue[0];
      q in Pipeline(s, k) && q.kind == k && q.tag < |s.written| && s.written[q.tag] == q
  {
    assert Pipeline(s, k)[|ChannelOf(s, k).taken|] == ChannelOf(s, k).queue[0];
  }

  // ---- the redial is aborted ------------------------------------------------------------

  /** An api call first: auth can only fail, on every run, and the reader is done; no
      callback, no further redial. */
  lemma ApiAheadAborts(c: Config, s: State, ls: seq<Label>)
    requires Reachable(c, s) && s.phase == PasswordSent
    requires OnConn(s) != [] && OnConn(s)[0].kind == Api
    requires Legal(c, s, ls)
    ensures var s' := Run(c, s, ls);
      && (s'.phase == PasswordSent || Finished(s'.phase))
      && s'.dials == s.dials && |s'.callbacks| == |s.callbacks|
  {
    ReachableShaken(c, s);
    ReplyFirst(s);
    AbortsAlong(c, s, ls);
  }

  lemma ReplyFirst(s: State)
    requires s.phase == PasswordSent && OnConn(s) != [] && OnConn(s)[0].kind == Api
    ensures BoundToFail(s)
  {
    if s.wire != [] && s.wire[0].Reply? {
      ReadOff(s.wire, s.owed);
    } else if s.wire == [] {
      assert OnConn(s) == s.owed;
    }
  }

  /** No command reply is next on the wire. */
  ghost predicate BoundToFail(s: State) {
    Finished(s.phase)
    || (s.phase == PasswordSent && (s.wire != [] || s.owed != []) && !Lifecycle.CommandNext(s.wire, s.owed))
  }

  lemma FailStep(c: Config, s: State, l: Label)
    requires BoundToFail(s) && Enabled(c, s, l)
    ensures var s' := Do(c, s, l);
      BoundToFail(s') && s'.dials == s.dials && |s'.callbacks| == |s.callbacks|
  {
    if Finished(s.phase) {
      FinishedStep(c, s, l);
    } else if l.Write? || l.Answer? || l.Emit? {
      Lifecycle.BystanderKeeps(c, s, l);
    } else if Lifecycle.Bystander(l) {
      Lifecycle.BystanderKeeps(c, s, l);
    } else if l.AuthFails? || l.AuthRefused? {
      Lifecycle.MoveKeeps(c, s, l);
    } else {
      assert l.Exit? || l.Close?;
    }
  }

  lemma FinishedStep(c: Config, s: State, l: Label)
    requires Finished(s.phase) && Enabled(c, s, l)
    ensures var s' := Do(c, s, l);
      Finished(s'.phase) && s'.dials == s.dials && |s'.callbacks| == |s.callbacks|
  {
    if Lifecycle.Bystander(l) {
      Lifecycle.BystanderKeeps(c, s, l);
    } else if Lifecycle.Moves(l) {
      Lifecycle.MoveKeeps(c, s, l);
      assert l.Return?;
    } else {
      assert l.Depart? || l.Exit? || l.Close?;
    }
  }

  lemma {:induction false} AbortsAlong(c: Config, s: State, ls: seq<Label>)
    requires BoundToFail(s) && Legal(c, s, ls)
    ensures var s' := Run(c, s, ls);
      BoundToFail(s') && s'.dials == s.dials && |s'.callbacks| == |s.callbacks|
    decreases |ls|
  {
    if ls != [] {
      FailStep(c, s, ls[0]);
      AbortsAlong(c, Do(c, s, ls[0]), ls[1..]);
    }
  }

  // ---- exactly when -----------------------------------------------------------------------

  /** Since `s`, a call was misled, or auth took the reply to a call for its own (and
      failed on it, or left the password's reply to the callers). */
  ghost predicate Harmed(s: State, s': State) {
    || (exists n :: |s.log| <= n < |s'.log| && s'.log[n].1.tag != s'.log[n].0)
    || (|s.authReplies| < |s'.authReplies| && !s'.authReplies[|s.authReplies|].Password?)
  }

  /** As long as it is the connection of `s`: how many calls got ahead, and what auth took. */
  ghost predicate SameConnection(s: State, s': State) {
    && s'.dials >= s.dials && s'.early >= s.early
    && (s'.dials == s.dials ==>
          && s'.early - s.early == s'.ahead
          && (s'.phase == Renewed || s'.phase == PasswordSent ==> s'.authReplies == s.authReplies)
          && (s'.authReplies == s.authReplies
              || exists r :: s'.authReplies == s.authReplies + [r] && (r.Password? <==> s'.ahead == 0)))
  }

  lemma SameConnectionStep(c: Config, s: State, s1: State, l: Label)
    requires Reachable(c, s1) && SameConnection(s, s1) && Enabled(c, s1, l)
    ensures SameConnection(s, Do(c, s1, l))
  {
    var s' := Do(c, s1, l);
    PhaseStep(c, s1, l);
    CountsStep(c, s1, l);
    if ByAuth(l) && s1.wire[0].Reply? {
      AuthTakes(c, s1, l);
      assert s1.dials == s.dials ==> s'.authReplies == s.authReplies + [s1.wire[0].request];
    } else if ByAuth(l) {
      FrontOff(s1.wire);
      assert s'.authReplies == s1.authReplies + [];
    }
  }

  lemma CountsStep(c: Config, s: State, l: Label)
    requires Enabled(c, s, l)
    ensures var s' := Do(c, s, l);
      && s'.dials == s.dials + (if l.DialSucceeds? then 1 else 0)
      && (!l.DialSucceeds? ==> s'.ahead == s.ahead + (if l.Write? && s.phase == Renewed then 1 else 0))
      && (!ByAuth(l) ==> s'.authReplies == s.authReplies)
      && (s'.phase == Renewed || s'.phase == PasswordSent ==> !ByAuth(l))
      && (!l.DialSucceeds? && (s'.phase == Renewed || s'.phase == PasswordSent) ==>
            s.phase == Renewed || s.phase == PasswordSent)
      && (ByAuth(l) ==> s.phase == PasswordSent)
  {
    if Lifecycle.Bystander(l) {
      Lifecycle.BystanderKeeps(c, s, l);
      AuthUntouched(c, s, l);
    } else if l.Greet? || ByAuth(l) || l.DialSucceeds? {
    } else {
      AuthUntouched(c, s, l);
      ElsePhase(c, s, l);
    }
  }

  lemma ElsePhase(c: Config, s: State, l: Label)
    requires Enabled(c, s, l) && !Lifecycle.Bystander(l) && !l.Greet? && !ByAuth(l) && !l.DialSucceeds?
    ensures var s' := Do(c, s, l);
      && s'.dials == s.dials
      && (s'.phase == Renewed || s'.phase == PasswordSent ==> s.phase == s'.phase)
  {
    if Lifecycle.Moves(l) {
      Lifecycle.MoveKeeps(c, s, l);
    } else if l.MarkLost? || l.CloseLost? {
    } else if l.Spawn? || l.Depart? {
    }
  }

  lemma {:induction false} SameConnectionAlong(c: Config, s: State, s1: State, ls: seq<Label>)
    requires Reachable(c, s1) && SameConnection(s, s1) && Legal(c, s1, ls)
    ensures SameConnection(s, Run(c, s1, ls))
    decreases |ls|
  {
    if ls != [] {
      SameConnectionStep(c, s, s1, ls[0]);
      ReachableStep(c, s1, ls[0]);
      SameConnectionAlong(c, s, Do(c, s1, ls[0]), ls[1..]);
    }
  }

  /** A one-at-a-time run on which no call got ahead is sequential. */
  lemma {:induction false} NoneAhead(c: Config, s: State, ls: seq<Label>)
    requires Legal(c, s, ls) && OneAtATime(c, s, ls)
    ensures Run(c, s, ls).early >= s.early
    ensures Run(c, s, ls).early == s.early ==> Sequential(c, s, ls)
    decreases |ls|
  {
    if ls != [] {
      PhaseStep(c, s, ls[0]);
      NoneAhead(c, Do(c, s, ls[0]), ls[1..]);
    }
  }

  /** The window of a redial, exactly.  From a renewed connection with no call waiting
      and no reply to come, on every run with one call at a time that ends on that
      connection with auth having taken a reply: a call was misled, or auth took a
      call's reply, if and only if a call was written ahead of the password. */
  lemma WindowExact(c: Config, s: State, ls: seq<Label>)
    requires Reachable(c, s) && s.phase == Renewed && Idle(s)
    requires Legal(c, s, ls) && OneAtATime(c, s, ls)
    requires Run(c, s, ls).dials == s.dials && |Run(c, s, ls).authReplies| > |s.authReplies|
    ensures Harmed(s, Run(c, s, ls)) <==> Run(c, s, ls).early > s.early
  {
    NoneAhead(c, s, ls);
    TookOne(c, s, ls);
    if Run(c, s, ls).early == s.early {
      NoneMisled(c, s, ls);
    }
  }

  lemma NoneMisled(c: Config, s: State, ls: seq<Label>)
    requires Reachable(c, s) && Idle(s) && Legal(c, s, ls) && Sequential(c, s, ls)
    ensures var s' := Run(c, s, ls);
      forall n :: |s.log| <= n < |s'.log| ==> s'.log[n].1.tag == s'.log[n].0
  {
    QuietAnswers(c, s);
  }

  lemma TookOne(c: Config, s: State, ls: seq<Label>)
    requires Reachable(c, s) && s.phase == Renewed && Idle(s) && Legal(c, s, ls)
    requires Run(c, s, ls).dials == s.dials && |Run(c, s, ls).authReplies| > |s.authReplies|
    ensures var s' := Run(c, s, ls);
      s'.authReplies[|s.authReplies|].Password? <==> s'.early == s.early
  {
    var s' := Run(c, s, ls);
    ReachableShaken(c, s);
    assert |OnConn(s)| == |Replies(s.wire)| + |s.owed| == s.ahead;
    SameConnectionAlong(c, s, s, ls);
    var r :| s'.authReplies == s.authReplies + [r] && (r.Password? <==> s'.ahead == 0);
  }

  // ---- runs for each outcome -----------------------------------------------------------

  /** A command call ahead of the password: auth accepts its reply, and the call gets
      the reply to the password. */
  lemma MisledReachable(c: Config)
    requires c.autoRedial && c.cap > 0
    ensures exists s :: Reachable(c, s) && s.dials == 1 && s.cancelled == 0 && s.log == [(0, Password(Command, 1))]
  {
    var s := AheadAccepted(c);
    s := DeliveredTo(c, s);
    s := Along(c, s, Take(User(0), Command));
    assert s.log == [(0, Password(Command, 1))];
  }

  lemma AheadAccepted(c: Config) returns (s: State)
    requires c.autoRedial
    ensures Reachable(c, s) && s.phase == Top && s.connected && !s.ctxDone && s.dials == 1 && s.cancelled == 0
    ensures s.wire == [Reply(Password(Command, 1))] && s.command.queue == [] && s.waiting == map[User(0) := 0]
    ensures s.log == []
  {
    var answered := AheadAnswered(c, Command);
    var s1 := Along(c, answered, AuthSucceeds);
    assert s1.wire == [] && s1.owed == [Password(Command, 1)];
    var s2 := Along(c, s1, Spawn);
    s := Along(c, s2, Answer);
  }

  lemma DeliveredTo(c: Config, s: State) returns (s': State)
    requires Reachable(c, s) && s.phase == Top && s.connected && !s.ctxDone && c.cap > 0
    requires s.wire == [Reply(Password(Command, 1))] && s.command.queue == [] && s.waiting == map[User(0) := 0]
    ensures Reachable(c, s') && s'.command.queue == [Password(Command, 1)] && s'.waiting == s.waiting
    ensures s'.log == s.log && s'.dials == s.dials && s'.cancelled == s.cancelled
  {
    s' := Along(c, s, Loop);
    s' := Along(c, s', Receive);
    s' := Along(c, s', PushReply);
  }

  /** The same with an api call, or with an error for a reply: auth fails, HandleEvents is
      about to return. */
  lemma AbortReachable(c: Config, k: Kind)
    requires c.autoRedial
    ensures exists s :: Reachable(c, s) && s.dials == 1 && s.phase == Leaving && s.connected
                        && s.authReplies == [Request(k, 0)]
  {
    var s := AheadAnswered(c, k);
    FrontOff(s.wire);
    s := Along(c, s, AuthRefused);
  }

  /** A call ahead of the password, answered first. */
  lemma AheadAnswered(c: Config, k: Kind) returns (s: State)
    requires c.autoRedial
    ensures Reachable(c, s) && s.phase == PasswordSent && s.connected && !s.ctxDone && s.dials == 1 && s.cancelled == 0
    ensures s.wire == [Reply(Request(k, 0))] && s.owed == [Password(Command, 1)] && s.waiting == map[User(0) := 0]
    ensures s.log == [] && s.authReplies == [] && s.command.queue == [] && s.api.queue == []
  {
    var renewed := Lifecycle.RenewedReachable(c);
    var s1 := Along(c, renewed, Write(User(0), k));
    assert s1.owed == [Request(k, 0)] && s1.wire == [Greeting];
    var s2 := Along(c, s1, Answer);
    assert s2.wire == [Greeting, Reply(Request(k, 0))] && s2.owed == [];
    s := Along(c, s2, Greet);
  }

  // ---- a call that waits over a redial -----------------------------------------------------

  /** A call whose reply was lost with the old connection, still waiting on the new one,
      takes the reply to a later call of another caller. */
  lemma WaiterMisled(c: Config)
    requires c.autoRedial && c.cap > 0
    ensures exists s :: Reachable(c, s) && s.dials == 1 && s.early == 0 && s.cancelled == 0
                        && s.log == [(0, Request(Command, 2))]
  {
    var s := WaitingRenewed(c);
    s := Along(c, s, Write(User(1), Command));
    s := Along(c, s, Answer);
    s := Along(c, s, Loop);
    s := Along(c, s, Receive);
    s := Along(c, s, PushReply);
    s := Along(c, s, Take(User(0), Command));
    assert s.log == [(0, Request(Command, 2))];
  }

  lemma WaitingRenewed(c: Config) returns (s: State)
    requires c.autoRedial
    ensures Reachable(c, s) && s.phase == Top && s.connected && !s.ctxDone && s.dials == 1
    ensures s.early == 0 && s.cancelled == 0 && s.log == [] && |s.written| == 2 && s.wire == [] && s.owed == []
    ensures s.waiting == map[User(0) := 0] && s.command.queue == [] && s.api.queue == []
  {
    var s2 := WaitingSent(c);
    var s3 := Along(c, s2, Answer);
    assert s3.wire == [Reply(Password(Command, 1))] && s3.owed == [];
    var s4 := Along(c, s3, AuthSucceeds);
    assert s4.wire == [] && s4.owed == [] && s4.phase == Authenticated && s4.waiting == s2.waiting;
    s := Along(c, s4, Spawn);
  }

  lemma WaitingSent(c: Config) returns (s: State)
    requires c.autoRedial
    ensures Reachable(c, s) && s.phase == PasswordSent && s.connected && !s.ctxDone && s.dials == 1
    ensures s.early == 0 && s.cancelled == 0 && s.log == [] && |s.written| == 2
    ensures s.wire == [] && s.owed == [Password(Command, 1)]
    ensures s.waiting == map[User(0) := 0] && s.command.queue == [] && s.api.queue == []
  {
    var lost := WaitingLost(c);
    var s1 := Along(c, lost, DialSucceeds);
    assert s1.wire == [Greeting] && s1.owed == [];
    s := Along(c, s1, Greet);
  }

  lemma WaitingLost(c: Config) returns (s: State)
    requires c.autoRedial
    ensures Reachable(c, s) && s.phase == Redialing && !s.ctxDone && s.dials == 0
    ensures s.early == 0 && s.cancelled == 0 && s.log == [] && |s.written| == 1
    ensures s.waiting == map[User(0) := 0] && s.command.queue == [] && s.api.queue == []
  {
    var lost := Lifecycle.LostReachable(c);
    var s1 := Along(c, lost, Write(User(0), Command));
    assert s1.waiting == map[User(0) := 0];
    var s2 := Along(c, s1, MarkLost);
    s := Along(c, s2, CloseLost);
  }
}
