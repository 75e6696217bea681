/** Auth on a renewed connection reads the stream the callers use.  What it takes,
    what that leaves to the callers, and the laws for runs on which no call gets
    ahead of the password. */
module Handshake {
  import opened Machine
  import opened Conservation
  import opened Correlation

  // ---- passwords among requests ----------------------------------------------------

  /** The requests callers wrote, in order. */
  function Calls(rs: seq<Request>): seq<Request> {
    if rs == [] then [] else (if rs[0].Password? then [] else [rs[0]]) + Calls(rs[1..])
  }

  predicate NoPassword(rs: seq<Request>) {
    forall i :: 0 <= i < |rs| ==> !rs[i].Password?
  }

  lemma {:induction false} CallsAppend(a: seq<Request>, b: seq<Request>)
    ensures Calls(a + b) == Calls(a) + Calls(b)
  {
    if a == [] {
      assert a + b == b;
    } else {
      assert (a + b)[1..] == a[1..] + b;
      CallsAppend(a[1..], b);
      var head := if a[0].Password? then [] else [a[0]];
      assert head + (Calls(a[1..]) + Calls(b)) == (head + Calls(a[1..])) + Calls(b);
    }
  }

  lemma {:induction false} CallsAll(rs: seq<Request>)
    requires NoPassword(rs)
    ensures Calls(rs) == rs
  {
    if rs != [] {
      CallsAll(rs[1..]);
    }
  }

  lemma {:induction false} CallsOfKind(k: Kind, rs: seq<Request>)
    ensures Calls(OfKind(k, rs)) == OfKind(k, Calls(rs))
  {
    if rs != [] {
      var head := [rs[0]];
      CallsOfKind(k, rs[1..]);
      CallsAppend(OfKind(k, head), OfKind(k, rs[1..]));
      OfKindAppend(k, Calls(head), Calls(rs[1..]));
      CallsOfOne(k, rs[0]);
      assert OfKind(k, rs) == OfKind(k, head) + OfKind(k, rs[1..]);
      assert Calls(rs) == Calls(head) + Calls(rs[1..]);
    }
  }

  lemma CallsOfOne(k: Kind, r: Request)
    ensures OfKind(k, [r]) == if r.kind == k then [r] else []
    ensures Calls([r]) == if r.Password? then [] else [r]
    ensures Calls(OfKind(k, [r])) == OfKind(k, Calls([r]))
  {
    assert [r][1..] == [];
  }

  // ---- the requests on the current connection ------------------------------------------

  /** What was written to the current connection and not read from it yet, oldest first. */
  function OnConn(s: State): seq<Request> {
    Replies(s.wire) + s.owed
  }

  /** What a step does to it. */
  lemma OnConnStep(c: Config, s: State, l: Label)
    requires Enabled(c, s, l)
    ensures OnConn(Do(c, s, l))
         == if Writes(l) then OnConn(s) + [Written(s, l)]
            else if l.DialSucceeds? then []
            else if (l.Receive? || ByAuth(l)) && s.wire[0].Reply? then OnConn(s)[1..]
            else OnConn(s)
  {
    if !Concerns(l) {
      OthersKeepReplies(c, s, l);
    } else if Writes(l) {
      WriteOnConn(c, s, l);
    } else if l.Answer? || l.Emit? {
      PeerMoves(c, s, l);
    } else if l.Receive? || ByAuth(l) {
      ReadOnConn(c, s, l);
    } else {
      QueueOnConn(c, s, l);
    }
  }

  lemma WriteOnConn(c: Config, s: State, l: Label)
    requires Writes(l) && Enabled(c, s, l)
    ensures OnConn(Do(c, s, l)) == OnConn(s) + [Written(s, l)]
  {
    WriteParts(c, s, l, Command);
    WireOf(c, s, l);
    JoinSnoc(Replies(s.wire), s.owed, [Written(s, l)]);
  }

  lemma ReadOnConn(c: Config, s: State, l: Label)
    requires (l.Receive? || ByAuth(l)) && Enabled(c, s, l)
    ensures OnConn(Do(c, s, l)) == if s.wire[0].Reply? then OnConn(s)[1..] else OnConn(s)
  {
    var s' := Do(c, s, l);
    assert s'.wire == s.wire[1..] && s'.owed == s.owed;
    ReadOff(s.wire, s.owed);
  }

  lemma ReadOff(frames: seq<Frame>, owed: seq<Request>)
    requires frames != []
    ensures Replies(frames[1..]) + owed
         == if frames[0].Reply? then (Replies(frames) + owed)[1..] else Replies(frames) + owed
    ensures frames[0].Reply? ==> (Replies(frames) + owed)[0] == frames[0].request
  {
    FrontOff(frames);
    if frames[0].Reply? {
      HeadOff(frames[0].request, Replies(frames[1..]), owed);
    } else {
      assert [] + Replies(frames[1..]) == Replies(frames[1..]);
    }
  }

  lemma HeadOff<T>(x: T, a: seq<T>, b: seq<T>)
    ensures ([x] + a + b)[1..] == a + b && ([x] + a + b)[0] == x
  {
  }

  lemma QueueOnConn(c: Config, s: State, l: Label)
    requires Enabled(c, s, l) && (l.Take? || l.GiveUp? || l.PushReply? || Forfeits(l))
    ensures OnConn(Do(c, s, l)) == if l.DialSucceeds? then [] else OnConn(s)
  {
    if l.DialSucceeds? {
      assert Replies([Greeting]) == [];
    } else {
      QueueKeepsConn(c, s, l);
    }
  }

  lemma QueueKeepsConn(c: Config, s: State, l: Label)
    requires Enabled(c, s, l) && (l.Take? || l.GiveUp? || l.PushReply? || l.DropReply?)
    ensures Do(c, s, l).wire == s.wire && Do(c, s, l).owed == s.owed
  {
    if l.Take? {
    } else if l.PushReply? {
    }
  }

  lemma WireOf(c: Config, s: State, l: Label)
    requires Writes(l) && Enabled(c, s, l)
    ensures Replies(Do(c, s, l).wire) == Replies(s.wire)
  {
    if l.Greet? {
      FrontOff(s.wire);
      assert [] + Replies(s.wire[1..]) == Replies(s.wire[1..]);
    }
  }

  lemma PeerMoves(c: Config, s: State, l: Label)
    requires (l.Answer? || l.Emit?) && Enabled(c, s, l)
    ensures OnConn(Do(c, s, l)) == OnConn(s)
  {
    if l.Answer? {
      Snoc(Command, [], s.wire, s.owed[0], Reply(s.owed[0]));
      MoveFront(Replies(s.wire), s.owed);
    } else {
      Snoc(Command, [], s.wire, Request(Command, 0), l.frame);
      assert Replies(s.wire) + [] == Replies(s.wire);
    }
  }

  lemma MoveFront(a: seq<Request>, b: seq<Request>)
    requires b != []
    ensures (a + [b[0]]) + b[1..] == a + b
  {
  }

  /** While auth is at work: nothing has been read behind the greeting, and the
      password is behind exactly the calls written ahead of it.  Past it, auth has
      taken one reply for every password. */
  ghost predicate Shaking(s: State) {
    && s.ahead <= s.early
    && (!Finished(s.phase) ==> s.passwords == |s.authReplies| + (if s.phase == PasswordSent then 1 else 0))
    && (s.phase == Renewed ==>
          s.wire != [] && s.wire[0] == Greeting && |OnConn(s)| == s.ahead && NoPassword(OnConn(s)))
    && (s.phase == PasswordSent ==> PasswordAt(OnConn(s), s.ahead))
  }

  /** The password is at `n`, and nowhere else. */
  predicate PasswordAt(rs: seq<Request>, n: nat) {
    n < |rs| && forall i :: 0 <= i < |rs| ==> (rs[i].Password? <==> i == n)
  }

  lemma ShakingStep(c: Config, s: State, l: Label)
    requires Shaking(s) && Enabled(c, s, l)
    ensures Shaking(Do(c, s, l))
  {
    OnConnStep(c, s, l);
    PhaseStep(c, s, l);
    PasswordsStep(c, s, l);
    ClearPhases(c, s, l);
  }

  lemma PasswordsStep(c: Config, s: State, l: Label)
    requires Enabled(c, s, l)
    ensures var s' := Do(c, s, l);
      && s'.passwords == s.passwords + (if l.Greet? then 1 else 0)
      && (Finished(s'.phase) || |s'.authReplies| == |s.authReplies| + (if l.AuthSucceeds? then 1 else 0))
  {
    if !l.Greet? && !ByAuth(l) && !l.DialSucceeds? {
      AuthUntouched(c, s, l);
    }
  }

  lemma AuthUntouched(c: Config, s: State, l: Label)
    requires Enabled(c, s, l) && !l.Greet? && !ByAuth(l) && !l.DialSucceeds?
    ensures Do(c, s, l).authReplies == s.authReplies && Do(c, s, l).passwords == s.passwords
    ensures Do(c, s, l).ahead == s.ahead + (if l.Write? && s.phase == Renewed then 1 else 0)
  {
    if !Concerns(l) {
      OthersKeepReplies(c, s, l);
    } else if l.Take? {
    } else if l.PushReply? || l.DropReply? {
    }
  }

  /** Into the phases of the handshake, and what stays there. */
  lemma PhaseStep(c: Config, s: State, l: Label)
    requires Enabled(c, s, l)
    ensures var s' := Do(c, s, l);
      && (s'.phase == Renewed ==>
            (l.DialSucceeds? && s'.wire == [Greeting] && s'.ahead == 0)
            || (s.phase == Renewed && !l.Greet? && !ByAuth(l) && !l.Receive? && !l.DialSucceeds?
                && s.wire <= s'.wire && s'.ahead == s.ahead + (if l.Write? then 1 else 0)))
      && (s'.phase == PasswordSent ==>
            (l.Greet? || (s.phase == PasswordSent && !l.Greet? && !ByAuth(l) && !l.Receive? && !l.DialSucceeds?))
            && s'.ahead == s.ahead)
      && s'.early - s'.ahead >= s.early - s.ahead
      && s'.early == s.early + (if l.Write? && s.phase == Renewed then 1 else 0)
  {
    if !Concerns(l) {
      OthersKeepReplies(c, s, l);
    } else if l.Take? {
    } else if l.Write? || l.GiveUp? {
    } else if l.Answer? || l.Emit? {
    } else if l.Greet? || ByAuth(l) {
    }
  }

  // ---- no password where callers read --------------------------------------------------

  /** No password is where a call could get its reply, but the one auth waits for:
      no call got ahead of it. */
  ghost predicate Clear(s: State) {
    && NoPassword(s.command.queue) && NoPassword(s.api.queue)
    && (s.phase.HoldingReply? ==> !s.phase.reply.Password?)
    && (s.phase == Renewed || s.phase == PasswordSent ==> s.ahead == 0)
    && (s.phase != PasswordSent && !Finished(s.phase) ==> NoPassword(OnConn(s)))
  }

  lemma ClearStep(c: Config, s: State, l: Label)
    requires Clear(s) && Shaking(s) && Enabled(c, s, l) && !(l.Write? && s.phase == Renewed)
    ensures Clear(Do(c, s, l))
  {
    OnConnStep(c, s, l);
    PhaseStep(c, s, l);
    ClearPhases(c, s, l);
    ClearChannels(c, s, l);
    var s' := Do(c, s, l);
    if s'.phase != PasswordSent && !Finished(s'.phase) {
      ClearConn(c, s, l);
    }
  }

  lemma ClearConn(c: Config, s: State, l: Label)
    requires Clear(s) && Shaking(s) && Enabled(c, s, l)
    requires Do(c, s, l).phase != PasswordSent && !Finished(Do(c, s, l).phase)
    ensures NoPassword(OnConn(Do(c, s, l)))
  {
    ClearPhases(c, s, l);
    if l.AuthSucceeds? {
      ReadOnConn(c, s, l);
      PasswordOff(OnConn(s));
    } else {
      assert NoPassword(OnConn(s)) && !l.Greet? && !l.AuthRefused?;
      ConnKept(c, s, l);
    }
  }

  lemma ConnKept(c: Config, s: State, l: Label)
    requires NoPassword(OnConn(s)) && Enabled(c, s, l) && !l.Greet? && !ByAuth(l)
    ensures NoPassword(OnConn(Do(c, s, l)))
  {
    OnConnStep(c, s, l);
    if l.Write? {
      NoPasswordKept(OnConn(s), Written(s, l));
    } else if l.Receive? && s.wire[0].Reply? {
      ReadOff(s.wire, s.owed);
      NoPasswordKept(OnConn(s), Request(Command, 0));
    }
  }

  lemma PasswordOff(rs: seq<Request>)
    requires PasswordAt(rs, 0)
    ensures NoPassword(rs[1..])
  {
  }

  lemma NoPasswordKept(rs: seq<Request>, r: Request)
    requires NoPassword(rs) && !r.Password?
    ensures NoPassword(rs + [r]) && (rs != [] ==> NoPassword(rs[1..]))
  {
  }

  lemma ClearPhases(c: Config, s: State, l: Label)
    requires Enabled(c, s, l)
    ensures var s' := Do(c, s, l);
      && (Finished(s.phase) ==> Finished(s'.phase))
      && (s.phase == PasswordSent ==> s'.phase == PasswordSent || Finished(s'.phase) || l.AuthSucceeds?)
      && (l.AuthSucceeds? ==> s.phase == PasswordSent && s'.phase == Authenticated)
      && (l.AuthRefused? ==> Finished(s'.phase))
      && (l.Greet? ==> s.phase == Renewed && s'.phase == PasswordSent)
      && (s'.phase == PasswordSent ==> s.phase == PasswordSent || l.Greet?)
      && (Writes(l) && !l.Write? ==> s'.phase == PasswordSent)
  {
    if !Transfers(l) {
      OthersKeepChannels(c, s, l);
    }
  }

  lemma ClearChannels(c: Config, s: State, l: Label)
    requires Clear(s) && Shaking(s) && Enabled(c, s, l)
    ensures var s' := Do(c, s, l);
      && NoPassword(s'.command.queue) && NoPassword(s'.api.queue)
      && (s'.phase.HoldingReply? ==> !s'.phase.reply.Password?)
  {
    if !Transfers(l) {
      OthersKeepChannels(c, s, l);
    } else if l.Receive? {
      ReadOff(s.wire, s.owed);
    } else if l.Take? {
      assert NoPassword(ChannelOf(s, l.channel).queue[1..]);
    } else if l.PushReply? {
      assert NoPassword(ChannelOf(s, s.phase.reply.kind).queue + [s.phase.reply]);
    }
  }

  // ---- all requests are accounted for ------------------------------------------------------

  /** As long as no call got ahead of a password, no password was ever received. */
  ghost predicate Clean(s: State) {
    s.early == 0 ==> Clear(s) && NoPassword(s.command.taken) && NoPassword(s.api.taken)
  }

  /** ... and as long as nothing was lost either, every call is on its way or answered. */
  ghost predicate Lossless(s: State, k: Kind) {
    s.early == 0 && s.forfeited == 0 ==> Calls(Pipeline(s, k)) == Calls(OfKind(k, s.written))
  }

  lemma CleanStep(c: Config, s: State, l: Label)
    requires Clean(s) && Shaking(s) && Enabled(c, s, l)
    ensures Clean(Do(c, s, l))
  {
    PhaseStep(c, s, l);
    if Do(c, s, l).early == 0 {
      ClearStep(c, s, l);
      TakenClean(c, s, l);
    }
  }

  lemma TakenClean(c: Config, s: State, l: Label)
    requires NoPassword(s.command.queue) && NoPassword(s.api.queue) && Enabled(c, s, l)
    requires NoPassword(s.command.taken) && NoPassword(s.api.taken)
    ensures NoPassword(Do(c, s, l).command.taken) && NoPassword(Do(c, s, l).api.taken)
  {
    if !Transfers(l) {
      OthersKeepChannels(c, s, l);
    }
  }

  lemma LosslessStep(c: Config, s: State, l: Label, k: Kind)
    requires Clean(s) && Shaking(s) && Lossless(s, k) && Enabled(c, s, l)
    ensures Lossless(Do(c, s, l), k)
  {
    PhaseStep(c, s, l);
    ForfeitsGrow(c, s, l);
    if Do(c, s, l).early == 0 && Do(c, s, l).forfeited == 0 {
      if Writes(l) { LosslessWrite(c, s, l, k); }
      else if ByAuth(l) { AuthAlone(c, s, l, k); }
      else if l.DialSucceeds? { LosslessDial(c, s, k); }
      else { LosslessOther(c, s, l, k); }
    }
  }

  lemma ForfeitsGrow(c: Config, s: State, l: Label)
    requires Enabled(c, s, l)
    ensures Do(c, s, l).forfeited >= s.forfeited + (if l.DropReply? then 1 else 0)
  {
    if !Concerns(l) {
      OthersKeepReplies(c, s, l);
    }
  }

  lemma LosslessOther(c: Config, s: State, l: Label, k: Kind)
    requires Enabled(c, s, l) && !Writes(l) && !Forfeits(l) && !ByAuth(l)
    ensures Pipeline(Do(c, s, l), k) == Pipeline(s, k) && Do(c, s, l).written == s.written
  {
    PipelineStep(c, s, l, k);
    WrittenKept(c, s, l);
    assert Pipeline(s, k) + [] == Pipeline(s, k);
  }

  lemma AuthAlone(c: Config, s: State, l: Label, k: Kind)
    requires ByAuth(l) && Enabled(c, s, l) && Shaking(s) && s.ahead == 0
    ensures Calls(Pipeline(Do(c, s, l), k)) == Calls(Pipeline(s, k)) && Do(c, s, l).written == s.written
  {
    LosslessAuth(c, s, l, k);
  }

  lemma WrittenKept(c: Config, s: State, l: Label)
    requires Enabled(c, s, l) && !Writes(l) && !Forfeits(l) && !ByAuth(l)
    ensures Do(c, s, l).written == s.written && Do(c, s, l).forfeited == s.forfeited
  {
    if !l.Take? {
      LogKept(c, s, l);
    }
  }

  lemma LosslessWrite(c: Config, s: State, l: Label, k: Kind)
    requires Writes(l) && Enabled(c, s, l) && Calls(Pipeline(s, k)) == Calls(OfKind(k, s.written))
    ensures Calls(Pipeline(Do(c, s, l), k)) == Calls(OfKind(k, Do(c, s, l).written))
  {
    PipelineWrite(c, s, l, k);
    WriteParts(c, s, l, k);
    Snoc(k, s.written, [], Written(s, l), Other);
    CallsAppend(Pipeline(s, k), Next(s, l, k));
    CallsAppend(OfKind(k, s.written), Next(s, l, k));
  }

  /** With no call ahead of it, what auth takes is the password's reply. */
  lemma LosslessAuth(c: Config, s: State, l: Label, k: Kind)
    requires ByAuth(l) && Enabled(c, s, l) && Shaking(s) && s.ahead == 0
    ensures Calls(Pipeline(Do(c, s, l), k)) == Calls(Pipeline(s, k))
  {
    PipelineAuth(c, s, l, k);
    ReadOff(s.wire, s.owed);
    FrontOff(s.wire);
    var ch, rest := ChannelOf(s, k), RepliesOf(k, s.wire[1..]);
    var gone := OfKind(k, Replies(s.wire[..1]));
    assert gone == [] || (|gone| == 1 && gone[0] == OnConn(s)[0]);
    assert Calls(gone) == [];
    CallsWithout(ch.taken + ch.queue, gone, rest, OfKind(k, s.owed));
  }

  lemma CallsWithout(a: seq<Request>, gone: seq<Request>, b: seq<Request>, d: seq<Request>)
    requires Calls(gone) == []
    ensures Calls(a + gone + b + d) == Calls(a + b + d)
  {
    CallsAppend(a, gone);
    CallsAppend(a + gone, b);
    CallsAppend(a, b);
    CallsAppend(a + gone + b, d);
    CallsAppend(a + b, d);
    assert Calls(a) + [] == Calls(a);
  }

  lemma LosslessDial(c: Config, s: State, k: Kind)
    requires Enabled(c, s, DialSucceeds) && Do(c, s, DialSucceeds).forfeited == 0
    ensures Pipeline(Do(c, s, DialSucceeds), k) == Pipeline(s, k) && s.forfeited == 0
  {
    PipelineForfeit(c, s, DialSucceeds, k);
    assert Replies(s.wire) == [] && s.owed == [];
    assert RepliesOf(k, s.wire) == [] && OfKind(k, s.owed) == [];
    assert Kept(s, k) + [] + [] == Kept(s, k);
  }

  ghost predicate Shaken(s: State) {
    Shaking(s) && Clean(s) && Lossless(s, Command) && Lossless(s, Api)
  }

  lemma {:induction false} ShakenAlong(c: Config, s: State, ls: seq<Label>)
    requires Shaken(s) && Legal(c, s, ls)
    ensures Shaken(Run(c, s, ls))
    decreases |ls|
  {
    if ls != [] {
      ShakingStep(c, s, ls[0]);
      CleanStep(c, s, ls[0]);
      LosslessStep(c, s, ls[0], Command);
      LosslessStep(c, s, ls[0], Api);
      ShakenAlong(c, Do(c, s, ls[0]), ls[1..]);
    }
  }

  lemma ReachableShaken(c: Config, s: State)
    requires Reachable(c, s)
    ensures Shaken(s)
  {
    var ls :| Legal(c, INIT, ls) && Run(c, INIT, ls) == s;
    ShakenAlong(c, INIT, ls);
  }

  // ---- order laws ----------------------------------------------------------------------------

  /** Per-kind order law: as long as nothing was forfeited and no call got ahead of a
      password, the j-th reply of a kind that any caller received answers the j-th
      call of that kind written, whoever wrote it, over any number of redials. */
  lemma KindOrderLaw(c: Config, s: State, k: Kind)
    requires Reachable(c, s) && s.forfeited == 0 && s.early == 0
    ensures OfKind(k, LogReplies(s.log)) <= OfKind(k, Calls(s.written))
  {
    ReachableCorrelated(c, s);
    ReachableShaken(c, s);
    var taken := ChannelOf(s, k).taken;
    TakenFirst(s, k);
    CallsAll(taken);
    CallsPrefix(taken, Pipeline(s, k));
    CallsOfKind(k, s.written);
  }

  lemma CallsPrefix(a: seq<Request>, b: seq<Request>)
    requires a <= b
    ensures Calls(a) <= Calls(b)
  {
    assert b == a + b[|a|..];
    CallsAppend(a, b[|a|..]);
  }

  lemma {:induction false} OfKindAll(k: Kind, rs: seq<Request>)
    requires forall r :: r in rs ==> r.kind == k
    ensures OfKind(k, rs) == rs
  {
    if rs != [] {
      OfKindAll(k, rs[1..]);
    }
  }

  lemma {:induction false} CallsIn(rs: seq<Request>, r: Request)
    ensures r in Calls(rs) <==> r in rs && !r.Password?
  {
    if rs != [] {
      CallsIn(rs[1..], r);
      assert rs == [rs[0]] + rs[1..];
    }
  }

  /** When every call is of one kind, the j-th completed call got the reply to the
      j-th call written. */
  lemma OneKindLaw(c: Config, s: State, k: Kind, j: nat)
    requires Reachable(c, s) && s.forfeited == 0 && s.early == 0
    requires forall r :: r in s.written ==> r.Password? || r.kind == k
    requires j < |s.log|
    ensures j < |Calls(s.written)| && s.log[j].1 == Calls(s.written)[j] == Request(k, Calls(s.written)[j].tag)
  {
    var replies := LogReplies(s.log);
    forall r | r in Calls(s.written)
      ensures r.kind == k && !r.Password?
    {
      CallsIn(s.written, r);
    }
    OfKindAll(k, Calls(s.written));
    forall r | r in replies
      ensures r.kind == k
    {
      ReplyOfCall(c, s, r);
    }
    OfKindAll(k, replies);
    KindOrderLaw(c, s, k);
    assert replies[j] == Calls(s.written)[j];
  }

  /** Without a call ahead of a password, every reply received answers a call. */
  lemma ReplyOfCall(c: Config, s: State, r: Request)
    requires Reachable(c, s) && s.early == 0 && r in LogReplies(s.log)
    ensures r in s.written && !r.Password?
  {
    ReachableCorrelated(c, s);
    ReachableShaken(c, s);
    ReplyWritten(c, s, r);
    var replies := LogReplies(s.log);
    var i :| 0 <= i < |replies| && replies[i] == r;
    OfKindIn(r.kind, replies, i);
  }

  // ---- what auth takes -----------------------------------------------------------------------

  /** Exactly: the reply auth takes is the password's if and only if no call was
      written to the connection ahead of it. */
  lemma AuthTakes(c: Config, s: State, l: Label)
    requires Reachable(c, s) && ByAuth(l) && Enabled(c, s, l) && s.wire[0].Reply?
    ensures Do(c, s, l).authReplies == s.authReplies + [s.wire[0].request]
    ensures s.wire[0].request.Password? <==> s.ahead == 0
  {
    ReachableShaken(c, s);
    ReadOff(s.wire, s.owed);
    FrontOff(s.wire);
  }

  /** The reply is on its way to nobody. */
  ghost predicate Gone(s: State, r: Request) {
    r.tag < |s.written| && r !in Pipeline(s, r.kind)
  }

  lemma GoneStep(c: Config, s: State, l: Label, r: Request)
    requires Gone(s, r) && Enabled(c, s, l)
    ensures Gone(Do(c, s, l), r)
  {
    if Writes(l) {
      PipelineWrite(c, s, l, r.kind);
      WriteParts(c, s, l, r.kind);
    } else if ByAuth(l) {
      GoneAuth(c, s, l, r);
    } else if Forfeits(l) {
      GoneForfeit(c, s, l, r);
    } else {
      LosslessOther(c, s, l, r.kind);
    }
  }

  lemma GoneAuth(c: Config, s: State, l: Label, r: Request)
    requires ByAuth(l) && Gone(s, r) && Enabled(c, s, l)
    ensures Gone(Do(c, s, l), r)
  {
    PipelineAuth(c, s, l, r.kind);
    var ch := ChannelOf(s, r.kind);
    NotInParts(ch.taken + ch.queue, OfKind(r.kind, Replies(s.wire[..1])), RepliesOf(r.kind, s.wire[1..]),
               OfKind(r.kind, s.owed), r);
  }

  lemma GoneForfeit(c: Config, s: State, l: Label, r: Request)
    requires Forfeits(l) && Gone(s, r) && Enabled(c, s, l)
    ensures Gone(Do(c, s, l), r)
  {
    PipelineForfeit(c, s, l, r.kind);
    var ch := ChannelOf(s, r.kind);
    NotInParts(ch.taken + ch.queue, Held(s, r.kind), RepliesOf(r.kind, s.wire), OfKind(r.kind, s.owed), r);
  }

  lemma NotInParts(a: seq<Request>, b: seq<Request>, d: seq<Request>, e: seq<Request>, r: Request)
    requires r !in a + b + d + e
    ensures r !in a + d + e && r !in a + b && r !in a + (d + e)
  {
    assert forall x :: x in a || x in b || x in d || x in e ==> x in a + b + d + e;
  }

  lemma {:induction false} GoneAlong(c: Config, s: State, ls: seq<Label>, r: Request)
    requires Gone(s, r) && Legal(c, s, ls)
    ensures Gone(Run(c, s, ls), r)
    decreases |ls|
  {
    if ls != [] {
      GoneStep(c, s, ls[0], r);
      GoneAlong(c, Do(c, s, ls[0]), ls[1..], r);
    }
  }

  lemma AuthRemoves(c: Config, s: State, l: Label)
    requires Reachable(c, s) && ByAuth(l) && Enabled(c, s, l) && s.wire[0].Reply?
    ensures var r := s.wire[0].request;
      Gone(Do(c, s, l), r) && r.tag < |s.written| && s.written[r.tag] == r
  {
    ReachableCorrelated(c, s);
    var r := s.wire[0].request;
    var ch := ChannelOf(s, r.kind);
    FrontOff(s.wire);
    CallsOfOne(r.kind, r);
    PipelineAuth(c, s, l, r.kind);
    OnlyOnceOfFour(ch.taken + ch.queue, r, RepliesOf(r.kind, s.wire[1..]), OfKind(r.kind, s.owed), r.kind, s.written);
    AuthWrites(c, s, l);
  }

  lemma AuthWrites(c: Config, s: State, l: Label)
    requires ByAuth(l) && Enabled(c, s, l)
    ensures Do(c, s, l).written == s.written
  {
  }

  lemma OnlyOnceOfFour(a: seq<Request>, r: Request, b: seq<Request>, d: seq<Request>, k: Kind, w: seq<Request>)
    requires InOrder(a + [r] + b + d, k, w)
    ensures r !in a + b + d && r.tag < |w| && w[r.tag] == r
  {
    JoinSnoc(a + [r], b, d);
    JoinSnoc(a, b, d);
    OnlyOnce(a, r, b + d, k, w);
  }

  lemma OnlyOnce(a: seq<Request>, r: Request, b: seq<Request>, k: Kind, w: seq<Request>)
    requires InOrder(a + [r] + b, k, w)
    ensures r !in a + b && r.tag < |w| && w[r.tag] == r
  {
    var p := a + [r] + b;
    assert p[|a|] == r;
    forall i | 0 <= i < |a + b|
      ensures (a + b)[i] != r
    {
      assert (a + b)[i] == p[if i < |a| then i else i + 1];
    }
  }

  /** A reply auth took reaches no caller on any run: the call it was meant for, if it
      was one, is misled, given up, or waits for ever. */
  lemma NeverAnswered(c: Config, s: State, l: Label, ls: seq<Label>)
    requires Reachable(c, s) && ByAuth(l) && Enabled(c, s, l) && s.wire[0].Reply?
    requires Legal(c, Do(c, s, l), ls)
    ensures s.wire[0].request !in LogReplies(Run(c, Do(c, s, l), ls).log)
  {
    var r := s.wire[0].request;
    var s1 := Do(c, s, l);
    var s' := Run(c, s1, ls);
    AuthRemoves(c, s, l);
    GoneAlong(c, s1, ls, r);
    ReachableCorrelated(c, s);
    CorrelatedStep(c, s, l);
    CorrelatedAlong(c, s1, ls);
    NotLogged(s', r);
  }

  lemma NotLogged(s: State, r: Request)
    requires Correlated(s) && r !in Pipeline(s, r.kind)
    ensures r !in LogReplies(s.log)
  {
    var replies := LogReplies(s.log);
    TakenFirst(s, r.kind);
    assert r !in ChannelOf(s, r.kind).taken;
    if r in replies {
      var i :| 0 <= i < |replies| && replies[i] == r;
      OfKindIn(r.kind, replies, i);
    }
  }

  /** Nor does a reply lost with an old connection: a call that waits for it over the
      redial gets another's, is given up, or waits for ever. */
  lemma LostNeverAnswered(c: Config, s: State, r: Request, ls: seq<Label>)
    requires Reachable(c, s) && s.phase == Redialing && r in OnConn(s)
    requires Legal(c, Do(c, s, DialSucceeds), ls)
    ensures r !in LogReplies(Run(c, Do(c, s, DialSucceeds), ls).log)
  {
    var s1 := Do(c, s, DialSucceeds);
    ReachableCorrelated(c, s);
    PipelineForfeit(c, s, DialSucceeds, r.kind);
    LostOnce(s, r);
    assert Gone(s1, r);
    GoneAlong(c, s1, ls, r);
    CorrelatedStep(c, s, DialSucceeds);
    CorrelatedAlong(c, s1, ls);
    NotLogged(Run(c, s1, ls), r);
  }

  lemma LostOnce(s: State, r: Request)
    requires Correlated(s) && r in OnConn(s)
    ensures r !in Kept(s, r.kind) && r.tag < |s.written|
  {
    var rs := OnConn(s);
    var i :| 0 <= i < |rs| && rs[i] == r;
    OfKindIn(r.kind, rs, i);
    OfKindAppend(r.kind, Replies(s.wire), s.owed);
    JoinSnoc(Kept(s, r.kind), RepliesOf(r.kind, s.wire), OfKind(r.kind, s.owed));
    InTail(Kept(s, r.kind), OfKind(r.kind, rs), r, r.kind, s.written);
  }

  lemma InTail(a: seq<Request>, b: seq<Request>, r: Request, k: Kind, w: seq<Request>)
    requires InOrder(a + b, k, w) && r in b
    ensures r !in a && r.tag < |w|
  {
    var i :| 0 <= i < |b| && b[i] == r;
    assert (a + b)[|a| + i] == r;
    forall j | 0 <= j < |a|
      ensures a[j] != r
    {
      assert (a + b)[j] == a[j];
    }
  }
}
