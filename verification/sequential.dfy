/** Calls made one after the other: when each gets the reply to its own request,
    from any state a connection can be in, redials and given-up calls behind it. */
module SequentialCalls {
  import opened Machine
  import opened Conservation
  import opened Correlation
  import opened Handshake
  import Lifecycle

  /** Every call starts when no other is under way, and none is given up.  Anything
      else may happen: lost connections, redials, dropped replies, Close. */
  ghost predicate OneAtATime(c: Config, s: State, ls: seq<Label>)
    requires Legal(c, s, ls)
    decreases |ls|
  {
    ls != [] ==>
      && (ls[0].Write? ==> s.waiting == map[])
      && !ls[0].GiveUp?
      && OneAtATime(c, Do(c, s, ls[0]), ls[1..])
  }

  /** ... and none is written to a renewed connection ahead of the password. */
  ghost predicate Sequential(c: Config, s: State, ls: seq<Label>)
    requires Legal(c, s, ls)
    decreases |ls|
  {
    ls != [] ==>
      && (ls[0].Write? ==> s.waiting == map[] && s.phase != Renewed)
      && !ls[0].GiveUp?
      && Sequential(c, Do(c, s, ls[0]), ls[1..])
  }

  // ---- what is still to come ----------------------------------------------------

  /** What of one kind was written and is still to come, oldest first. */
  ghost function Coming(s: State, k: Kind): seq<Request> {
    ChannelOf(s, k).queue + Held(s, k) + RepliesOf(k, s.wire) + OfKind(k, s.owed)
  }

  lemma PipelineIs(s: State, k: Kind)
    ensures Pipeline(s, k) == ChannelOf(s, k).taken + Coming(s, k)
  {
    var ch := ChannelOf(s, k);
    Regroup(ch.taken, ch.queue, Held(s, k), RepliesOf(k, s.wire), OfKind(k, s.owed));
  }

  lemma Regroup<T>(a: seq<T>, b: seq<T>, d: seq<T>, e: seq<T>, f: seq<T>)
    ensures a + b + d + e + f == a + (b + d + e + f)
  {
  }

  lemma NothingComing(s: State, k: Kind)
    requires Outstanding(s) == 0
    ensures Coming(s, k) == []
  {
    assert Replies(s.wire) == [];
  }

  /** Every reply of `coming` is a password's or answers `last`. */
  ghost predicate Only(coming: seq<Request>, last: Request) {
    forall r :: r in coming ==> r.Password? || r == last
  }

  ghost predicate OnlyPasswords(coming: seq<Request>) {
    forall r :: r in coming ==> r.Password?
  }

  /** A write adds its request behind what is coming. */
  lemma ComingWrite(c: Config, s: State, l: Label, k: Kind)
    requires Writes(l) && Enabled(c, s, l)
    ensures Coming(Do(c, s, l), k) == Coming(s, k) + Next(s, l, k)
  {
    var s' := Do(c, s, l);
    PipelineWrite(c, s, l, k);
    WriteParts(c, s, l, k);
    PipelineIs(s, k);
    PipelineIs(s', k);
    JoinSnoc(ChannelOf(s, k).taken, Coming(s, k), Next(s, l, k));
    CancelFront(ChannelOf(s, k).taken, Coming(s', k), Coming(s, k) + Next(s, l, k));
  }

  lemma CancelFront<T>(a: seq<T>, b: seq<T>, d: seq<T>)
    requires a + b == a + d
    ensures b == d
  {
    assert b == (a + b)[|a|..] && d == (a + d)[|a|..];
  }

  /** No other step adds anything. */
  lemma ComingShrinks(c: Config, s: State, l: Label, k: Kind)
    requires !Writes(l) && Enabled(c, s, l)
    ensures forall r :: r in Coming(Do(c, s, l), k) ==> r in Coming(s, k)
  {
    if ByAuth(l) { AuthShrinks(c, s, l, k); }
    else if Forfeits(l) { ForfeitShrinks(c, s, l, k); }
    else if l.Take? { TakeShrinks(c, s, l, k); }
    else { ComingKept(c, s, l, k); }
  }

  lemma ComingKept(c: Config, s: State, l: Label, k: Kind)
    requires !Writes(l) && !ByAuth(l) && !Forfeits(l) && !l.Take? && Enabled(c, s, l)
    ensures Coming(Do(c, s, l), k) == Coming(s, k)
  {
    var s' := Do(c, s, l);
    PipelineIs(s, k);
    PipelineIs(s', k);
    PipelineStep(c, s, l, k);
    LogKept(c, s, l);
    assert Pipeline(s, k) + [] == Pipeline(s, k);
    CancelFront(ChannelOf(s, k).taken, Coming(s', k), Coming(s, k));
  }

  lemma AuthShrinks(c: Config, s: State, l: Label, k: Kind)
    requires ByAuth(l) && Enabled(c, s, l)
    ensures forall r :: r in Coming(Do(c, s, l), k) ==> r in Coming(s, k)
  {
    var s' := Do(c, s, l);
    var ch := ChannelOf(s, k);
    PipelineIs(s, k);
    PipelineIs(s', k);
    PipelineAuth(c, s, l, k);
    ShrinkAuth(ch.taken, ch.queue, OfKind(k, Replies(s.wire[..1])), RepliesOf(k, s.wire[1..]), OfKind(k, s.owed),
               Coming(s, k), Coming(s', k));
  }

  lemma ShrinkAuth(taken: seq<Request>, queue: seq<Request>, gone: seq<Request>, rest: seq<Request>,
                   owed: seq<Request>, coming: seq<Request>, coming': seq<Request>)
    requires taken + coming == taken + queue + gone + rest + owed
    requires taken + coming' == taken + queue + rest + owed
    ensures forall r :: r in coming' ==> r in coming
  {
    Regroup(taken, queue, gone, rest, owed);
    Regroup(taken, queue, [], rest, owed);
    assert taken + queue + [] == taken + queue && queue + [] == queue;
    CancelFront(taken, coming, queue + gone + rest + owed);
    CancelFront(taken, coming', queue + rest + owed);
  }

  lemma ForfeitShrinks(c: Config, s: State, l: Label, k: Kind)
    requires Forfeits(l) && Enabled(c, s, l)
    ensures forall r :: r in Coming(Do(c, s, l), k) ==> r in Coming(s, k)
  {
    var s' := Do(c, s, l);
    assert ChannelOf(s', k) == ChannelOf(s, k);
    if l.DialSucceeds? {
      assert Replies([Greeting]) == [];
      assert Held(s', k) == [] && RepliesOf(k, s'.wire) == [] && OfKind(k, s'.owed) == [];
    } else {
      assert Held(s', k) == [] && s'.wire == s.wire && s'.owed == s.owed;
    }
  }

  lemma TakeShrinks(c: Config, s: State, l: Label, k: Kind)
    requires l.Take? && Enabled(c, s, l)
    ensures var ch := ChannelOf(s, k);
      Coming(s, k) == (if k == l.channel then [ch.queue[0]] else []) + Coming(Do(c, s, l), k)
  {
    var s' := Do(c, s, l);
    var ch := ChannelOf(s, k);
    assert Held(s', k) == Held(s, k) && s'.wire == s.wire && s'.owed == s.owed;
    if k == l.channel {
      HeadOfFour(ch.queue, Held(s, k), RepliesOf(k, s.wire), OfKind(k, s.owed));
    } else {
      assert ChannelOf(s', k) == ch;
      assert [] + Coming(s, k) == Coming(s, k);
    }
  }

  lemma HeadOfFour<T>(a: seq<T>, b: seq<T>, d: seq<T>, e: seq<T>)
    requires a != []
    ensures a + b + d + e == [a[0]] + (a[1..] + b + d + e)
  {
  }

  // ---- the invariant --------------------------------------------------------------

  /** The last call written. */
  ghost function LastCall(s: State): Request
    requires Calls(s.written) != []
  {
    Calls(s.written)[|Calls(s.written)| - 1]
  }

  /** No reply to a call is still to come but that of the call under way. */
  ghost predicate Expected(s: State, k: Kind) {
    if s.waiting == map[] then OnlyPasswords(Coming(s, k))
    else Calls(s.written) != [] && Only(Coming(s, k), LastCall(s))
  }

  /** From `start` on, where no call was waiting: the calls completed are those
      written, in order, each with its own reply; the call under way, if any, is
      the last one written, and no more than its reply is still to come. */
  ghost predicate InStep(start: State, s: State) {
    && Clear(s)
    && |s.waiting| <= 1 && |start.log| <= |s.log|
    && |Calls(s.written)| - |Calls(start.written)| == |s.log| - |start.log| + |s.waiting|
    && (forall x :: x in s.waiting ==> Calls(s.written) != [] && s.waiting[x] == LastCall(s).tag)
    && OwnReplies(|start.log|, |Calls(start.written)|, s.log, Calls(s.written))
    && Expected(s, Command) && Expected(s, Api)
  }

  /** The n-th call completed since there were `done` got the reply to the n-th
      call written since there were `before`. */
  ghost predicate OwnReplies(done: nat, before: nat, log: seq<(nat, Request)>, calls: seq<Request>) {
    forall n :: done <= n < |log| ==> IsOwn(log[n], before + n - done, calls)
  }

  /** The m-th call, completed with the reply to it. */
  ghost predicate IsOwn(call: (nat, Request), m: int, calls: seq<Request>) {
    0 <= m < |calls| && call == (calls[m].tag, calls[m])
  }

  lemma OwnRepliesSnoc(done: nat, before: nat, log: seq<(nat, Request)>, calls: seq<Request>)
    requires calls != [] && done <= |log| && before + |log| - done == |calls| - 1
    requires OwnReplies(done, before, log, calls)
    ensures var last := calls[|calls| - 1]; OwnReplies(done, before, log + [(last.tag, last)], calls)
  {
    var last := calls[|calls| - 1];
    var all := log + [(last.tag, last)];
    forall n | done <= n < |all|
      ensures IsOwn(all[n], before + n - done, calls)
    {
      assert n < |log| ==> all[n] == log[n];
    }
  }

  lemma OwnRepliesMore(done: nat, before: nat, log: seq<(nat, Request)>, calls: seq<Request>, more: seq<Request>)
    requires OwnReplies(done, before, log, calls)
    ensures OwnReplies(done, before, log, calls + more)
  {
    forall n | done <= n < |log|
      ensures IsOwn(log[n], before + n - done, calls + more)
    {
      assert IsOwn(log[n], before + n - done, calls);
    }
  }

  /** No call is waiting and no reply to a call is still to come. */
  ghost predicate Idle(s: State) {
    && s.waiting == map[]
    && Outstanding(s) == (if s.phase == PasswordSent then 1 else 0)
  }

  lemma IdleStart(s: State)
    requires Shaking(s) && Idle(s)
    ensures InStep(s, s)
  {
    if s.phase == PasswordSent {
      assert |OnConn(s)| == 1 && OnConn(s)[0].Password?;
      IdlePassword(s, Command);
      IdlePassword(s, Api);
    } else {
      assert Replies(s.wire) == [] && s.owed == [];
      NothingComing(s, Command);
      NothingComing(s, Api);
    }
  }

  lemma IdlePassword(s: State, k: Kind)
    requires s.phase == PasswordSent && Outstanding(s) == 1 && |OnConn(s)| == 1 && OnConn(s)[0].Password?
    ensures OnlyPasswords(Coming(s, k))
  {
    assert ChannelOf(s, k).queue == [];
    assert forall r :: r in Replies(s.wire) || r in s.owed ==> r in OnConn(s);
    forall r | r in Coming(s, k)
      ensures r.Password?
    {
      OfKindFrom(k, Replies(s.wire), r);
      OfKindFrom(k, s.owed, r);
    }
  }

  lemma {:induction false} OfKindFrom(k: Kind, rs: seq<Request>, r: Request)
    ensures r in OfKind(k, rs) ==> r in rs
  {
    if rs != [] {
      OfKindFrom(k, rs[1..], r);
    }
  }

  lemma WriteInStep(c: Config, start: State, s: State, l: Label)
    requires InStep(start, s) && Enabled(c, s, l) && Clear(Do(c, s, l))
    requires Writes(l) && (l.Write? ==> s.waiting == map[])
    ensures InStep(start, Do(c, s, l))
  {
    WriteParts(c, s, l, Command);
    ExpectedWrite(c, s, l, Command);
    ExpectedWrite(c, s, l, Api);
    WriteWaits(c, s, l);
    if l.Write? {
      CallInStep(start, s, Do(c, s, l), l.caller, Written(s, l));
    } else {
      CallsSnoc(s.written, Written(s, l));
      StillInStep(start, s, Do(c, s, l));
    }
  }

  /** Nothing the callers see has changed. */
  lemma StillInStep(start: State, s: State, s': State)
    requires InStep(start, s) && Clear(s') && Expected(s', Command) && Expected(s', Api)
    requires s'.waiting == s.waiting && s'.log == s.log && Calls(s'.written) == Calls(s.written)
    ensures InStep(start, s')
  {
  }

  lemma CallInStep(start: State, s: State, s': State, caller: Caller, r: Request)
    requires InStep(start, s) && s.waiting == map[] && Clear(s') && !r.Password?
    requires s'.written == s.written + [r] && s'.log == s.log && s'.waiting == map[caller := r.tag]
    requires Expected(s', Command) && Expected(s', Api)
    ensures InStep(start, s')
  {
    CallsSnoc(s.written, r);
    OwnRepliesMore(|start.log|, |Calls(start.written)|, s.log, Calls(s.written), Calls([r]));
    assert LastCall(s') == r;
  }

  lemma WriteWaits(c: Config, s: State, l: Label)
    requires Writes(l) && Enabled(c, s, l)
    ensures Do(c, s, l).waiting == if l.Write? then s.waiting[l.caller := |s.written|] else s.waiting
    ensures Do(c, s, l).log == s.log
  {
  }

  lemma CallsSnoc(rs: seq<Request>, r: Request)
    ensures Calls(rs + [r]) == Calls(rs) + Calls([r])
    ensures Calls([r]) == if r.Password? then [] else [r]
    ensures r.Password? ==> Calls(rs + [r]) == Calls(rs)
  {
    CallsAppend(rs, [r]);
    CallsOfOne(Command, r);
  }

  lemma ExpectedWrite(c: Config, s: State, l: Label, k: Kind)
    requires Writes(l) && Enabled(c, s, l) && Expected(s, k) && (l.Write? ==> s.waiting == map[])
    ensures Expected(Do(c, s, l), k)
  {
    WriteParts(c, s, l, k);
    WriteWaits(c, s, l);
    ComingWrite(c, s, l, k);
    CallsSnoc(s.written, Written(s, l));
  }

  lemma TakeInStep(c: Config, start: State, s: State, l: Label)
    requires Correlated(s) && InStep(start, s) && Enabled(c, s, l) && l.Take? && Clear(Do(c, s, l))
    ensures InStep(start, Do(c, s, l))
  {
    TakesLast(c, start, s, l);
    TakeMoves(c, s, l);
    TakenExpected(c, s, l, Command);
    TakenExpected(c, s, l, Api);
    TakenInStep(start, s, Do(c, s, l), l.taker);
  }

  lemma TakenInStep(start: State, s: State, s': State, taker: Caller)
    requires InStep(start, s) && taker in s.waiting && Clear(s') && s'.written == s.written
    requires s'.log == s.log + [(s.waiting[taker], LastCall(s))]
    requires s'.waiting == s.waiting - {taker} && |s'.waiting| == |s.waiting| - 1
    requires OnlyPasswords(Coming(s', Command)) && OnlyPasswords(Coming(s', Api))
    ensures InStep(start, s')
  {
    assert s'.waiting == map[];
    OwnRepliesSnoc(|start.log|, |Calls(start.written)|, s.log, Calls(s.written));
  }

  /** The reply taken answers the call under way. */
  lemma TakesLast(c: Config, start: State, s: State, l: Label)
    requires InStep(start, s) && Enabled(c, s, l) && l.Take?
    ensures ChannelOf(s, l.channel).queue[0] == LastCall(s)
  {
    var r := ChannelOf(s, l.channel).queue[0];
    TakeShrinks(c, s, l, l.channel);
    assert r in Coming(s, l.channel) && !r.Password?;
  }

  lemma TakenExpected(c: Config, s: State, l: Label, k: Kind)
    requires Correlated(s) && l.Take? && Enabled(c, s, l) && Expected(s, k)
    requires Calls(s.written) != [] && ChannelOf(s, l.channel).queue[0] == LastCall(s)
    ensures OnlyPasswords(Coming(Do(c, s, l), k))
  {
    TakenGone(c, s, l, k);
  }

  lemma TakeMoves(c: Config, s: State, l: Label)
    requires l.Take? && Enabled(c, s, l)
    ensures var s' := Do(c, s, l);
      && s'.log == s.log + [(s.waiting[l.taker], ChannelOf(s, l.channel).queue[0])]
      && s'.waiting == s.waiting - {l.taker} && |s'.waiting| == |s.waiting| - 1
      && s'.written == s.written
  {
    RemoveOne(s.waiting, l.taker);
  }

  /** A reply taken is in no pipeline a second time. */
  lemma TakenGone(c: Config, s: State, l: Label, k: Kind)
    requires Correlated(s) && l.Take? && Enabled(c, s, l)
    ensures var r := ChannelOf(s, l.channel).queue[0];
      forall q :: q in Coming(Do(c, s, l), k) ==> q in Coming(s, k) && q != r
  {
    var ch := ChannelOf(s, k);
    var r := ChannelOf(s, l.channel).queue[0];
    TakeShrinks(c, s, l, k);
    PipelineIs(s, k);
    if k == l.channel {
      DistinctHead(ch.taken, r, Coming(Do(c, s, l), k), k, s.written);
    } else {
      PipelineIs(s, l.channel);
      TakeShrinks(c, s, l, l.channel);
      assert r.kind == l.channel by {
        assert Pipeline(s, l.channel)[|ChannelOf(s, l.channel).taken|] == r;
      }
      KindsIn(ch.taken, Coming(s, k), k, s.written);
    }
  }

  lemma DistinctHead(a: seq<Request>, r: Request, b: seq<Request>, k: Kind, w: seq<Request>)
    requires InOrder(a + ([r] + b), k, w)
    ensures r !in b
  {
    var p := a + ([r] + b);
    assert p[|a|] == r;
    assert forall i :: 0 <= i < |b| ==> p[|a| + 1 + i] == b[i];
  }

  lemma KindsIn(a: seq<Request>, b: seq<Request>, k: Kind, w: seq<Request>)
    requires InOrder(a + b, k, w)
    ensures forall q :: q in b ==> q.kind == k
  {
    assert forall i :: 0 <= i < |b| ==> (a + b)[|a| + i] == b[i];
  }

  lemma CallsKept(c: Config, s: State, l: Label)
    requires Enabled(c, s, l) && !l.Take? && !Writes(l) && !l.GiveUp?
    ensures var s' := Do(c, s, l); s'.waiting == s.waiting && s'.log == s.log && s'.written == s.written
  {
    if !Concerns(l) {
      OthersKeepReplies(c, s, l);
    } else if l.PushReply? {
      assert Do(c, s, l).waiting == s.waiting;
    }
  }

  lemma OtherInStep(c: Config, start: State, s: State, l: Label)
    requires InStep(start, s) && Enabled(c, s, l) && !l.Take? && !Writes(l) && !l.GiveUp? && Clear(Do(c, s, l))
    ensures InStep(start, Do(c, s, l))
  {
    CallsKept(c, s, l);
    ExpectedKept(c, s, l, Command);
    ExpectedKept(c, s, l, Api);
    StillInStep(start, s, Do(c, s, l));
  }

  lemma ExpectedKept(c: Config, s: State, l: Label, k: Kind)
    requires Expected(s, k) && Enabled(c, s, l) && !l.Take? && !Writes(l) && !l.GiveUp?
    ensures Expected(Do(c, s, l), k)
  {
    CallsKept(c, s, l);
    ComingShrinks(c, s, l, k);
  }

  lemma InStepStep(c: Config, start: State, s: State, l: Label)
    requires Correlated(s) && Shaking(s) && InStep(start, s) && Enabled(c, s, l)
    requires (l.Write? ==> s.waiting == map[] && s.phase != Renewed) && !l.GiveUp?
    ensures InStep(start, Do(c, s, l))
  {
    ClearStep(c, s, l);
    if Writes(l) { WriteInStep(c, start, s, l); }
    else if l.Take? { TakeInStep(c, start, s, l); }
    else { OtherInStep(c, start, s, l); }
  }

  lemma {:induction false} InStepAlong(c: Config, start: State, s: State, ls: seq<Label>)
    requires Correlated(s) && Shaking(s) && InStep(start, s) && Legal(c, s, ls) && Sequential(c, s, ls)
    ensures InStep(start, Run(c, s, ls))
    decreases |ls|
  {
    if ls != [] {
      CorrelatedStep(c, s, ls[0]);
      ShakingStep(c, s, ls[0]);
      InStepStep(c, start, s, ls[0]);
      InStepAlong(c, start, Do(c, s, ls[0]), ls[1..]);
    }
  }

  // ---- the laws -------------------------------------------------------------------

  /** Reply correlation: from any state with no call waiting and no reply to a call
      still to come, whatever redials and given-up calls led there, the n-th
      SendBytes returns the reply to the n-th call, of either kind, over every
      further redial and Close, as long as none is written to a renewed connection
      ahead of its password; and no reply to a call is anywhere between the peer's
      inbox and the channels while no call is under way. */
  lemma SequentialCorrelation(c: Config, s: State, ls: seq<Label>)
    requires Reachable(c, s) && Idle(s)
    requires Legal(c, s, ls) && Sequential(c, s, ls)
    ensures var s' := Run(c, s, ls);
      && OwnReplies(|s.log|, |Calls(s.written)|, s'.log, Calls(s'.written))
      && |s'.log| <= |s.log| + (|Calls(s'.written)| - |Calls(s.written)|)
      && (s'.waiting == map[] ==> OnlyPasswords(Coming(s', Command)) && OnlyPasswords(Coming(s', Api)))
  {
    ReachableCorrelated(c, s);
    ReachableShaken(c, s);
    IdleStart(s);
    InStepAlong(c, s, s, ls);
  }

  /** Every call completed on a sequential run from `s` gets the reply to its own request. */
  ghost predicate AnsweredInStep(c: Config, s: State) {
    forall ls :: Legal(c, s, ls) && Sequential(c, s, ls) ==>
      var s' := Run(c, s, ls);
      forall n :: |s.log| <= n < |s'.log| ==> s'.log[n].1.tag == s'.log[n].0
  }

  lemma QuietAnswers(c: Config, s: State)
    requires Reachable(c, s) && Idle(s)
    ensures AnsweredInStep(c, s)
  {
    forall ls | Legal(c, s, ls) && Sequential(c, s, ls)
      ensures var s' := Run(c, s, ls);
        forall n :: |s.log| <= n < |s'.log| ==> s'.log[n].1.tag == s'.log[n].0
    {
      SequentialCorrelation(c, s, ls);
      OwnTags(|s.log|, |Calls(s.written)|, Run(c, s, ls).log, Calls(Run(c, s, ls).written));
    }
  }

  lemma OwnTags(from: nat, base: nat, log: seq<(nat, Request)>, calls: seq<Request>)
    requires OwnReplies(from, base, log, calls)
    ensures forall n :: from <= n < |log| ==> log[n].1.tag == log[n].0
  {
    assert forall n :: from <= n < |log| ==> IsOwn(log[n], base + n - from, calls);
  }

  /** A reply left in a channel answers the next call. */
  lemma LeftoverMisleads(c: Config, s: State, k: Kind)
    requires Reachable(c, s) && s.waiting == map[] && ChannelOf(s, k).queue != [] && s.phase != Renewed
    ensures !AnsweredInStep(c, s)
    ensures exists ls :: Legal(c, s, ls) && Sequential(c, s, ls) && Stale(s, Run(c, s, ls), k)
  {
    var w, t := Write(User(0), k), Take(User(0), k);
    var s1 := Do(c, s, w);
    RunTwo(c, s, w, t);
    FrontIsOld(c, s, k);
    assert Do(c, s1, t).log == s.log + [(|s.written|, ChannelOf(s, k).queue[0])];
    assert [w, t][1..] == [t] && [t][1..] == [];
    assert Sequential(c, s1, [t]);
    assert Sequential(c, s, [w, t]);
    assert Stale(s, Run(c, s, [w, t]), k);
  }

  lemma FrontIsOld(c: Config, s: State, k: Kind)
    requires Reachable(c, s) && ChannelOf(s, k).queue != []
    ensures ChannelOf(s, k).queue[0].tag < |s.written| && ChannelOf(s, k).queue[0].kind == k
  {
    ReachableCorrelated(c, s);
    assert Pipeline(s, k)[|ChannelOf(s, k).taken|] == ChannelOf(s, k).queue[0];
  }

  /** One call more than in `s`, and it got the reply to a request of `s`. */
  ghost predicate Stale(s: State, s': State, k: Kind) {
    && |s'.log| == |s.log| + 1
    && s'.log[|s.log|].0 == |s.written|
    && s'.log[|s.log|].1.tag < |s.written| && s'.log[|s.log|].1.kind == k
  }

  /** After a redial, exactly: with no call waiting, the calls written behind the
      password get their own replies if and only if the old connection left no reply
      in a channel. */
  lemma RedialAnswers(c: Config, s: State)
    requires Reachable(c, s) && s.phase == Redialing && s.waiting == map[]
    ensures AnsweredInStep(c, Do(c, s, DialSucceeds)) <==> s.command.queue == [] && s.api.queue == []
  {
    var s' := Do(c, s, DialSucceeds);
    ReachableStep(c, s, DialSucceeds);
    if s.command.queue != [] || s.api.queue != [] {
      var s1 := Do(c, s', Greet);
      ReachableStep(c, s', Greet);
      LeftoverMisleads(c, s1, if s.command.queue != [] then Command else Api);
      if AnsweredInStep(c, s') {
        AnswersFurther(c, s', Greet);
      }
    } else {
      assert Replies([Greeting]) == [];
      QuietAnswers(c, s');
    }
  }

  // ---- after a call was given up ---------------------------------------------------

  /** The reader is at work on a connection. */
  predicate Reading(p: Phase) {
    p == Top || p == Receiving || p.HoldingReply? || p.HoldingEvent?
  }

  /** Nothing has stopped the reader. */
  ghost predicate AtWork(s: State) {
    Reading(s.phase) && s.connected && !s.ctxDone
  }

  /** A connected reader has a callback at its side. */
  ghost predicate Attended(s: State) {
    s.connected && Reading(s.phase) ==>
      s.callbacks != [] && s.callbacks[|s.callbacks| - 1] == CallbackState(true, false)
  }

  /** The callbacks among the callers have been spawned. */
  ghost predicate Known(s: State) {
    forall i: nat :: Callback(i) in s.waiting ==> i < |s.callbacks|
  }

  lemma KnownStep(c: Config, s: State, l: Label)
    requires Known(s) && Enabled(c, s, l)
    ensures Known(Do(c, s, l))
  {
    var s' := Do(c, s, l);
    if l.Write? {
      assert s'.callbacks == s.callbacks;
    } else {
      WaitingShrinks(c, s, l);
    }
  }

  lemma WaitingShrinks(c: Config, s: State, l: Label)
    requires Enabled(c, s, l) && !l.Write?
    ensures forall x :: x in Do(c, s, l).waiting ==> x in s.waiting
    ensures |Do(c, s, l).callbacks| >= |s.callbacks|
  {
    if !Concerns(l) {
      OthersKeepReplies(c, s, l);
    }
  }

  lemma AttendedStep(c: Config, s: State, l: Label)
    requires Attended(s) && Enabled(c, s, l)
    ensures Attended(Do(c, s, l))
  {
    if Lifecycle.Bystander(l) { Lifecycle.BystanderKeeps(c, s, l); }
    else if Lifecycle.Moves(l) { Lifecycle.MoveKeeps(c, s, l); MovesBack(c, s, l); }
  }

  lemma MovesBack(c: Config, s: State, l: Label)
    requires Enabled(c, s, l) && Lifecycle.Moves(l)
    ensures Reading(Do(c, s, l).phase) ==> Reading(s.phase)
  {
  }

  lemma {:induction false} AttendedAlong(c: Config, s: State, ls: seq<Label>)
    requires Attended(s) && Known(s) && Legal(c, s, ls)
    ensures Attended(Run(c, s, ls)) && Known(Run(c, s, ls))
    decreases |ls|
  {
    if ls != [] {
      AttendedStep(c, s, ls[0]);
      KnownStep(c, s, ls[0]);
      AttendedAlong(c, Do(c, s, ls[0]), ls[1..]);
    }
  }

  lemma ReachableAttended(c: Config, s: State)
    requires Reachable(c, s)
    ensures Attended(s) && Known(s)
  {
    var ls :| Legal(c, INIT, ls) && Run(c, INIT, ls) == s;
    AttendedAlong(c, INIT, ls);
  }

  /** The steps of the reader, the peer and a callback that bring replies in. */
  predicate Serves(l: Label) {
    l.Loop? || l.Receive? || l.PushReply? || l.PushEvent? || l.Handle? || l.Answer?
  }

  predicate AllServe(ls: seq<Label>) {
    forall i :: 0 <= i < |ls| ==> Serves(ls[i])
  }

  /** AnsweredInStep holds further along a run on which nothing is written by a
      caller, taken or given up. */
  lemma AnswersFurther(c: Config, s: State, l: Label)
    requires AnsweredInStep(c, s) && Enabled(c, s, l) && (Serves(l) || l.Greet?)
    ensures AnsweredInStep(c, Do(c, s, l))
  {
    var s1 := Do(c, s, l);
    assert s1.log == s.log;
    forall ls | Legal(c, s1, ls) && Sequential(c, s1, ls)
      ensures var s' := Run(c, s1, ls);
        forall n :: |s1.log| <= n < |s'.log| ==> s'.log[n].1.tag == s'.log[n].0
    {
      var all := [l] + ls;
      assert all[0] == l && all[1..] == ls;
      assert Legal(c, s, all) && Sequential(c, s, all) && Run(c, s, all) == Run(c, s1, ls);
    }
  }

  lemma {:induction false} AnswersAlong(c: Config, s: State, ls: seq<Label>)
    requires AnsweredInStep(c, s) && Legal(c, s, ls) && AllServe(ls)
    ensures AnsweredInStep(c, Run(c, s, ls))
    decreases |ls|
  {
    if ls != [] {
      AnswersFurther(c, s, ls[0]);
      AnswersAlong(c, Do(c, s, ls[0]), ls[1..]);
    }
  }

  /** How far the reader is from the next reply. */
  ghost function Distance(c: Config, s: State): nat {
    8 * |s.owed| + 4 * |s.wire|
    + (match s.phase
       case Top => 1
       case HoldingEvent(_) => if |s.events.queue| < c.cap then 2 else 3
       case _ => 0)
  }

  /** The next step of a working reader towards a reply, with the peer and the
      callback at its service. */
  ghost function NextStep(c: Config, s: State): Label {
    match s.phase
    case Top => Loop
    case HoldingReply(_) => PushReply
    case HoldingEvent(_) => if |s.events.queue| < c.cap then PushEvent else Handle(MaxIndex(s))
    case _ => if s.wire == [] then Answer else Receive
  }

  function MaxIndex(s: State): nat {
    if s.callbacks == [] then 0 else |s.callbacks| - 1
  }

  /** The callback at the reader's side is not inside SendBytes. */
  ghost predicate Free(s: State) {
    Callback(MaxIndex(s)) !in s.waiting
  }

  lemma Advances(c: Config, s: State)
    requires AtWork(s) && Attended(s) && Free(s) && c.cap > 0 && |s.events.queue| <= c.cap
    requires Outstanding(s) > 0 && s.command.queue == [] && s.api.queue == []
    ensures var l := NextStep(c, s);
      && Enabled(c, s, l) && Serves(l)
      && var s' := Do(c, s, l);
      && AtWork(s') && s'.waiting == s.waiting && s'.log == s.log && s'.written == s.written
      && s'.cancelled == s.cancelled && s'.forfeited == s.forfeited && |s'.callbacks| == |s.callbacks|
      && (s.phase.HoldingReply? ==> s'.command.queue != [] || s'.api.queue != [])
      && (!s.phase.HoldingReply? ==> Distance(c, s') < Distance(c, s))
  {
  }

  ghost predicate Delivered(s: State, s': State) {
    && (s'.command.queue != [] || s'.api.queue != [])
    && AtWork(s') && s'.waiting == s.waiting && s'.log == s.log && s'.written == s.written
  }

  /** A reply still to come to a working reader ends up in a channel, whoever waits. */
  lemma Delivers(c: Config, s: State) returns (ls: seq<Label>)
    requires Reachable(c, s) && AtWork(s) && Free(s) && c.cap > 0 && Outstanding(s) > 0
    ensures Legal(c, s, ls) && AllServe(ls) && Reachable(c, Run(c, s, ls)) && Delivered(s, Run(c, s, ls))
    decreases Distance(c, s)
  {
    if s.command.queue != [] || s.api.queue != [] {
      ls := [];
    } else {
      ReachableAttended(c, s);
      DemultiplexerConserves(c, s);
      Advances(c, s);
      var l := NextStep(c, s);
      ReachableStep(c, s, l);
      var s1 := Do(c, s, l);
      if s.phase.HoldingReply? {
        RunOne(c, s, l);
        ls := [l];
      } else {
        SkewLaw(c, s);
        SkewLaw(c, s1);
        AuthKept(c, s, l);
        var rest := Delivers(c, s1);
        ls := [l] + rest;
        assert ls[0] == l && ls[1..] == rest;
      }
    }
  }

  lemma AuthKept(c: Config, s: State, l: Label)
    requires Serves(l) && Enabled(c, s, l)
    ensures Do(c, s, l).authReplies == s.authReplies && Do(c, s, l).passwords == s.passwords
  {
    if !Concerns(l) {
      OthersKeepReplies(c, s, l);
    }
  }

  /** With no call waiting it misleads the next one. */
  lemma LateReplyMisleads(c: Config, s: State)
    requires Reachable(c, s) && AtWork(s) && c.cap > 0 && s.waiting == map[] && Outstanding(s) > 0
    ensures !AnsweredInStep(c, s)
  {
    var ls := Delivers(c, s);
    var s' := Run(c, s, ls);
    LeftoverMisleads(c, s', if s'.command.queue != [] then Command else Api);
    if AnsweredInStep(c, s) {
      AnswersAlong(c, s, ls);
    }
  }

  /** With the reader at work and no call waiting, exactly: the calls to come get
      their own replies if and only if every reply a given-up call left behind was
      lost with an old connection or taken by auth in place of another; as long as
      nothing was lost, if and only if no call was ever given up. */
  lemma GivenUpAnswers(c: Config, s: State)
    requires Reachable(c, s) && AtWork(s) && c.cap > 0 && s.waiting == map[]
    ensures AnsweredInStep(c, s) <==> Outstanding(s) == 0
    ensures AnsweredInStep(c, s) <==> s.cancelled == s.forfeited
    ensures s.forfeited == 0 ==> (AnsweredInStep(c, s) <==> s.cancelled == 0)
  {
    SkewLaw(c, s);
    ReachableShaken(c, s);
    if Outstanding(s) == 0 {
      QuietAnswers(c, s);
    } else {
      LateReplyMisleads(c, s);
    }
  }

  // ---- a run that goes wrong ---------------------------------------------------------

  /** A call given up while its reply is on the way, then a redial: the reply waits
      in the channel for the new connection. */
  lemma LeftoverReachable(c: Config) returns (s: State)
    requires c.autoRedial && c.cap > 0
    ensures Reachable(c, s) && s.phase == Redialing && s.waiting == map[]
    ensures s.command.queue == [Request(Command, 0)] && s.written == [Request(Command, 0)]
    ensures s.log == [] && s.dials == 0 && s.early == 0
  {
    s := AfterReply(c);
    s := Along(c, s, Loop);
    s := Along(c, s, Lose(TimedOut));
    s := Along(c, s, MarkLost);
    s := Along(c, s, CloseLost);
  }

  /** A reply queued for a call that was given up. */
  lemma AfterReply(c: Config) returns (s: State)
    requires c.cap > 0
    ensures Reachable(c, s) && s.phase == Top && s.waiting == map[] && s.connected && !s.ctxDone
    ensures s.command.queue == [Request(Command, 0)] && s.written == [Request(Command, 0)]
    ensures s.log == [] && s.dials == 0 && s.early == 0
  {
    s := AnsweredFirst(c);
    s := Along(c, s, Loop);
    s := Along(c, s, Receive);
    s := Along(c, s, PushReply);
    s := Along(c, s, GiveUp(User(0)));
  }

  lemma AnsweredFirst(c: Config) returns (s: State)
    ensures Reachable(c, s)
    ensures s == INIT.(wire := [Reply(Request(Command, 0))],
                       waiting := map[User(0) := 0], written := [Request(Command, 0)])
  {
    assert Legal(c, INIT, []) && Run(c, INIT, []) == INIT;
    s := Along(c, INIT, Write(User(0), Command));
    s := Along(c, s, Answer);
  }

  lemma Along(c: Config, s: State, l: Label) returns (s': State)
    requires Reachable(c, s) && Enabled(c, s, l)
    ensures Reachable(c, s') && s' == Do(c, s, l)
  {
    ReachableStep(c, s, l);
    s' := Do(c, s, l);
  }

  /** A run on which the only call completed was written on the second connection,
      behind its password, and got the reply to a request of the first. */
  lemma StaleAfterRedial(c: Config)
    requires c.autoRedial && c.cap > 0
    ensures exists s :: Reachable(c, s) && s.dials == 1 && s.early == 0 && s.log == [(2, Request(Command, 0))]
  {
    var s := LeftoverRenewed(c);
    s := Along(c, s, Write(User(0), Command));
    s := Along(c, s, Take(User(0), Command));
    assert s.log == [(2, Request(Command, 0))];
  }

  lemma LeftoverRenewed(c: Config) returns (s: State)
    requires c.autoRedial && c.cap > 0
    ensures Reachable(c, s) && s.phase == PasswordSent && s.waiting == map[] && |s.written| == 2
    ensures s.command.queue == [Request(Command, 0)] && s.log == [] && s.dials == 1 && s.early == 0
  {
    var lost := LeftoverReachable(c);
    var dialled := Along(c, lost, DialSucceeds);
    assert dialled.command == lost.command && dialled.written == lost.written && dialled.log == [];
    s := Along(c, dialled, Greet);
  }
}
