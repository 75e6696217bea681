/** The objects are the step machine run by one goroutine: Close, reset and the
    receive loop are its steps. */
module Refinement {
  import Events
  import F = Frames
  import opened Machine
  import opened Conservation
  import opened Redial
  import opened Connections
  import H = Handling

  // ---- Close and reset -------------------------------------------------------------

  function LifeOf(s: State): Life {
    Life(s.connected, s.onceUsed, s.callbacks, s.srWg, s.onCloses, s.dials)
  }

  /** The method Close is the machine's Close step. */
  lemma CloseRefines(c: Config, s: State)
    ensures LifeOf(Do(c, s, Close)) == CloseLife(LifeOf(s))
  {
  }

  /** The machine's steps for one undisturbed reset after a lost read, the peer's
      answer to the password included. */
  function ResetLabels(result: ResetResult): seq<Label> {
    [CloseLost] + if result == GaveUp || result == ResetPending then [] else RedialLabels(result)
  }

  function RedialLabels(result: ResetResult): seq<Label> {
    if result == ResetDialFailed then [DialFails]
    else [DialSucceeds] + AuthLabels(AuthOf(result)) + (if result == ResetOk then [Spawn] else [])
  }

  function AuthLabels(result: AuthResult): seq<Label> {
    match result
    case Accepted => [Greet, Answer, AuthSucceeds]
    case RefusedBy(_) => [Greet, Answer, AuthRefused]
    case BadReplyType => [Greet, Emit(Other), AuthRefused]
    case ReplyLost => [Greet, AuthFails]
    case _ => [AuthFails]
  }

  function ResetPhase(result: ResetResult): Phase {
    match result
    case ResetPending => Redialing
    case ResetOk => Top
    case _ => Leaving
  }

  /** The method Reset is those steps run without interference. */
  lemma ResetRefines(c: Config, s: State, result: ResetResult)
    requires s.phase.Marked? && (result == GaveUp <==> s.phase.cause == Closed)
    requires result.ResetAuth? ==> result.auth != Accepted
    ensures Legal(c, s, ResetLabels(result))
    ensures LifeOf(Run(c, s, ResetLabels(result))) == ResetLife(LifeOf(s), Lost(s.phase.cause), result)
    ensures Run(c, s, ResetLabels(result)).phase == ResetPhase(result)
  {
    CloseLostRefines(c, s);
    RunOne(c, s, CloseLost);
    if result == GaveUp || result == ResetPending {
      assert ResetLabels(result) == [CloseLost];
    } else {
      RedialRefines(c, Do(c, s, CloseLost), result);
      RunAppend(c, s, [CloseLost], RedialLabels(result));
    }
  }

  /** The reader's reset after a lost read is a run of the machine from where its reader
      stands, and it gives up on a closed socket alone: a read that timed out and a peer
      that hung up are redialled. */
  method ResetLost(conn: Connection, network: seq<DialOutcome>, ghost k: nat, cause: Cause, ghost c: Config,
                   ghost s: State)
    returns (r: ResetResult)
    requires s.phase == Marked(cause) && LifeOf(s) == conn.View()
    requires conn.strategy.redoWaited == Stored(k)
    requires conn.maxRetries >= 0 ==> |network| > conn.maxRetries
    modifies conn, conn.strategy
    ensures r == GaveUp <==> cause == Closed
    ensures cause == TimedOut || cause == HungUp ==> network == [] || conn.attempts > old(conn.attempts)
    ensures cause == Closed ==> conn.attempts == old(conn.attempts) && conn.slept == old(conn.slept)
    ensures Legal(c, s, ResetLabels(r))
    ensures LifeOf(Run(c, s, ResetLabels(r))) == conn.View()
    ensures Run(c, s, ResetLabels(r)).phase == ResetPhase(r)
  {
    r := conn.Reset(Lost(cause), network, k);
    ResetRefines(c, s, r);
  }

  /** The other two arguments of reset: without an error it dials at once, and on a done
      context it gives up. */
  method ResetOther(conn: Connection, network: seq<DialOutcome>, ghost k: nat, first: bool) returns (r: ResetResult)
    requires conn.strategy.redoWaited == Stored(k) && network != []
    requires conn.maxRetries >= 0 ==> |network| > conn.maxRetries
    modifies conn, conn.strategy
    ensures r == GaveUp <==> !first
    ensures conn.attempts == old(conn.attempts) + (if first then 1 else 0) && conn.slept == old(conn.slept)
    ensures r == ResetDialFailed <==> first && network[0] == Refused
    ensures r == GaveUp || r == ResetDialFailed ==> conn.View() == old(conn.View())
    ensures first && network[0].Dialled? ==>
      conn.connected && !conn.onceUsed && conn.onCloses == old(conn.onCloses) && conn.dials == old(conn.dials) + 1
  {
    r := conn.Reset(if first then NoError else Cancelled, network, k);
  }

  lemma CloseLostRefines(c: Config, s: State)
    requires s.phase.Marked?
    ensures Do(c, s, CloseLost).phase == if s.phase.cause == Closed then Leaving else Redialing
    ensures LifeOf(Do(c, s, CloseLost)) == if s.phase.cause == Closed then LifeOf(s) else CloseLife(LifeOf(s))
  {
  }

  lemma RedialRefines(c: Config, s: State, result: ResetResult)
    requires s.phase == Redialing && (result == ResetDialFailed || result.ResetAuth? || result == ResetOk)
    requires result.ResetAuth? ==> result.auth != Accepted
    ensures Legal(c, s, RedialLabels(result))
    ensures LifeOf(Run(c, s, RedialLabels(result)))
         == if result == ResetDialFailed then LifeOf(s) else EstablishLife(LifeOf(s), result == ResetOk)
    ensures Run(c, s, RedialLabels(result)).phase == ResetPhase(result)
  {
    if result == ResetDialFailed {
      RunOne(c, s, DialFails);
    } else {
      var auth := AuthLabels(AuthOf(result));
      DialRefines(c, s);
      RunOne(c, s, DialSucceeds);
      var s1 := Do(c, s, DialSucceeds);
      AuthRefines(c, s1, AuthOf(result));
      RunAppend(c, s, [DialSucceeds], auth);
      if result == ResetOk {
        SpawnRefines(c, Run(c, s1, auth));
        RunAppend(c, s, [DialSucceeds] + auth, [Spawn]);
      } else {
        assert RedialLabels(result) == [DialSucceeds] + auth;
      }
    }
  }

  lemma DialRefines(c: Config, s: State)
    requires s.phase == Redialing
    ensures var s1 := Do(c, s, DialSucceeds);
      && LifeOf(s1) == EstablishLife(LifeOf(s), false)
      && s1.phase == Renewed && s1.wire == [Greeting] && s1.owed == []
  {
  }

  lemma SpawnRefines(c: Config, s: State)
    requires s.phase == Authenticated
    ensures Legal(c, s, [Spawn])
    ensures LifeOf(Run(c, s, [Spawn])) == SpawnLife(LifeOf(s)) && Run(c, s, [Spawn]).phase == Top
  {
    RunOne(c, s, Spawn);
  }

  /** The handshake on a fresh connection: the greeting and the frame behind it are
      taken off the wire, no more. */
  lemma AuthRefines(c: Config, s: State, result: AuthResult)
    requires s.phase == Renewed && s.wire == [Greeting] && s.owed == []
    ensures Legal(c, s, AuthLabels(result))
    ensures var s' := Run(c, s, AuthLabels(result));
      && LifeOf(s') == LifeOf(s)
      && s'.phase == (if result == Accepted then Authenticated else Leaving)
      && (result == Accepted || result.RefusedBy? ==>
            s'.wire == [] && s'.owed == [] && s'.authReplies == s.authReplies + [Password(Command, |s.written|)])
      && (result == BadReplyType ==> s'.wire == [] && s'.authReplies == s.authReplies)
  {
    if result == Accepted || result.RefusedBy? {
      AnsweredPassword(c, s, if result == Accepted then AuthSucceeds else AuthRefused);
    } else if result == BadReplyType {
      UnaskedFrame(c, s);
    } else if result == ReplyLost {
      RunTwo(c, s, Greet, AuthFails);
    } else {
      RunOne(c, s, AuthFails);
    }
  }

  lemma UnaskedFrame(c: Config, s: State)
    requires s.phase == Renewed && s.wire == [Greeting] && s.owed == []
    ensures Legal(c, s, [Greet, Emit(Other), AuthRefused])
    ensures var s' := Run(c, s, [Greet, Emit(Other), AuthRefused]);
      LifeOf(s') == LifeOf(s) && s'.phase == Leaving && s'.wire == [] && s'.authReplies == s.authReplies
  {
    var s1 := Do(c, s, Greet);
    assert s1.wire == [];
    var s2 := Do(c, s1, Emit(Other));
    assert s2.wire == [Other] && Replies(s2.wire[..1]) == [] && s.authReplies + [] == s.authReplies;
    RunThree(c, s, Greet, Emit(Other), AuthRefused);
  }

  lemma AnsweredPassword(c: Config, s: State, l: Label)
    requires s.phase == Renewed && s.wire == [Greeting] && s.owed == [] && (l.AuthSucceeds? || l.AuthRefused?)
    ensures Legal(c, s, [Greet, Answer, l])
    ensures var s' := Run(c, s, [Greet, Answer, l]);
      && LifeOf(s') == LifeOf(s) && s'.phase == (if l.AuthSucceeds? then Authenticated else Leaving)
      && s'.wire == [] && s'.owed == [] && s'.authReplies == s.authReplies + [Password(Command, |s.written|)]
  {
    var s1 := Do(c, s, Greet);
    assert s1.wire == [] && s1.owed == [Password(Command, |s.written|)];
    var s2 := Do(c, s1, Answer);
    assert s2.wire == [Reply(Password(Command, |s.written|))] && s2.owed == [];
    assert s2.wire[..1] == s2.wire && s2.wire[1..] == [];
    assert Replies(s2.wire) == [Password(Command, |s.written|)];
    RunThree(c, s, Greet, Answer, l);
  }

  /** The frame behind the greeting decides alike on the bytes and in the machine, and
      is what auth takes, whoever it was meant for. */
  lemma ReplyDecides(c: Config, s: State, out: Events.Outcome)
    requires s.phase == PasswordSent && s.wire != [] && StandsFor(s.wire[0], out)
    ensures AuthReply(out) == Accepted ==>
      Enabled(c, s, AuthSucceeds) && Do(c, s, AuthSucceeds).wire == s.wire[1..]
    ensures AuthReply(out) != Accepted ==>
      Enabled(c, s, AuthRefused) && Do(c, s, AuthRefused).wire == s.wire[1..]
    ensures Enabled(c, s, AuthSucceeds) && H.Harmless(out) ==> AuthReply(out) == Accepted || AuthReply(out).RefusedBy?
  {
  }

  // ---- the receive loop ------------------------------------------------------------

  /** The machine's frame for what recvEvent made of one. */
  predicate StandsFor(f: Frame, out: Events.Outcome) {
    match out
    case Received(e) =>
      (match e.kind
       case CommandReply => f.Reply? && f.request.kind == Command
       case ApiResponse => f.Reply? && f.request.kind == Api
       case Generic => f.Generic?
       case Auth => f == Greeting
       case _ => f == Other)
    case _ => H.Harmless(out) ==> f == Other
  }

  /** The channels hold as much. */
  predicate SameFill(h: H.Handed, s: State) {
    && |h.cmdReply| == |s.command.queue|
    && |h.apiResp| == |s.api.queue|
    && |h.events| == |s.events.queue|
  }

  function RoundLabels(f: Frame): seq<Label> {
    match f
    case Reply(_) => [Loop, Receive, PushReply]
    case Generic(_) => [Loop, Receive, PushEvent]
    case _ => [Loop, Receive]
  }

  function LoopLabels(frames: seq<Frame>): seq<Label> {
    if frames == [] then [] else LoopLabels(frames[..|frames| - 1]) + RoundLabels(frames[|frames| - 1])
  }

  predicate AtTop(s: State) {
    s.phase == Top && s.connected && !s.ctxDone
  }

  predicate HasRoom(c: Config, s: State, f: Frame) {
    match f
    case Reply(r) => |ChannelOf(s, r.kind).queue| < c.cap
    case Generic(_) => |s.events.queue| < c.cap
    case _ => true
  }

  /** The state after one undisturbed round. */
  function AfterRound(s: State, f: Frame): State {
    var s1 := s.(wire := if s.wire == [] then [] else s.wire[1..], received := s.received + [f]);
    match f
    case Reply(r) => WithChannel(s1, r.kind, ChannelOf(s, r.kind).(queue := ChannelOf(s, r.kind).queue + [r]))
    case Generic(id) => s1.(events := s.events.(queue := s.events.queue + [id]))
    case _ => s1
  }

  lemma RoundRuns(c: Config, s: State, f: Frame)
    requires AtTop(s) && s.wire != [] && s.wire[0] == f && HasRoom(c, s, f)
    ensures Legal(c, s, RoundLabels(f)) && Run(c, s, RoundLabels(f)) == AfterRound(s, f)
  {
    if f.Reply? {
      RunThree(c, s, Loop, Receive, PushReply);
    } else if f.Generic? {
      RunThree(c, s, Loop, Receive, PushEvent);
    } else {
      RunTwo(c, s, Loop, Receive);
    }
  }

  /** One outcome handed on, and the same frame through the machine. */
  lemma RoundFills(c: Config, s: State, f: Frame, h: H.Handed, out: Events.Outcome)
    requires StandsFor(f, out) && H.Harmless(out) && SameFill(h, s)
    requires H.Within(H.HandOne(h, out), c.cap)
    ensures HasRoom(c, s, f) && SameFill(H.HandOne(h, out), AfterRound(s, f))
  {
  }

  /** What some frames leave in the machine: all received, and the replies and events
      among them queued in arrival order. */
  ghost predicate Filled(s: State, s': State, frames: seq<Frame>) {
    && AtTop(s')
    && s'.received == s.received + frames
    && s'.command == s.command.(queue := s.command.queue + RepliesOf(Command, frames))
    && s'.api == s.api.(queue := s.api.queue + RepliesOf(Api, frames))
    && s'.events == s.events.(queue := s.events.queue + Generics(frames))
  }

  lemma FilledSnoc(s: State, s': State, frames: seq<Frame>, f: Frame)
    requires Filled(s, s', frames)
    ensures Filled(s, AfterRound(s', f), frames + [f])
  {
    Snoc(Command, [], frames, Request(Command, 0), f);
    Snoc(Api, [], frames, Request(Api, 0), f);
    F.Regroup(s.received, frames, [f]);
    if f.Reply? {
      F.Regroup(s.command.queue, RepliesOf(Command, frames), [f.request]);
      F.Regroup(s.api.queue, RepliesOf(Api, frames), [f.request]);
    } else if f.Generic? {
      F.Regroup(s.events.queue, Generics(frames), [f.id]);
    }
  }

  predicate AllStandFor(frames: seq<Frame>, outs: seq<Events.Outcome>) {
    |frames| == |outs| && forall i :: 0 <= i < |outs| ==> StandsFor(frames[i], outs[i])
  }

  /** Rounds of the loop, while there is room, are that many rounds of the machine. */
  lemma {:induction false} LoopRuns(c: Config, s: State, frames: seq<Frame>, rest: seq<Frame>,
                                    h: H.Handed, outs: seq<Events.Outcome>)
    requires AtTop(s) && s.wire == frames + rest && SameFill(h, s)
    requires AllStandFor(frames, outs) && H.AllHarmless(outs) && H.Within(H.HandOn(h, outs), c.cap)
    ensures Legal(c, s, LoopLabels(frames))
    ensures var s' := Run(c, s, LoopLabels(frames));
      Filled(s, s', frames) && s'.wire == rest && SameFill(H.HandOn(h, outs), s')
    decreases |frames|
  {
    if frames == [] {
      assert frames + rest == rest;
    } else {
      var n := |frames| - 1;
      var before, f := frames[..n], frames[n];
      assert frames + rest == before + ([f] + rest) && before + [f] == frames;
      HandedGrows(H.HandOn(h, outs[..n]), outs[n]);
      LoopRuns(c, s, before, [f] + rest, h, outs[..n]);
      LastRound(c, s, before, f, rest, H.HandOn(h, outs[..n]), outs[n]);
    }
  }

  /** One round more. */
  lemma LastRound(c: Config, s: State, before: seq<Frame>, f: Frame, rest: seq<Frame>, h: H.Handed, out: Events.Outcome)
    requires Legal(c, s, LoopLabels(before))
    requires var s1 := Run(c, s, LoopLabels(before));
      Filled(s, s1, before) && s1.wire == [f] + rest && SameFill(h, s1)
    requires StandsFor(f, out) && H.Harmless(out) && H.Within(H.HandOne(h, out), c.cap)
    ensures Legal(c, s, LoopLabels(before) + RoundLabels(f))
    ensures var s' := Run(c, s, LoopLabels(before) + RoundLabels(f));
      Filled(s, s', before + [f]) && s'.wire == rest && SameFill(H.HandOne(h, out), s')
  {
    var s1 := Run(c, s, LoopLabels(before));
    RoundFills(c, s1, f, h, out);
    RoundRuns(c, s1, f);
    RunAppend(c, s, LoopLabels(before), RoundLabels(f));
    FilledSnoc(s, s1, before, f);
  }

  lemma HandedGrows(h: H.Handed, out: Events.Outcome)
    ensures forall cap: nat :: H.Within(H.HandOne(h, out), cap) ==> H.Within(h, cap)
  {
  }

  // ---- where the loop stops ----------------------------------------------------------

  /** The machine's steps at the end of the loop. */
  function StopLabels(end: H.LoopEnd, cause: Cause): seq<Label> {
    match end
    case More => []
    case ContextDone => [CancelContext, Loop]
    case Disconnected => [Loop]
    case Halts(WouldBlock(_)) => [Loop, Receive]
    case Halts(GoesToRedial) => [Loop, Lose(cause)]
    case Halts(Ends) => [Loop, Lose(cause)]
    case Halts(Crash) => [Loop]
  }

  /** Where the machine's reader is then.  A blocked reader is blocked in the machine. */
  predicate StoppedThere(c: Config, end: H.LoopEnd, cause: Cause, s: State) {
    match end
    case More => s.phase == Top
    case ContextDone => s.phase == Leaving
    case Disconnected => s.phase == Leaving
    case Halts(WouldBlock(held)) =>
      (match held.kind
       case Generic => s.phase.HoldingEvent? && !Enabled(c, s, PushEvent)
       case CommandReply => s.phase.HoldingReply? && s.phase.reply.kind == Command && !Enabled(c, s, PushReply)
       case ApiResponse => s.phase.HoldingReply? && s.phase.reply.kind == Api && !Enabled(c, s, PushReply)
       case _ => false)
    case Halts(GoesToRedial) => s.phase == LostSeen(cause)
    case Halts(Ends) => s.phase == Leaving
    case Halts(Crash) => s.phase == Receiving
  }

  lemma StopRuns(c: Config, s: State, h: H.Handed, end: H.LoopEnd, last: Events.Outcome, cause: Cause)
    requires AtTop(s) && SameFill(h, s) && H.Stops(end, last, h, c.cap, c.autoRedial)
    requires s.wire != [] && StandsFor(s.wire[0], last)
    ensures Legal(c, s, StopLabels(end, cause)) && StoppedThere(c, end, cause, Run(c, s, StopLabels(end, cause)))
  {
    if end.why.WouldBlock? {
      RunTwo(c, s, Loop, Receive);
      BlockedThere(c, s, h, end.why.held);
    } else if end.why.Crash? {
      RunOne(c, s, Loop);
    } else {
      RunTwo(c, s, Loop, Lose(cause));
    }
  }

  lemma BlockedThere(c: Config, s: State, h: H.Handed, held: Events.Event)
    requires AtTop(s) && SameFill(h, s) && H.Full(h, held.kind, c.cap)
    requires s.wire != [] && StandsFor(s.wire[0], Events.Received(held))
    ensures StoppedThere(c, H.Halts(H.WouldBlock(held)), Closed, Do(c, Do(c, s, Loop), Receive))
  {
  }

  lemma EndRuns(c: Config, s: State, end: H.LoopEnd, cause: Cause)
    requires s.phase == Top
    requires end.More? || (end.ContextDone? && s.connected) || (end.Disconnected? && !s.connected)
    ensures Legal(c, s, StopLabels(end, cause)) && StoppedThere(c, end, cause, Run(c, s, StopLabels(end, cause)))
  {
    if end.ContextDone? {
      RunTwo(c, s, CancelContext, Loop);
    } else if end.Disconnected? {
      RunOne(c, s, Loop);
    }
  }

  /** The loop's end, on values: rounds completed, and what it stopped at. */
  ghost predicate LoopEnded(c: Config, connected: bool, h: H.Handed, outs: seq<Events.Outcome>,
                            end: H.LoopEnd, last: Events.Outcome) {
    && (outs != [] ==> connected)
    && match end
       case More => true
       case ContextDone => connected
       case Disconnected => !connected
       case Halts(_) => connected && H.Stops(end, last, H.HandOn(h, outs), c.cap, c.autoRedial)
  }

  lemma LoopRunsTo(c: Config, s: State, frames: seq<Frame>, h: H.Handed, outs: seq<Events.Outcome>,
                   end: H.LoopEnd, last: Events.Outcome, cause: Cause)
    requires s.phase == Top && !s.ctxDone && s.wire == frames && SameFill(h, s)
    requires H.AllHarmless(outs) && H.Within(H.HandOn(h, outs), c.cap)
    requires |outs| <= |frames| && AllStandFor(frames[..|outs|], outs)
    requires LoopEnded(c, s.connected, h, outs, end, last)
    requires end.Halts? ==> |outs| < |frames| && StandsFor(frames[|outs|], last)
    ensures RunsTo(c, s, frames[..|outs|], H.HandOn(h, outs), end, cause)
  {
    var done, rest := frames[..|outs|], frames[|outs|..];
    assert frames == done + rest;
    if s.connected {
      LoopRuns(c, s, done, rest, h, outs);
    } else {
      assert LoopLabels(done) == [] && H.HandOn(h, outs) == h;
    }
    var s' := Run(c, s, LoopLabels(done));
    if end.Halts? {
      assert s'.wire[0] == frames[|outs|];
      StopRuns(c, s', H.HandOn(h, outs), end, last, cause);
    } else {
      EndRuns(c, s', end, cause);
    }
    RunAppend(c, s, LoopLabels(done), StopLabels(end, cause));
  }

  /** The rounds on `done` are a run of the machine, the channels hold as much then,
      and it goes on to where the loop ended. */
  ghost predicate RunsTo(c: Config, s: State, done: seq<Frame>, h: H.Handed, end: H.LoopEnd, cause: Cause) {
    var labels := LoopLabels(done);
    && Legal(c, s, labels)
    && SameFill(h, Run(c, s, labels))
    && (s.connected ==> Filled(s, Run(c, s, labels), done))
    && Legal(c, s, labels + StopLabels(end, cause))
    && StoppedThere(c, end, cause, Run(c, s, labels + StopLabels(end, cause)))
  }

  /** Frames that stand for `n` reads stand for those the loop made. */
  lemma ReadsMatch(read: string -> (Events.Outcome, string), input: string, frames: seq<Frame>, n: nat,
                   outs: seq<Events.Outcome>)
    requires n <= |frames| && AllStandFor(frames[..n], F.Iterate(read, input, n).0)
    requires |outs| <= n && outs == F.Iterate(read, input, |outs|).0
    ensures AllStandFor(frames[..|outs|], outs)
  {
    F.IteratePrefix(read, input, |outs|, n);
    Prefixes(frames, n, F.Iterate(read, input, n).0, outs);
  }

  lemma Prefixes(frames: seq<Frame>, n: nat, all: seq<Events.Outcome>, outs: seq<Events.Outcome>)
    requires n <= |frames| && AllStandFor(frames[..n], all) && outs <= all
    ensures AllStandFor(frames[..|outs|], outs)
  {
    forall i | 0 <= i < |outs|
      ensures StandsFor(frames[..|outs|][i], outs[i])
    {
      assert StandsFor(frames[..n][i], all[i]);
    }
  }

  /** The same from what HandleEvents accounts for. */
  lemma AccountRuns(c: Config, s: State, frames: seq<Frame>, n: nat, a: H.Account,
                    outs: seq<Events.Outcome>, end: H.LoopEnd, last: Events.Outcome, cause: Cause)
    requires c.cap == a.cap && c.autoRedial == a.autoRedial
    requires s.phase == Top && !s.ctxDone && s.wire == frames
    requires SameFill(a.start, s) && H.Within(a.start, c.cap)
    requires n <= |frames| && AllStandFor(frames[..n], F.Iterate(a.read, a.stream, n).0)
    requires outs != [] || end.ContextDone? || end.Halts? ==> s.connected
    requires end.Disconnected? ==> !s.connected
    requires !end.Halts? ==> |outs| <= n && a.Progress(outs)
    requires end.Halts? ==> |outs| < n && a.StoppedAt(outs, end, last)
    ensures |outs| <= n && RunsTo(c, s, frames[..|outs|], a.now, end, cause)
  {
    if end.Halts? {
      ReadsMatch(a.read, a.stream, frames, n, outs + [last]);
      StandLast(frames, outs, last);
    } else {
      ReadsMatch(a.read, a.stream, frames, n, outs);
    }
    LoopRunsTo(c, s, frames, a.start, outs, end, last, cause);
  }

  lemma StandLast(frames: seq<Frame>, outs: seq<Events.Outcome>, last: Events.Outcome)
    requires |outs| < |frames| && AllStandFor(frames[..|outs| + 1], outs + [last])
    ensures AllStandFor(frames[..|outs|], outs) && StandsFor(frames[|outs|], last)
  {
    Prefixes(frames, |outs| + 1, outs + [last], outs);
    assert (outs + [last])[|outs|] == last && frames[..|outs| + 1][|outs|] == frames[|outs|];
  }

  /** HandleEvents is a run of the machine: whatever bytes arrive, its rounds are
      the machine's rounds on the frames those bytes stand for, it stops where the
      machine's reader stops, and the channels hold as much. */
  method LoopRefines(loop: H.EventLoop, n: nat, done: bool, ghost c: Config, ghost s: State,
                     ghost frames: seq<Frame>, ghost cause: Cause)
    returns (end: H.LoopEnd, ghost count: nat)
    requires c.cap == loop.sendReplyCap && c.autoRedial == loop.conn.autoRedial
    requires s.phase == Top && s.connected == loop.conn.connected && !s.ctxDone && s.wire == frames
    requires SameFill(loop.View(), s) && H.Within(loop.View(), c.cap)
    requires n <= |frames|
    requires var read := ReadOf(loop.conn.autoRedial && loop.conn.closing);
      AllStandFor(frames[..n], F.Iterate(read, loop.conn.Input(), n).0)
    modifies loop, loop.conn.reader
    ensures count <= n && RunsTo(c, s, frames[..count], loop.View(), end, cause)
    ensures end.More? || end.ContextDone? ==> count == n
  {
    ghost var input, start := loop.conn.Input(), loop.View();
    ghost var outs, last;
    end, outs, last := loop.HandleEvents(n, done);
    AccountRuns(c, s, frames, n, loop.Since(input, start), outs, end, last, cause);
    count := |outs|;
  }
}
