/** The concurrent heart of connection.go as a labelled transition system.

    One reader goroutine (HandleEvents), any number of SendBytes callers, the
    event callback goroutines that reset spawns, the peer, and whoever calls
    Close.  A label is one atomic step of one of them; `Do` says what the step
    changes.  The reader's redial is split as finely as other goroutines can
    tell: a Close may land between any two of its steps, and callers may write
    to the new connection while auth still reads from it.

    Fields from `written` on are histories: no guard of a step reads them. */
module Machine {

  /** The two kinds of reply, one channel each. */
  datatype Kind = Command | Api

  /** A request written to the peer, by a caller or, as the password, by auth; its
      tag is its position in write order.  The reply that answers it carries the
      same value. */
  datatype Request = Request(kind: Kind, tag: nat) | Password(kind: Kind, tag: nat)

  /** A received frame.  The peer sends a greeting when it accepts a connection.
      `Other` is everything the reader dispatches without a channel: log lines,
      disconnect notices, unknown types, frames whose decoding failed without the
      connection being lost. */
  datatype Frame = Reply(request: Request) | Generic(id: nat) | Greeting | Other

  /** Why a read was lost; only `Closed` (net.ErrClosed) makes reset give up. */
  datatype Cause = TimedOut | HungUp | Closed

  datatype Caller = User(id: nat) | Callback(index: nat)

  /** A bounded channel: what it holds, and the history of what was received
      from it. */
  datatype Channel<T> = Channel(taken: seq<T>, queue: seq<T>)

  /** Where the reader goroutine is. */
  datatype Phase =
    | Top                          // loop guard and context check come next
    | Receiving                    // inside recvEvent
    | HoldingReply(reply: Request) // blocked sending to a reply channel
    | HoldingEvent(event: nat)     // blocked sending to the event channel
    | LostSeen(cause: Cause)       // found autoRedial && connected
    | Marked(cause: Cause)         // has set connected to false
    | Redialing                    // inner Close done, inside dialTimes
    | Renewed                      // connected and a fresh once set, auth awaits the greeting
    | PasswordSent                 // auth awaits the reply to the password
    | Authenticated                // auth done, callback not yet spawned
    | Leaving                      // at the deferred function
    | Waiting                      // inside srWg.Wait
    | Returned

  datatype CallbackState = CallbackState(live: bool, cancelled: bool)

  datatype Config = Config(cap: nat, autoRedial: bool)

  datatype State = State(
    // the current connection, and the peer behind it
    owed: seq<Request>,            // requests the peer has not answered yet
    wire: seq<Frame>,              // frames sent by the peer, not yet received
    // the three channels, made once and shared by all connections
    command: Channel<Request>,
    api: Channel<Request>,
    events: Channel<nat>,
    // goroutines
    phase: Phase,
    waiting: map<Caller, nat>,     // callers inside SendBytes, by request tag
    callbacks: seq<CallbackState>, // all callbacks ever spawned; the canceler is the last one's
    srWg: int,
    // flags
    connected: bool,
    onceUsed: bool,
    ctxDone: bool,
    // histories
    written: seq<Request>,
    received: seq<Frame>,          // frames the reader accepted, over all connections
    log: seq<(nat, Request)>,      // completed calls: own request tag, reply received
    cancelled: nat,                // calls given up on their own context
    dropped: seq<Request>,         // replies given up by the reader on its context
    forfeited: nat,                // replies lost with an old connection, or dropped
    onCloses: nat,                 // OnClose calls
    dials: nat,                    // successful redials
    passwords: nat,                // passwords written
    authReplies: seq<Request>,     // replies auth took off the wire
    ahead: nat,                    // calls written to this connection before its password
    early: nat)                    // the same, over all redials

  /** The state Dial hands over: connected, one callback running. */
  const INIT: State := State([], [],
    Channel([], []), Channel([], []), Channel([], []),
    Top, map[], [CallbackState(true, false)], 1,
    true, false, false,
    [], [], [], 0, [], 0, 0, 0, 0, [], 0, 0)

  datatype Label =
    // callers
    | Write(caller: Caller, kind: Kind)
    | Take(taker: Caller, channel: Kind)
    | GiveUp(quitter: Caller)
    // peer
    | Answer
    | Emit(frame: Frame)
    // reader
    | Loop
    | Receive
    | Lose(cause: Cause)
    | PushReply
    | DropReply
    | PushEvent
    | MarkLost
    | CloseLost
    | DialFails
    | DialSucceeds
    | Greet         // takes the greeting and writes the password; a call written in
                    // between might as well have been written before
    | AuthFails     // the connection is lost, or it takes too long
    | AuthRefused   // the next frame is no good reply
    | AuthSucceeds  // the next frame is a command reply; whose, auth cannot tell
    | Spawn
    | Depart
    | Return
    // callbacks
    | Handle(handler: nat)
    | Exit(exiting: nat)
    // environment
    | CancelContext
    | Close

  function ChannelOf(s: State, k: Kind): Channel<Request> {
    if k == Command then s.command else s.api
  }

  function WithChannel(s: State, k: Kind, ch: Channel<Request>): State {
    if k == Command then s.(command := ch) else s.(api := ch)
  }

  predicate IsLive(s: State, i: nat) {
    i < |s.callbacks| && s.callbacks[i].live
  }

  /** A caller can start a request when it is not inside SendBytes already; a
      callback must be running. */
  predicate CanWrite(s: State, c: Caller) {
    c !in s.waiting && (c.Callback? ==> IsLive(s, c.index))
  }

  /** The replies among frames, in order. */
  function Replies(frames: seq<Frame>): seq<Request> {
    if frames == [] then []
    else (if frames[0].Reply? then [frames[0].request] else []) + Replies(frames[1..])
  }

  /** The body of Close under its once. */
  function CloseOnce(s: State): State {
    if s.onceUsed then s
    else
      var n := |s.callbacks|;
      s.(onceUsed := true,
         connected := false,
         onCloses := s.onCloses + (if s.connected then 1 else 0),
         callbacks := if n == 0 then [] else s.callbacks[n - 1 := s.callbacks[n - 1].(cancelled := true)])
  }

  predicate Enabled(c: Config, s: State, l: Label) {
    match l
    case Write(caller, _) => CanWrite(s, caller)
    case Take(caller, k) => caller in s.waiting && ChannelOf(s, k).queue != []
    case GiveUp(caller) => caller in s.waiting
    case Answer => s.owed != []
    case Emit(f) => !f.Reply?
    case Loop => s.phase == Top
    case Receive => s.phase == Receiving && s.wire != []
    case Lose(_) => s.phase == Receiving
    case PushReply => s.phase.HoldingReply? && |ChannelOf(s, s.phase.reply.kind).queue| < c.cap
    case DropReply => s.phase.HoldingReply? && s.ctxDone
    case PushEvent => s.phase.HoldingEvent? && |s.events.queue| < c.cap
    case MarkLost => s.phase.LostSeen?
    case CloseLost => s.phase.Marked?
    case DialFails => s.phase == Redialing
    case DialSucceeds => s.phase == Redialing
    case Greet => s.phase == Renewed && s.wire != [] && s.wire[0] == Greeting
    case AuthFails => s.phase == Renewed || s.phase == PasswordSent
    case AuthRefused => s.phase == PasswordSent && s.wire != []
    case AuthSucceeds =>
      s.phase == PasswordSent && s.wire != [] && s.wire[0].Reply? && s.wire[0].request.kind == Command
    case Spawn => s.phase == Authenticated
    case Depart => s.phase == Leaving
    case Return => s.phase == Waiting && s.srWg == 0
    case Handle(i) => IsLive(s, i) && Callback(i) !in s.waiting && s.events.queue != []
    case Exit(i) => IsLive(s, i) && s.callbacks[i].cancelled && Callback(i) !in s.waiting
    case CancelContext => true
    case Close => true
  }

  /** The state after a step. */
  function Do(c: Config, s: State, l: Label): State
    requires Enabled(c, s, l)
  {
    match l
    case Write(caller, k) =>
      var r := Request(k, |s.written|);
      var first := if s.phase == Renewed then 1 else 0;
      s.(owed := s.owed + [r], waiting := s.waiting[caller := r.tag], written := s.written + [r],
         ahead := s.ahead + first, early := s.early + first)
    case Take(caller, k) =>
      var ch := ChannelOf(s, k);
      var r := ch.queue[0];
      WithChannel(s, k, ch.(taken := ch.taken + [r], queue := ch.queue[1..]))
      .(waiting := s.waiting - {caller}, log := s.log + [(s.waiting[caller], r)])
    case GiveUp(caller) =>
      s.(waiting := s.waiting - {caller}, cancelled := s.cancelled + 1)
    case Answer =>
      s.(owed := s.owed[1..], wire := s.wire + [Reply(s.owed[0])])
    case Emit(f) =>
      s.(wire := s.wire + [f])
    case Loop =>
      s.(phase := if s.connected && !s.ctxDone then Receiving else Leaving)
    case Receive =>
      var f := s.wire[0];
      s.(wire := s.wire[1..],
         received := s.received + [f],
         phase := match f case Reply(r) => HoldingReply(r) case Generic(id) => HoldingEvent(id) case _ => Top)
    case Lose(cause) =>
      s.(phase := if c.autoRedial && s.connected then LostSeen(cause) else Leaving)
    case PushReply =>
      var r := s.phase.reply;
      var ch := ChannelOf(s, r.kind);
      WithChannel(s, r.kind, ch.(queue := ch.queue + [r])).(phase := Top)
    case DropReply =>
      s.(phase := Leaving, dropped := s.dropped + [s.phase.reply], forfeited := s.forfeited + 1)
    case PushEvent =>
      s.(events := s.events.(queue := s.events.queue + [s.phase.event]), phase := Top)
    case MarkLost =>
      s.(connected := false, phase := Marked(s.phase.cause))
    case CloseLost =>
      if s.phase.cause == Closed then s.(phase := Leaving)
      else CloseOnce(s).(phase := Redialing)
    case DialFails =>
      s.(phase := Leaving)
    case DialSucceeds =>
      s.(connected := true, onceUsed := false, dials := s.dials + 1, phase := Renewed,
         forfeited := s.forfeited + |Replies(s.wire)| + |s.owed|, wire := [Greeting], owed := [], ahead := 0)
    case Greet =>
      var r := Password(Command, |s.written|);
      s.(wire := s.wire[1..], owed := s.owed + [r], written := s.written + [r],
         passwords := s.passwords + 1, phase := PasswordSent)
    case AuthFails =>
      s.(phase := Leaving)
    case AuthRefused =>
      s.(wire := s.wire[1..], authReplies := s.authReplies + Replies(s.wire[..1]), phase := Leaving)
    case AuthSucceeds =>
      s.(wire := s.wire[1..], authReplies := s.authReplies + [s.wire[0].request], phase := Authenticated)
    case Spawn =>
      s.(callbacks := s.callbacks + [CallbackState(true, false)], srWg := s.srWg + 1, phase := Top)
    case Depart =>
      var n := |s.callbacks|;
      s.(phase := Waiting,
         callbacks := if n > 0 && !c.autoRedial && s.connected
                      then s.callbacks[n - 1 := s.callbacks[n - 1].(cancelled := true)]
                      else s.callbacks)
    case Return =>
      s.(phase := Returned)
    case Handle(i) =>
      s.(events := s.events.(taken := s.events.taken + [s.events.queue[0]], queue := s.events.queue[1..]))
    case Exit(i) =>
      s.(callbacks := s.callbacks[i := s.callbacks[i].(live := false)], srWg := s.srWg - 1)
    case CancelContext =>
      s.(ctxDone := true)
    case Close =>
      CloseOnce(s)
  }

  /** `ls` can be run from `s`. */
  ghost predicate Legal(c: Config, s: State, ls: seq<Label>)
    decreases |ls|
  {
    ls == [] || (Enabled(c, s, ls[0]) && Legal(c, Do(c, s, ls[0]), ls[1..]))
  }

  /** Where running `ls` from `s` ends. */
  ghost function Run(c: Config, s: State, ls: seq<Label>): State
    requires Legal(c, s, ls)
    decreases |ls|
  {
    if ls == [] then s else Run(c, Do(c, s, ls[0]), ls[1..])
  }

  ghost predicate Reachable(c: Config, s: State) {
    exists ls :: Legal(c, INIT, ls) && Run(c, INIT, ls) == s
  }

  /** Runs compose. */
  lemma {:induction false} RunAppend(c: Config, s: State, xs: seq<Label>, ys: seq<Label>)
    requires Legal(c, s, xs)
    requires Legal(c, Run(c, s, xs), ys)
    ensures Legal(c, s, xs + ys)
    ensures Run(c, s, xs + ys) == Run(c, Run(c, s, xs), ys)
    decreases |xs|
  {
    if xs == [] {
      assert xs + ys == ys;
    } else {
      assert (xs + ys)[0] == xs[0] && (xs + ys)[1..] == xs[1..] + ys;
      RunAppend(c, Do(c, s, xs[0]), xs[1..], ys);
    }
  }

  /** A one-step run. */
  lemma RunOne(c: Config, s: State, l: Label)
    requires Enabled(c, s, l)
    ensures Legal(c, s, [l]) && Run(c, s, [l]) == Do(c, s, l)
  {
    assert [l][1..] == [];
  }

  lemma RunTwo(c: Config, s: State, l1: Label, l2: Label)
    requires Enabled(c, s, l1) && Enabled(c, Do(c, s, l1), l2)
    ensures Legal(c, s, [l1, l2]) && Run(c, s, [l1, l2]) == Do(c, Do(c, s, l1), l2)
  {
    assert [l1, l2][1..] == [l2];
    RunOne(c, Do(c, s, l1), l2);
  }

  lemma RunThree(c: Config, s: State, l1: Label, l2: Label, l3: Label)
    requires Enabled(c, s, l1) && Enabled(c, Do(c, s, l1), l2) && Enabled(c, Do(c, Do(c, s, l1), l2), l3)
    ensures Legal(c, s, [l1, l2, l3]) && Run(c, s, [l1, l2, l3]) == Do(c, Do(c, Do(c, s, l1), l2), l3)
  {
    assert [l1, l2, l3][1..] == [l2, l3];
    RunTwo(c, Do(c, s, l1), l2, l3);
  }

  /** A reachable state stays reachable after a step. */
  lemma ReachableStep(c: Config, s: State, l: Label)
    requires Reachable(c, s) && Enabled(c, s, l)
    ensures Reachable(c, Do(c, s, l))
  {
    var ls :| Legal(c, INIT, ls) && Run(c, INIT, ls) == s;
    RunOne(c, s, l);
    RunAppend(c, INIT, ls, [l]);
  }
}
