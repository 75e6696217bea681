/** Which reply a SendBytes call gets.  Requests carry no ids: a call takes the
    first reply of either channel.  The laws here say how far that goes. */
module Correlation {
  import opened Machine
  import opened Conservation

  // ---- counting ----------------------------------------------------------

  function HeldCount(s: State): nat {
    if s.phase.HoldingReply? then 1 else 0
  }

  /** Replies on their way: owed by the peer, on the wire, held by the reader, queued. */
  function Outstanding(s: State): nat {
    |s.owed| + |Replies(s.wire)| + HeldCount(s) + |s.command.queue| + |s.api.queue|
  }

  ghost predicate Counted(s: State) {
    && |s.log| == |s.command.taken| + |s.api.taken|
    && |s.written| == |s.log| + s.cancelled + |s.waiting| + s.passwords
    && |s.written| == |s.log| + Outstanding(s) + s.forfeited + |s.authReplies|
  }

  lemma RemoveOne(m: map<Caller, nat>, x: Caller)
    requires x in m
    ensures |m - {x}| == |m| - 1
  {
    assert (m - {x}).Keys == m.Keys - {x};
  }

  /** The steps that touch requests or replies. */
  predicate Concerns(l: Label) {
    || l.Write? || l.Take? || l.GiveUp? || l.Answer? || l.Emit? || l.Receive? || l.PushReply?
    || l.Greet? || ByAuth(l) || Forfeits(l)
  }

  /** The steps by which auth takes a frame off the wire behind the greeting. */
  predicate ByAuth(l: Label) {
    l.AuthSucceeds? || l.AuthRefused?
  }

  /** The steps that lose replies: the reader drops one, or a new connection
      replaces the old one. */
  predicate Forfeits(l: Label) {
    l.DropReply? || l.DialSucceeds?
  }

  lemma OthersKeepReplies(c: Config, s: State, l: Label)
    requires Enabled(c, s, l) && !Concerns(l)
    ensures var s' := Do(c, s, l);
      && s'.owed == s.owed && s'.wire == s.wire && s'.command == s.command && s'.api == s.api
      && s'.waiting == s.waiting && s'.written == s.written && s'.log == s.log
      && s'.cancelled == s.cancelled && s'.forfeited == s.forfeited
      && s'.passwords == s.passwords && s'.authReplies == s.authReplies
      && s'.ahead == s.ahead && s'.early == s.early
      && (s.phase.HoldingReply? || s'.phase.HoldingReply? ==> s'.phase == s.phase)
  {
    if l.PushEvent? || l.Handle? {
    } else if l.Close? || l.CloseLost? {
    } else if l.Loop? || l.Lose? || l.MarkLost? {
    } else if l.Spawn? || l.Exit? || l.Depart? {
    }
  }

  lemma TakeCounted(c: Config, s: State, l: Label)
    requires l.Take? && Counted(s) && Enabled(c, s, l)
    ensures Counted(Do(c, s, l))
  {
    RemoveOne(s.waiting, l.taker);
    var s' := Do(c, s, l);
    if l.channel == Command {
      assert |s'.command.queue| == |s.command.queue| - 1 && s'.api == s.api;
    } else {
      assert |s'.api.queue| == |s.api.queue| - 1 && s'.command == s.command;
    }
  }

  lemma ReceiveCounted(c: Config, s: State)
    requires Counted(s) && Enabled(c, s, Receive)
    ensures Counted(Do(c, s, Receive))
  {
    assert HeldCount(s) == 0;
  }

  lemma PushCounted(c: Config, s: State)
    requires Counted(s) && Enabled(c, s, PushReply)
    ensures Counted(Do(c, s, PushReply))
  {
    var s' := Do(c, s, PushReply);
    assert HeldCount(s) == 1 && HeldCount(s') == 0;
    if s.phase.reply.kind == Command {
      assert |s'.command.queue| == |s.command.queue| + 1 && s'.api == s.api;
    } else {
      assert |s'.api.queue| == |s.api.queue| + 1 && s'.command == s.command;
    }
  }

  lemma ForfeitCounted(c: Config, s: State, l: Label)
    requires Forfeits(l)
    requires Counted(s) && Enabled(c, s, l)
    ensures Counted(Do(c, s, l))
  {
  }

  lemma PeerCounted(c: Config, s: State, l: Label)
    requires l.Answer? || l.Emit?
    requires Counted(s) && Enabled(c, s, l)
    ensures Counted(Do(c, s, l))
  {
    var f := if l.Answer? then Reply(s.owed[0]) else l.frame;
    Snoc(Command, [], s.wire, Request(Command, 0), f);
  }

  lemma AuthCounted(c: Config, s: State, l: Label)
    requires l.Greet? || ByAuth(l)
    requires Counted(s) && Enabled(c, s, l)
    ensures Counted(Do(c, s, l))
  {
    var s' := Do(c, s, l);
    FrontOff(s.wire);
    assert s'.wire == s.wire[1..] && HeldCount(s) == 0 && HeldCount(s') == 0;
    assert s'.command == s.command && s'.api == s.api && s'.log == s.log;
    if l.Greet? {
      assert |s'.owed| == |s.owed| + 1 && |s'.written| == |s.written| + 1;
    } else {
      assert |s'.authReplies| == |s.authReplies| + |Replies(s.wire[..1])|;
    }
  }

  /** The front of the wire, off it. */
  lemma FrontOff(frames: seq<Frame>)
    requires frames != []
    ensures Replies(frames) == Replies(frames[..1]) + Replies(frames[1..])
    ensures Replies(frames[..1]) == if frames[0].Reply? then [frames[0].request] else []
  {
    assert frames == frames[..1] + frames[1..];
    RepliesAppend(frames[..1], frames[1..]);
  }

  lemma CallCounted(c: Config, s: State, l: Label)
    requires l.Write? || l.GiveUp?
    requires Counted(s) && Enabled(c, s, l)
    ensures Counted(Do(c, s, l))
  {
    if l.GiveUp? {
      RemoveOne(s.waiting, l.quitter);
    }
  }

  lemma CountedStep(c: Config, s: State, l: Label)
    requires Counted(s) && Enabled(c, s, l)
    ensures Counted(Do(c, s, l))
  {
    if !Concerns(l) { OthersKeepReplies(c, s, l); }
    else if l.Write? || l.GiveUp? { CallCounted(c, s, l); }
    else if l.Take? { TakeCounted(c, s, l); }
    else if l.Answer? || l.Emit? { PeerCounted(c, s, l); }
    else if l.Receive? { ReceiveCounted(c, s); }
    else if l.PushReply? { PushCounted(c, s); }
    else if l.Greet? || ByAuth(l) { AuthCounted(c, s, l); }
    else { ForfeitCounted(c, s, l); }
  }

  // ---- order -------------------------------------------------------------

  /** Everything of one kind between the peer's inbox and the callers, oldest first. */
  ghost function Pipeline(s: State, k: Kind): seq<Request> {
    ChannelOf(s, k).taken + ChannelOf(s, k).queue + Held(s, k) + RepliesOf(k, s.wire) + OfKind(k, s.owed)
  }

  /** What the pipeline keeps when an old connection is given up. */
  ghost function Kept(s: State, k: Kind): seq<Request> {
    ChannelOf(s, k).taken + ChannelOf(s, k).queue + Held(s, k)
  }

  lemma JoinSnoc(a: seq<Request>, b: seq<Request>, d: seq<Request>)
    ensures a + (b + d) == a + b + d
  {
  }

  /** The steps that write a request. */
  predicate Writes(l: Label) {
    l.Write? || l.Greet?
  }

  /** The request a step writes. */
  function Written(s: State, l: Label): Request
    requires Writes(l)
  {
    if l.Write? then Request(l.kind, |s.written|) else Password(Command, |s.written|)
  }

  /** What of it is of one kind. */
  function Next(s: State, l: Label, k: Kind): seq<Request> {
    if Writes(l) && Written(s, l).kind == k then [Written(s, l)] else []
  }

  lemma PipelineWrite(c: Config, s: State, l: Label, k: Kind)
    requires Writes(l) && Enabled(c, s, l)
    ensures Pipeline(Do(c, s, l), k) == Pipeline(s, k) + Next(s, l, k)
  {
    var s' := Do(c, s, l);
    var r := Written(s, l);
    WriteParts(c, s, l, k);
    Snoc(k, s.owed, [], r, Other);
    assert OfKind(k, s'.owed) == OfKind(k, s.owed) + Next(s, l, k);
    JoinSnoc(Kept(s, k) + RepliesOf(k, s.wire), OfKind(k, s.owed), Next(s, l, k));
  }

  lemma WriteParts(c: Config, s: State, l: Label, k: Kind)
    requires Writes(l) && Enabled(c, s, l)
    ensures var s' := Do(c, s, l);
      && Kept(s', k) == Kept(s, k) && RepliesOf(k, s'.wire) == RepliesOf(k, s.wire)
      && s'.owed == s.owed + [Written(s, l)] && s'.written == s.written + [Written(s, l)]
      && s'.log == s.log && ChannelOf(s', k) == ChannelOf(s, k)
  {
    if l.Greet? {
      FrontOff(s.wire);
      assert [] + Replies(s.wire[1..]) == Replies(s.wire[1..]);
    }
  }

  lemma PipelineAnswer(c: Config, s: State, k: Kind)
    requires Enabled(c, s, Answer)
    ensures Pipeline(Do(c, s, Answer), k) == Pipeline(s, k)
  {
    var s' := Do(c, s, Answer);
    assert s'.command == s.command && s'.api == s.api && s'.phase == s.phase;
    assert Kept(s', k) == Kept(s, k);
    AnswerMoves(k, Kept(s, k), s.wire, s.owed);
  }

  /** Answering moves the front of what is owed to the end of the wire. */
  lemma AnswerMoves(k: Kind, kept: seq<Request>, wire: seq<Frame>, owed: seq<Request>)
    requires owed != []
    ensures kept + RepliesOf(k, wire + [Reply(owed[0])]) + OfKind(k, owed[1..])
         == kept + RepliesOf(k, wire) + OfKind(k, owed)
  {
    var front, back := if owed[0].kind == k then [owed[0]] else [], OfKind(k, owed[1..]);
    Snoc(k, [], wire, owed[0], Reply(owed[0]));
    assert OfKind(k, owed) == front + back;
    Reassociate(kept, RepliesOf(k, wire), front, back);
  }

  lemma Reassociate<T>(a: seq<T>, b: seq<T>, d: seq<T>, e: seq<T>)
    ensures a + (b + d) + e == a + b + (d + e)
  {
  }

  lemma PipelineEmit(c: Config, s: State, l: Label, k: Kind)
    requires l.Emit? && Enabled(c, s, l)
    ensures Pipeline(Do(c, s, l), k) == Pipeline(s, k)
  {
    Snoc(k, [], s.wire, Request(k, 0), l.frame);
  }

  lemma RepliesUncons(k: Kind, frames: seq<Frame>)
    requires frames != []
    ensures RepliesOf(k, frames)
         == (if frames[0].Reply? && frames[0].request.kind == k then [frames[0].request] else [])
            + RepliesOf(k, frames[1..])
  {
    if frames[0].Reply? {
      OfKindAppend(k, [frames[0].request], Replies(frames[1..]));
    } else {
      assert Replies(frames) == Replies(frames[1..]);
    }
  }

  lemma PipelineReceive(c: Config, s: State, k: Kind)
    requires Enabled(c, s, Receive)
    ensures Pipeline(Do(c, s, Receive), k) == Pipeline(s, k)
  {
    var s' := Do(c, s, Receive);
    RepliesUncons(k, s.wire);
    assert s'.command == s.command && s'.api == s.api && s'.owed == s.owed;
    var before := ChannelOf(s, k).taken + ChannelOf(s, k).queue;
    assert Kept(s, k) == before;
    JoinSnoc(before, Held(s', k), RepliesOf(k, s'.wire));
  }

  lemma PipelineTake(c: Config, s: State, l: Label, k: Kind)
    requires l.Take? && Enabled(c, s, l)
    ensures Pipeline(Do(c, s, l), k) == Pipeline(s, k)
  {
    var ch := ChannelOf(s, l.channel);
    assert (ch.taken + [ch.queue[0]]) + ch.queue[1..] == ch.taken + ch.queue;
  }

  lemma PipelinePush(c: Config, s: State, k: Kind)
    requires Enabled(c, s, PushReply)
    ensures Pipeline(Do(c, s, PushReply), k) == Pipeline(s, k)
  {
    var s' := Do(c, s, PushReply);
    var ch, ch' := ChannelOf(s, k), ChannelOf(s', k);
    if s.phase.reply.kind == k {
      assert ch' == ch.(queue := ch.queue + Held(s, k)) && Held(s', k) == [];
      assert ch.taken + (ch.queue + Held(s, k)) == ch.taken + ch.queue + Held(s, k);
    } else {
      assert ch' == ch;
    }
    assert Kept(s', k) == Kept(s, k) && s'.wire == s.wire && s'.owed == s.owed;
  }

  /** Nothing but a write extends the pipeline, and nothing but auth, a dropped reply
      or a new connection shortens it. */
  lemma PipelineStep(c: Config, s: State, l: Label, k: Kind)
    requires Enabled(c, s, l) && !Forfeits(l) && !ByAuth(l)
    ensures Pipeline(Do(c, s, l), k) == Pipeline(s, k) + Next(s, l, k)
  {
    if !Concerns(l) { OthersKeepReplies(c, s, l); }
    else if Writes(l) { PipelineWrite(c, s, l, k); }
    else if l.Take? { PipelineTake(c, s, l, k); }
    else if l.Answer? { PipelineAnswer(c, s, k); }
    else if l.Emit? { PipelineEmit(c, s, l, k); }
    else if l.Receive? { PipelineReceive(c, s, k); }
    else if l.PushReply? { PipelinePush(c, s, k); }
  }

  lemma PipelineForfeit(c: Config, s: State, l: Label, k: Kind)
    requires Enabled(c, s, l) && Forfeits(l)
    ensures Pipeline(Do(c, s, l), k)
         == if l.DialSucceeds? then Kept(s, k)
            else ChannelOf(s, k).taken + ChannelOf(s, k).queue + (RepliesOf(k, s.wire) + OfKind(k, s.owed))
  {
  }

  /** Auth takes the oldest reply of its connection, past what is queued. */
  lemma PipelineAuth(c: Config, s: State, l: Label, k: Kind)
    requires ByAuth(l) && Enabled(c, s, l)
    ensures var ch, rest := ChannelOf(s, k), RepliesOf(k, s.wire[1..]);
      && Pipeline(s, k) == ch.taken + ch.queue + OfKind(k, Replies(s.wire[..1])) + rest + OfKind(k, s.owed)
      && Pipeline(Do(c, s, l), k) == ch.taken + ch.queue + rest + OfKind(k, s.owed)
      && ChannelOf(Do(c, s, l), k) == ch
  {
    var ch := ChannelOf(s, k);
    FrontOff(s.wire);
    OfKindAppend(k, Replies(s.wire[..1]), Replies(s.wire[1..]));
    JoinSnoc(ch.taken + ch.queue, OfKind(k, Replies(s.wire[..1])), RepliesOf(k, s.wire[1..]));
    assert Held(s, k) == [] && ch.taken + ch.queue + Held(s, k) == ch.taken + ch.queue;
    var s' := Do(c, s, l);
    assert Held(s', k) == [] && ChannelOf(s', k) == ch;
  }

  /** Requests of one kind in write order, without repetition. */
  ghost predicate InOrder(p: seq<Request>, k: Kind, written: seq<Request>) {
    && (forall i :: 0 <= i < |p| ==> p[i].kind == k && p[i].tag < |written| && written[p[i].tag] == p[i])
    && (forall i, j :: 0 <= i < j < |p| ==> p[i].tag < p[j].tag)
  }

  /** The requests written so far are numbered by position. */
  ghost predicate Numbered(s: State) {
    forall i :: 0 <= i < |s.written| ==> s.written[i].tag == i
  }

  function LogReplies(log: seq<(nat, Request)>): seq<Request> {
    seq(|log|, i requires 0 <= i < |log| => log[i].1)
  }

  ghost predicate OrderedAt(s: State, k: Kind) {
    && InOrder(Pipeline(s, k), k, s.written)
    && OfKind(k, LogReplies(s.log)) == ChannelOf(s, k).taken
  }

  lemma InOrderSub(a: seq<Request>, b: seq<Request>, d: seq<Request>, k: Kind, w: seq<Request>)
    requires InOrder(a + b + d, k, w)
    ensures InOrder(a + d, k, w)
    ensures InOrder(a, k, w)
  {
    var p := a + b + d;
    var f := (i: nat) => if i < |a| then i else i + |b|;
    assert forall i :: 0 <= i < |a + d| ==> (a + d)[i] == p[f(i)];
    assert forall i :: 0 <= i < |a| ==> a[i] == p[i];
  }

  lemma InOrderPrefix(p: seq<Request>, n: nat, k: Kind, w: seq<Request>)
    requires n <= |p| && InOrder(p, k, w)
    ensures InOrder(p[..n], k, w)
  {
  }

  lemma OrderedWrite(c: Config, s: State, l: Label, k: Kind)
    requires Writes(l) && Enabled(c, s, l) && OrderedAt(s, k)
    ensures OrderedAt(Do(c, s, l), k)
  {
    PipelineWrite(c, s, l, k);
    WriteParts(c, s, l, k);
    InOrderSnoc(Pipeline(s, k), Next(s, l, k), k, s.written, Written(s, l));
  }

  lemma OrderedAuth(c: Config, s: State, l: Label, k: Kind)
    requires ByAuth(l) && Enabled(c, s, l) && OrderedAt(s, k)
    ensures OrderedAt(Do(c, s, l), k)
  {
    PipelineAuth(c, s, l, k);
    var ch, rest, owed := ChannelOf(s, k), RepliesOf(k, s.wire[1..]), OfKind(k, s.owed);
    InOrderForfeit(ch.taken + ch.queue, OfKind(k, Replies(s.wire[..1])), rest, owed, k, s.written);
    JoinSnoc(ch.taken + ch.queue, rest, owed);
  }

  lemma InOrderSnoc(p: seq<Request>, next: seq<Request>, k: Kind, w: seq<Request>, r: Request)
    requires InOrder(p, k, w) && r.tag == |w| && next == if r.kind == k then [r] else []
    ensures InOrder(p + next, k, w + [r])
  {
  }

  lemma LogSnoc(log: seq<(nat, Request)>, x: (nat, Request))
    ensures LogReplies(log + [x]) == LogReplies(log) + [x.1]
  {
  }

  lemma TakeLogged(c: Config, s: State, l: Label, k: Kind)
    requires l.Take? && Enabled(c, s, l) && ChannelOf(s, l.channel).queue[0].kind == l.channel
    requires OfKind(k, LogReplies(s.log)) == ChannelOf(s, k).taken
    ensures OfKind(k, LogReplies(Do(c, s, l).log)) == ChannelOf(Do(c, s, l), k).taken
  {
    var r := ChannelOf(s, l.channel).queue[0];
    LogSnoc(s.log, (s.waiting[l.taker], r));
    Snoc(k, LogReplies(s.log), [], r, Other);
  }

  lemma OrderedTake(c: Config, s: State, l: Label, k: Kind)
    requires l.Take? && Enabled(c, s, l) && OrderedAt(s, k) && OrderedAt(s, l.channel)
    ensures OrderedAt(Do(c, s, l), k)
  {
    PipelineTake(c, s, l, k);
    assert Pipeline(s, l.channel)[|ChannelOf(s, l.channel).taken|] == ChannelOf(s, l.channel).queue[0];
    TakeLogged(c, s, l, k);
  }

  lemma OrderedForfeit(c: Config, s: State, l: Label, k: Kind)
    requires Forfeits(l) && Enabled(c, s, l) && OrderedAt(s, k)
    ensures OrderedAt(Do(c, s, l), k)
  {
    PipelineForfeit(c, s, l, k);
    var ch := ChannelOf(s, k);
    InOrderForfeit(ch.taken + ch.queue, Held(s, k), RepliesOf(k, s.wire), OfKind(k, s.owed), k, s.written);
  }

  lemma InOrderForfeit(kept: seq<Request>, held: seq<Request>, wire: seq<Request>, owed: seq<Request>,
                       k: Kind, w: seq<Request>)
    requires InOrder(kept + held + wire + owed, k, w)
    ensures InOrder(kept + (wire + owed), k, w)
    ensures InOrder(kept + held, k, w)
  {
    JoinSnoc(kept + held, wire, owed);
    InOrderSub(kept, held, wire + owed, k, w);
    assert kept + held + (wire + owed) == (kept + held) + (wire + owed) + [];
    InOrderSub(kept + held, wire + owed, [], k, w);
  }

  lemma LogKept(c: Config, s: State, l: Label)
    requires Enabled(c, s, l) && !Writes(l) && !l.Take? && !Forfeits(l) && !ByAuth(l)
    ensures var s' := Do(c, s, l);
      && s'.log == s.log && s'.written == s.written && s'.forfeited == s.forfeited
      && s'.command.taken == s.command.taken && s'.api.taken == s.api.taken
  {
    if !Concerns(l) {
      OthersKeepReplies(c, s, l);
    } else if l.PushReply? {
      assert Do(c, s, l).command.taken == s.command.taken;
    } else {
      assert l.GiveUp? || l.Answer? || l.Emit? || l.Receive?;
    }
  }

  lemma OrderedKeep(c: Config, s: State, l: Label, k: Kind)
    requires Enabled(c, s, l) && !Writes(l) && !l.Take? && !Forfeits(l) && !ByAuth(l) && OrderedAt(s, k)
    ensures OrderedAt(Do(c, s, l), k)
  {
    LogKept(c, s, l);
    PipelineStep(c, s, l, k);
  }

  lemma NumberedStep(c: Config, s: State, l: Label)
    requires Enabled(c, s, l) && Numbered(s)
    ensures Numbered(Do(c, s, l))
  {
    assert Writes(l) || Do(c, s, l).written == s.written;
  }

  lemma OrderedStep(c: Config, s: State, l: Label, k: Kind)
    requires Enabled(c, s, l) && Numbered(s) && OrderedAt(s, Command) && OrderedAt(s, Api)
    ensures OrderedAt(Do(c, s, l), k)
  {
    if Writes(l) { OrderedWrite(c, s, l, k); }
    else if l.Take? { OrderedTake(c, s, l, k); }
    else if ByAuth(l) { OrderedAuth(c, s, l, k); }
    else if Forfeits(l) { OrderedForfeit(c, s, l, k); }
    else { OrderedKeep(c, s, l, k); }
  }

  ghost predicate Correlated(s: State) {
    Counted(s) && Numbered(s) && OrderedAt(s, Command) && OrderedAt(s, Api)
  }

  lemma CorrelatedStep(c: Config, s: State, l: Label)
    requires Correlated(s) && Enabled(c, s, l)
    ensures Correlated(Do(c, s, l))
  {
    CountedStep(c, s, l);
    NumberedStep(c, s, l);
    OrderedStep(c, s, l, Command);
    OrderedStep(c, s, l, Api);
  }

  lemma {:induction false} CorrelatedAlong(c: Config, s: State, ls: seq<Label>)
    requires Correlated(s) && Legal(c, s, ls)
    ensures Correlated(Run(c, s, ls))
    decreases |ls|
  {
    if ls != [] {
      CorrelatedStep(c, s, ls[0]);
      CorrelatedAlong(c, Do(c, s, ls[0]), ls[1..]);
    }
  }

  lemma InitCorrelated()
    ensures Correlated(INIT)
  {
  }

  lemma ReachableCorrelated(c: Config, s: State)
    requires Reachable(c, s)
    ensures Correlated(s)
  {
    var ls :| Legal(c, INIT, ls) && Run(c, INIT, ls) == s;
    InitCorrelated();
    CorrelatedAlong(c, INIT, ls);
  }

  // ---- the laws ----------------------------------------------------------

  /** Skew law: over every interleaving, redials and drops included, the replies
      still to come, those forfeited and those auth took make up for exactly the
      calls that are waiting or were given up, and the passwords. */
  lemma SkewLaw(c: Config, s: State)
    requires Reachable(c, s)
    ensures Outstanding(s) + s.forfeited + |s.authReplies| == s.cancelled + |s.waiting| + s.passwords
  {
    ReachableCorrelated(c, s);
  }

  /** Redials, drops and auth take replies away but never reorder or repeat one: the
      replies of one kind that callers received are in write order. */
  lemma NeverReordered(c: Config, s: State, k: Kind)
    requires Reachable(c, s)
    ensures InOrder(OfKind(k, LogReplies(s.log)), k, s.written)
  {
    ReachableCorrelated(c, s);
    var taken := ChannelOf(s, k).taken;
    TakenFirst(s, k);
    InOrderPrefix(Pipeline(s, k), |taken|, k, s.written);
    assert Pipeline(s, k)[..|taken|] == taken;
  }

  lemma TakenFirst(s: State, k: Kind)
    ensures ChannelOf(s, k).taken <= Pipeline(s, k)
  {
    var ch := ChannelOf(s, k);
    FirstOfFive(ch.taken, ch.queue, Held(s, k), RepliesOf(k, s.wire), OfKind(k, s.owed));
  }

  lemma FirstOfFive<T>(a: seq<T>, b: seq<T>, d: seq<T>, e: seq<T>, f: seq<T>)
    ensures a <= a + b + d + e + f
  {
  }

  lemma {:induction false} OfKindIn(k: Kind, rs: seq<Request>, i: nat)
    requires i < |rs| && rs[i].kind == k
    ensures rs[i] in OfKind(k, rs)
  {
    if i > 0 {
      OfKindIn(k, rs[1..], i - 1);
    }
  }

  /** Only replies to requests that were written are ever received. */
  lemma ReplyWritten(c: Config, s: State, r: Request)
    requires Reachable(c, s) && r in LogReplies(s.log)
    ensures r in s.written
  {
    var replies := LogReplies(s.log);
    var i :| 0 <= i < |replies| && replies[i] == r;
    OfKindIn(r.kind, replies, i);
    NeverReordered(c, s, r.kind);
  }
}
