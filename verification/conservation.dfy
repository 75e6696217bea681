/** What the demultiplexer conserves, over every run with any callers,
    cancellations, redials and closes. */
module Conservation {
  import opened Machine

  /** The requests of one kind, in order. */
  function OfKind(k: Kind, rs: seq<Request>): seq<Request> {
    if rs == [] then []
    else (if rs[0].kind == k then [rs[0]] else []) + OfKind(k, rs[1..])
  }

  /** The replies of one kind among frames, in order. */
  function RepliesOf(k: Kind, frames: seq<Frame>): seq<Request> {
    OfKind(k, Replies(frames))
  }

  /** The generic events among frames, in order. */
  function Generics(frames: seq<Frame>): seq<nat> {
    if frames == [] then []
    else (if frames[0].Generic? then [frames[0].id] else []) + Generics(frames[1..])
  }

  lemma {:induction false} OfKindAppend(k: Kind, a: seq<Request>, b: seq<Request>)
    ensures OfKind(k, a + b) == OfKind(k, a) + OfKind(k, b)
  {
    if a == [] {
      assert a + b == b;
    } else {
      assert (a + b)[1..] == a[1..] + b;
      OfKindAppend(k, a[1..], b);
      var head := if a[0].kind == k then [a[0]] else [];
      assert head + (OfKind(k, a[1..]) + OfKind(k, b)) == (head + OfKind(k, a[1..])) + OfKind(k, b);
    }
  }

  lemma {:induction false} RepliesAppend(a: seq<Frame>, b: seq<Frame>)
    ensures Replies(a + b) == Replies(a) + Replies(b)
  {
    if a == [] {
      assert a + b == b;
    } else {
      assert (a + b)[1..] == a[1..] + b;
      RepliesAppend(a[1..], b);
      var head := if a[0].Reply? then [a[0].request] else [];
      assert head + (Replies(a[1..]) + Replies(b)) == (head + Replies(a[1..])) + Replies(b);
    }
  }

  lemma {:induction false} GenericsAppend(a: seq<Frame>, b: seq<Frame>)
    ensures Generics(a + b) == Generics(a) + Generics(b)
  {
    if a == [] {
      assert a + b == b;
    } else {
      assert (a + b)[1..] == a[1..] + b;
      GenericsAppend(a[1..], b);
      var head := if a[0].Generic? then [a[0].id] else [];
      assert head + (Generics(a[1..]) + Generics(b)) == (head + Generics(a[1..])) + Generics(b);
    }
  }

  /** Filtering one more element at the end. */
  lemma Snoc(k: Kind, rs: seq<Request>, fs: seq<Frame>, r: Request, f: Frame)
    ensures OfKind(k, rs + [r]) == OfKind(k, rs) + (if r.kind == k then [r] else [])
    ensures Replies(fs + [f]) == Replies(fs) + (if f.Reply? then [f.request] else [])
    ensures RepliesOf(k, fs + [f]) == RepliesOf(k, fs) + (if f.Reply? && f.request.kind == k then [f.request] else [])
    ensures Generics(fs + [f]) == Generics(fs) + (if f.Generic? then [f.id] else [])
  {
    OfKindAppend(k, rs, [r]);
    assert OfKind(k, [r]) == if r.kind == k then [r] else [];
    RepliesAppend(fs, [f]);
    assert Replies([f]) == if f.Reply? then [f.request] else [];
    GenericsAppend(fs, [f]);
    assert Generics([f]) == if f.Generic? then [f.id] else [];
    OfKindAppend(k, Replies(fs), Replies([f]));
  }

  /** The reply of kind `k` the reader is blocked on, if any. */
  function Held(s: State, k: Kind): seq<Request> {
    if s.phase.HoldingReply? && s.phase.reply.kind == k then [s.phase.reply] else []
  }

  /** The generic event the reader is blocked on, if any. */
  function HeldEvent(s: State): seq<nat> {
    if s.phase.HoldingEvent? then [s.phase.event] else []
  }

  predicate Finished(p: Phase) {
    p == Leaving || p == Waiting || p == Returned
  }

  /** Conservation at one reply channel. */
  ghost predicate ConservedAt(c: Config, s: State, k: Kind) {
    var ch := ChannelOf(s, k);
    && RepliesOf(k, s.received) == ch.taken + ch.queue + Held(s, k) + OfKind(k, s.dropped)
    && |ch.queue| <= c.cap
  }

  /** Conservation at the event channel. */
  ghost predicate EventsConserved(c: Config, s: State) {
    && Generics(s.received) == s.events.taken + s.events.queue + HeldEvent(s)
    && |s.events.queue| <= c.cap
  }

  /** A reply is given up only by a reader that stops, on its context. */
  predicate DroppedLast(s: State) {
    s.dropped != [] ==> |s.dropped| == 1 && s.ctxDone && Finished(s.phase)
  }

  /** Every frame accepted for a channel was received from it, is queued in it,
      or is the one the reader is blocked on, in arrival order; no channel
      exceeds its capacity; a reply is dropped only by the reader's last step,
      once its context is done. */
  ghost predicate Conserved(c: Config, s: State) {
    && ConservedAt(c, s, Command)
    && ConservedAt(c, s, Api)
    && EventsConserved(c, s)
    && DroppedLast(s)
  }

  /** The steps that move something through a channel. */
  predicate Transfers(l: Label) {
    l.Take? || l.Receive? || l.PushReply? || l.DropReply? || l.PushEvent? || l.Handle?
  }

  lemma OthersKeepChannels(c: Config, s: State, l: Label)
    requires Enabled(c, s, l) && !Transfers(l)
    ensures var s' := Do(c, s, l);
      && s'.command == s.command && s'.api == s.api && s'.events == s.events
      && s'.received == s.received && s'.dropped == s.dropped
      && (s.phase.HoldingReply? || s.phase.HoldingEvent? || s'.phase.HoldingReply? || s'.phase.HoldingEvent?
          ==> s'.phase == s.phase)
      && (Finished(s.phase) ==> Finished(s'.phase))
      && (s.ctxDone ==> s'.ctxDone)
  {
    if l.Write? || l.GiveUp? || l.Answer? || l.Emit? {
    } else if l.Exit? || l.CancelContext? || l.Close? {
    } else if l.Loop? || l.Lose? || l.MarkLost? || l.CloseLost? {
    } else if l.Greet? || l.AuthFails? || l.AuthRefused? || l.AuthSucceeds? {
    }
  }

  lemma TakeConserves(c: Config, s: State, l: Label, k: Kind)
    requires l.Take? && Enabled(c, s, l) && ConservedAt(c, s, k)
    ensures ConservedAt(c, Do(c, s, l), k)
  {
    var ch := ChannelOf(s, l.channel);
    assert ch.taken + ch.queue == (ch.taken + [ch.queue[0]]) + ch.queue[1..];
  }

  lemma ReceiveConserves(c: Config, s: State, k: Kind)
    requires Enabled(c, s, Receive) && ConservedAt(c, s, k) && s.dropped == []
    ensures ConservedAt(c, Do(c, s, Receive), k)
  {
    Snoc(k, [], s.received, Request(k, 0), s.wire[0]);
  }

  lemma PushConserves(c: Config, s: State, k: Kind)
    requires Enabled(c, s, PushReply) && ConservedAt(c, s, k) && s.dropped == []
    ensures ConservedAt(c, Do(c, s, PushReply), k)
  {
    var ch, ch' := ChannelOf(s, k), ChannelOf(Do(c, s, PushReply), k);
    assert ch'.taken == ch.taken;
    if s.phase.reply.kind == k {
      assert ch'.queue == ch.queue + Held(s, k);
      assert ch.taken + ch.queue + Held(s, k) == ch.taken + (ch.queue + Held(s, k));
    } else {
      assert ch' == ch && Held(s, k) == [];
    }
  }

  lemma DropConserves(c: Config, s: State, k: Kind)
    requires Enabled(c, s, DropReply) && ConservedAt(c, s, k) && s.dropped == []
    ensures ConservedAt(c, Do(c, s, DropReply), k)
  {
    assert s.dropped + [s.phase.reply] == [s.phase.reply];
  }

  lemma ConservedAtStep(c: Config, s: State, l: Label, k: Kind)
    requires Enabled(c, s, l) && ConservedAt(c, s, k)
    requires s.dropped != [] ==> Finished(s.phase)
    ensures ConservedAt(c, Do(c, s, l), k)
  {
    if !Transfers(l) { OthersKeepChannels(c, s, l); }
    else if l.Take? { TakeConserves(c, s, l, k); }
    else if l.Receive? { ReceiveConserves(c, s, k); }
    else if l.PushReply? { PushConserves(c, s, k); }
    else if l.DropReply? { DropConserves(c, s, k); }
  }

  lemma ReceiveConservesEvents(c: Config, s: State)
    requires Enabled(c, s, Receive) && EventsConserved(c, s)
    ensures EventsConserved(c, Do(c, s, Receive))
  {
    Snoc(Command, [], s.received, Request(Command, 0), s.wire[0]);
  }

  lemma PushConservesEvents(c: Config, s: State)
    requires Enabled(c, s, PushEvent) && EventsConserved(c, s)
    ensures EventsConserved(c, Do(c, s, PushEvent))
  {
    var ch := s.events;
    assert ch.taken + ch.queue + [s.phase.event] == ch.taken + (ch.queue + [s.phase.event]);
  }

  lemma HandleConservesEvents(c: Config, s: State, l: Label)
    requires l.Handle? && Enabled(c, s, l) && EventsConserved(c, s)
    ensures EventsConserved(c, Do(c, s, l))
  {
    var ch := s.events;
    assert ch.taken + ch.queue == (ch.taken + [ch.queue[0]]) + ch.queue[1..];
  }

  lemma EventsConservedStep(c: Config, s: State, l: Label)
    requires Enabled(c, s, l) && EventsConserved(c, s)
    ensures EventsConserved(c, Do(c, s, l))
  {
    if !Transfers(l) { OthersKeepChannels(c, s, l); }
    else if l.Receive? { ReceiveConservesEvents(c, s); }
    else if l.PushEvent? { PushConservesEvents(c, s); }
    else if l.Handle? { HandleConservesEvents(c, s, l); }
  }

  lemma DroppedLastStep(c: Config, s: State, l: Label)
    requires Enabled(c, s, l) && DroppedLast(s)
    ensures DroppedLast(Do(c, s, l))
  {
    if !Transfers(l) {
      OthersKeepChannels(c, s, l);
    }
  }

  lemma ConservedStep(c: Config, s: State, l: Label)
    requires Conserved(c, s) && Enabled(c, s, l)
    ensures Conserved(c, Do(c, s, l))
  {
    ConservedAtStep(c, s, l, Command);
    ConservedAtStep(c, s, l, Api);
    EventsConservedStep(c, s, l);
    DroppedLastStep(c, s, l);
  }

  lemma {:induction false} ConservedAlong(c: Config, s: State, ls: seq<Label>)
    requires Conserved(c, s) && Legal(c, s, ls)
    ensures Conserved(c, Run(c, s, ls))
    decreases |ls|
  {
    if ls != [] {
      ConservedStep(c, s, ls[0]);
      ConservedAlong(c, Do(c, s, ls[0]), ls[1..]);
    }
  }

  /** Demultiplexer conservation, in every reachable state. */
  lemma DemultiplexerConserves(c: Config, s: State)
    requires Reachable(c, s)
    ensures forall k :: RepliesOf(k, s.received)
                     == ChannelOf(s, k).taken + ChannelOf(s, k).queue + Held(s, k) + OfKind(k, s.dropped)
    ensures Generics(s.received) == s.events.taken + s.events.queue + HeldEvent(s)
    ensures forall k :: |ChannelOf(s, k).queue| <= c.cap
    ensures |s.events.queue| <= c.cap
    ensures s.dropped != [] ==> |s.dropped| == 1 && s.ctxDone && Finished(s.phase)
  {
    var ls :| Legal(c, INIT, ls) && Run(c, INIT, ls) == s;
    ConservedAlong(c, INIT, ls);
    assert ConservedAt(c, s, Command) && ConservedAt(c, s, Api);
  }
}
