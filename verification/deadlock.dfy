/** When the reader and the event callback wait on each other.

    The event channel is drained by the callback only, and a send to it ignores
    every context.  While the callback is inside SendBytes it drains nothing, so
    the events ahead of its reply have to fit. */
module Deadlock {
  import opened Machine
  import opened Lifecycle

  /** Generic events among the frames before the first reply. */
  function Ahead(frames: seq<Frame>): nat {
    if frames == [] || frames[0].Reply? then 0
    else (if frames[0].Generic? then 1 else 0) + Ahead(frames[1..])
  }

  /** Number of frames before the first reply. */
  function ToReply(frames: seq<Frame>): nat {
    if frames == [] || frames[0].Reply? then 0 else 1 + ToReply(frames[1..])
  }

  ghost predicate HasReply(frames: seq<Frame>) {
    exists i :: 0 <= i < |frames| && frames[i].Reply?
  }

  lemma {:induction false} FramesSnoc(frames: seq<Frame>, f: Frame)
    ensures Ahead(frames) <= Ahead(frames + [f]) <= Ahead(frames) + 1
    ensures HasReply(frames) ==> Ahead(frames + [f]) == Ahead(frames) && ToReply(frames + [f]) == ToReply(frames)
    ensures !HasReply(frames) && f.Generic? ==> Ahead(frames + [f]) == Ahead(frames) + 1
  {
    if frames == [] {
      assert frames + [f] == [f];
    } else {
      assert (frames + [f])[1..] == frames[1..] + [f];
      if !frames[0].Reply? {
        FramesSnoc(frames[1..], f);
        if HasReply(frames) {
          var i :| 0 <= i < |frames| && frames[i].Reply?;
          assert frames[1..][i - 1].Reply?;
        }
        if HasReply(frames[1..]) {
          var i :| 0 <= i < |frames[1..]| && frames[1..][i].Reply?;
          assert frames[i + 1].Reply?;
        }
      }
    }
  }

  lemma HasReplyTail(frames: seq<Frame>)
    requires frames != []
    ensures HasReply(frames) <==> frames[0].Reply? || HasReply(frames[1..])
  {
    if HasReply(frames) {
      var i :| 0 <= i < |frames| && frames[i].Reply?;
      assert i == 0 || frames[1..][i - 1].Reply?;
    }
    if HasReply(frames[1..]) {
      var i :| 0 <= i < |frames[1..]| && frames[1..][i].Reply?;
      assert frames[i + 1].Reply?;
    }
  }

  /** Events that need room in the channel before the first reply gets through. */
  function Load(s: State): nat {
    |s.events.queue| +
    (if s.phase.HoldingReply? then 0 else (if s.phase.HoldingEvent? then 1 else 0) + Ahead(s.wire))
  }

  /** A connected reader at work, and callback `i` the only callback alive and the
      only caller inside SendBytes. */
  ghost predicate Awaiting(s: State, i: nat) {
    && s.connected && !s.ctxDone
    && (s.phase == Top || s.phase == Receiving || s.phase.HoldingReply? || s.phase.HoldingEvent?)
    && s.waiting.Keys == {Callback(i)}
    && IsLive(s, i) && (forall j :: IsLive(s, j) ==> j == i)
  }

  /** Steps that neither start nor end a call, nor cut the connection or a context. */
  predicate Quiet(l: Label) {
    !(l.Write? || l.Take? || l.GiveUp? || l.Lose? || l.CancelContext? || l.Close?)
  }

  predicate AllQuiet(ls: seq<Label>) {
    forall l :: l in ls ==> Quiet(l)
  }

  predicate ReaderStep(l: Label) {
    l.Loop? || l.Receive? || l.PushReply? || l.PushEvent?
  }

  function ReaderSteps(ls: seq<Label>): nat {
    if ls == [] then 0 else (if ReaderStep(ls[0]) then 1 else 0) + ReaderSteps(ls[1..])
  }

  /** What the reader does next. */
  function ReaderMove(s: State): Label {
    match s.phase
    case Top => Loop
    case Receiving => Receive
    case HoldingReply(_) => PushReply
    case _ => PushEvent
  }

  /** A callback inside SendBytes takes no event and does not exit. */
  lemma CallbackBusy(c: Config, s: State, i: nat, l: Label)
    requires Enabled(c, s, l) && Callback(i) in s.waiting
    requires forall j :: IsLive(s, j) ==> j == i
    ensures !l.Handle? && !l.Exit?
  {
  }

  lemma QuietKeeps(c: Config, s: State, i: nat, l: Label)
    requires Awaiting(s, i) && Enabled(c, s, l) && Quiet(l)
    ensures ReaderStep(l) || l.Answer? || l.Emit?
    ensures ReaderStep(l) ==> l == ReaderMove(s)
    ensures Awaiting(Do(c, s, l), i)
  {
    assert Callback(i) in s.waiting;
    CallbackBusy(c, s, i, l);
    var s' := Do(c, s, l);
    assert s'.callbacks == s.callbacks && s'.waiting == s.waiting;
    assert forall j :: IsLive(s', j) ==> IsLive(s, j);
  }

  // ---- at most `cap` events: the reply arrives ------------------------------

  /** The reply has room and the events ahead of it fit. */
  ghost predicate Fits(c: Config, s: State, i: nat) {
    && Awaiting(s, i)
    && (s.phase.HoldingReply? || HasReply(s.wire))
    && |s.command.queue| < c.cap && |s.api.queue| < c.cap
    && Load(s) <= c.cap
  }

  /** Reader steps left until the first reply is queued. */
  function Distance(s: State): nat {
    match s.phase
    case HoldingReply(_) => 1
    case HoldingEvent(_) => 3 * ToReply(s.wire) + 4
    case Receiving => 3 * ToReply(s.wire) + 2
    case _ => 3 * ToReply(s.wire) + 3
  }

  lemma FitsStep(c: Config, s: State, i: nat, l: Label)
    requires Fits(c, s, i) && Enabled(c, s, l) && Quiet(l) && l != PushReply
    ensures var s' := Do(c, s, l);
      && Fits(c, s', i)
      && (if ReaderStep(l) then Distance(s') < Distance(s) else Distance(s') == Distance(s))
  {
    QuietKeeps(c, s, i, l);
    match l
    case Receive => HasReplyTail(s.wire);
    case Answer => FramesSnoc(s.wire, Reply(s.owed[0])); HasReplySnoc(s.wire, Reply(s.owed[0]));
    case Emit(f) => FramesSnoc(s.wire, f); HasReplySnoc(s.wire, f);
    case _ =>
  }

  lemma HasReplySnoc(frames: seq<Frame>, f: Frame)
    ensures HasReply(frames) ==> HasReply(frames + [f])
  {
    if HasReply(frames) {
      var i :| 0 <= i < |frames| && frames[i].Reply?;
      assert (frames + [f])[i].Reply?;
    }
  }

  lemma FitsMoves(c: Config, s: State, i: nat)
    requires Fits(c, s, i)
    ensures Enabled(c, s, ReaderMove(s)) && ReaderStep(ReaderMove(s)) && Quiet(ReaderMove(s))
  {
  }

  /** On every quiet run the reader is never blocked before the reply is queued,
      and gets there within `Distance` of its own steps. */
  lemma {:induction false} ReplyArrives(c: Config, s: State, i: nat, ls: seq<Label>)
    requires Fits(c, s, i) && Legal(c, s, ls) && AllQuiet(ls) && PushReply !in ls
    ensures var s' := Run(c, s, ls);
      && Fits(c, s', i)
      && Enabled(c, s', ReaderMove(s'))
      && Distance(s') + ReaderSteps(ls) <= Distance(s)
    decreases |ls|
  {
    if ls == [] {
      FitsMoves(c, s, i);
    } else {
      assert ls[0] in ls;
      FitsStep(c, s, i, ls[0]);
      ReplyArrives(c, Do(c, s, ls[0]), i, ls[1..]);
    }
  }

  /** The reader alone delivers it. */
  lemma {:induction false} DeliveringRun(c: Config, s: State, i: nat) returns (ls: seq<Label>)
    requires Fits(c, s, i)
    ensures Legal(c, s, ls) && AllQuiet(ls) && PushReply in ls
    decreases Distance(s)
  {
    var l := ReaderMove(s);
    FitsMoves(c, s, i);
    if l == PushReply {
      RunOne(c, s, l);
      ls := [l];
    } else {
      FitsStep(c, s, i, l);
      var rest := DeliveringRun(c, Do(c, s, l), i);
      ls := [l] + rest;
      assert ls[1..] == rest;
      assert PushReply in rest;
      var k :| 0 <= k < |rest| && rest[k] == PushReply;
      assert ls[k + 1] == PushReply;
    }
  }

  // ---- more than `cap` events: deadlock -------------------------------------

  /** No reply is queued and the events ahead of the next one do not fit. */
  ghost predicate Overfull(c: Config, s: State, i: nat) {
    && Awaiting(s, i)
    && s.command.queue == [] && s.api.queue == []
    && |s.events.queue| <= c.cap
    && Load(s) > c.cap
  }

  lemma OverfullStep(c: Config, s: State, i: nat, l: Label)
    requires Overfull(c, s, i) && Enabled(c, s, l) && Quiet(l)
    ensures l != PushReply
    ensures Overfull(c, Do(c, s, l), i)
    ensures ReaderStep(l) ==> 3 * |Do(c, s, l).wire| + Rank(Do(c, s, l).phase) < 3 * |s.wire| + Rank(s.phase)
  {
    QuietKeeps(c, s, i, l);
    match l
    case Answer => FramesSnoc(s.wire, Reply(s.owed[0]));
    case Emit(f) => FramesSnoc(s.wire, f);
    case _ =>
  }

  function Rank(p: Phase): nat {
    if p.HoldingEvent? then 2 else if p == Top then 1 else 0
  }

  /** On no quiet run is a reply queued: the callback waits on. */
  lemma {:induction false} ReplyNeverArrives(c: Config, s: State, i: nat, ls: seq<Label>)
    requires Overfull(c, s, i) && Legal(c, s, ls) && AllQuiet(ls)
    ensures PushReply !in ls && Overfull(c, Run(c, s, ls), i)
    decreases |ls|
  {
    if ls != [] {
      assert ls[0] in ls;
      OverfullStep(c, s, i, ls[0]);
      ReplyNeverArrives(c, Do(c, s, ls[0]), i, ls[1..]);
    }
  }

  /** Exact deadlock threshold: with the reply on its way and both reply channels
      empty, the reply to the waiting callback can be delivered (and then is, on
      every quiet run) if and only if the events queued plus those ahead of the
      reply number at most the capacity of the event channel. */
  lemma DeadlockThreshold(c: Config, s: State, i: nat)
    requires c.cap > 0 && Awaiting(s, i) && |s.events.queue| <= c.cap
    requires s.phase.HoldingReply? || HasReply(s.wire)
    requires s.command.queue == [] && s.api.queue == []
    ensures (exists ls :: Legal(c, s, ls) && AllQuiet(ls) && PushReply in ls) <==> Load(s) <= c.cap
  {
    if Load(s) <= c.cap {
      var ls := DeliveringRun(c, s, i);
    } else {
      forall ls | Legal(c, s, ls) && AllQuiet(ls)
        ensures PushReply !in ls
      {
        ReplyNeverArrives(c, s, i, ls);
      }
    }
  }

  /** Reader and callback wait on each other: the reader on a full event channel,
      the only callback alive on a reply that is not queued. */
  ghost predicate Deadlocked(c: Config, s: State, i: nat) {
    && s.phase.HoldingEvent? && |s.events.queue| >= c.cap
    && s.command.queue == [] && s.api.queue == []
    && Callback(i) in s.waiting
    && IsLive(s, i) && (forall j :: IsLive(s, j) ==> j == i)
  }

  /** The reader runs into the deadlock by its own steps. */
  lemma {:induction false} DeadlockingRun(c: Config, s: State, i: nat) returns (ls: seq<Label>)
    requires Overfull(c, s, i)
    ensures Legal(c, s, ls) && AllQuiet(ls)
    ensures Deadlocked(c, Run(c, s, ls), i) && Overfull(c, Run(c, s, ls), i)
    decreases 3 * |s.wire| + Rank(s.phase)
  {
    if s.phase.HoldingEvent? && |s.events.queue| >= c.cap {
      assert Callback(i) in s.waiting;
      ls := [];
    } else {
      var l := ReaderMove(s);
      assert s.phase == Receiving ==> s.wire != [];
      OverfullStep(c, s, i, l);
      var rest := DeadlockingRun(c, Do(c, s, l), i);
      ls := [l] + rest;
      assert ls[1..] == rest;
    }
  }

  lemma DeadlockedStep(c: Config, s: State, i: nat, l: Label)
    requires Deadlocked(c, s, i) && Enabled(c, s, l) && l != GiveUp(Callback(i))
    ensures Deadlocked(c, Do(c, s, l), i) && Do(c, s, l).phase == s.phase
  {
    CallbackBusy(c, s, i, l);
    var s' := Do(c, s, l);
    assert |s'.callbacks| == |s.callbacks|;
    assert forall j :: 0 <= j < |s.callbacks| ==> s'.callbacks[j].live == s.callbacks[j].live;
    assert forall j :: IsLive(s', j) ==> IsLive(s, j);
  }

  /** Nothing undoes the deadlock but the cancellation of the callback's own call:
      not Close, not the reader's context, not other callers, not the peer. */
  lemma {:induction false} DeadlockPersists(c: Config, s: State, i: nat, ls: seq<Label>)
    requires Deadlocked(c, s, i) && Legal(c, s, ls) && GiveUp(Callback(i)) !in ls
    ensures Deadlocked(c, Run(c, s, ls), i) && Run(c, s, ls).phase == s.phase
    decreases |ls|
  {
    if ls != [] {
      assert ls[0] in ls;
      DeadlockedStep(c, s, i, ls[0]);
      DeadlockPersists(c, Do(c, s, ls[0]), i, ls[1..]);
    }
  }

  /** Cancelling it lets the callback drain the channel again. */
  lemma CancellingBreaksIt(c: Config, s: State, i: nat)
    requires Deadlocked(c, s, i) && c.cap > 0
    ensures Enabled(c, s, GiveUp(Callback(i)))
    ensures var s1 := Do(c, s, GiveUp(Callback(i)));
      Enabled(c, s1, Handle(i)) && (|s.events.queue| == c.cap ==> Enabled(c, Do(c, s1, Handle(i)), PushEvent))
  {
  }
}
