/** The receive loop of HandleEvents, run while no other goroutine moves: frames are
    received, told apart and put into the three channels, until a channel is full or
    the connection is lost. */
module Handling {
  import opened Text
  import opened Mime
  import opened Events
  import F = Frames
  import L = Fslog
  import opened FrameKinds
  import opened Connections

  datatype LoopEnd =
    | More                    // the given number of frames was read
    | ContextDone             // found the context done
    | Disconnected            // found the connection closed
    | Halts(why: Halt)        // stopped at an outcome

  datatype Halt =
    | WouldBlock(held: Event) // a full channel: the loop waits holding this event
    | GoesToRedial            // lost, and reset comes next
    | Ends                    // lost, and HandleEvents returns
    | Crash                   // recvEvent panicked

  /** The events of one type among outcomes, in order. */
  function OfType(kind: EventType, outs: seq<Outcome>): seq<Event> {
    if outs == [] then []
    else
      var last := outs[|outs| - 1];
      OfType(kind, outs[..|outs| - 1]) + (if last.Received? && last.event.kind == kind then [last.event] else [])
  }

  lemma OfTypeSnoc(kind: EventType, outs: seq<Outcome>, out: Outcome)
    ensures OfType(kind, outs + [out])
         == OfType(kind, outs) + (if out.Received? && out.event.kind == kind then [out.event] else [])
  {
    assert (outs + [out])[..|outs|] == outs;
  }

  /** The log lines among outcomes, converted; those with an unreadable line number
      are left out. */
  function LogsOf(outs: seq<Outcome>): seq<L.Fslog> {
    if outs == [] then [] else LogsOf(outs[..|outs| - 1]) + LogOf(outs[|outs| - 1])
  }

  function LogOf(out: Outcome): seq<L.Fslog> {
    if out.Received? && L.Convert(out.event).Converted? then [L.Convert(out.event).fslog] else []
  }

  /** Outcomes the loop goes on after, if there is room. */
  predicate Harmless(out: Outcome) {
    out.Received? || (out.Rejected? && !ConnLost(out.error))
  }

  predicate AllHarmless(outs: seq<Outcome>) {
    forall i :: 0 <= i < |outs| ==> Harmless(outs[i])
  }

  /** What the loop has handed on: the three channels, and the calls of OnFslog and
      OnDisconnect. */
  datatype Handed = Handed(cmdReply: seq<Event>, apiResp: seq<Event>, events: seq<Event>,
                           logs: seq<L.Fslog>, notices: seq<Event>)

  /** One outcome handed on: the switch over the event type. */
  function HandOne(h: Handed, out: Outcome): Handed {
    if !out.Received? then h
    else
      match out.event.kind
      case CommandReply => h.(cmdReply := h.cmdReply + [out.event])
      case ApiResponse => h.(apiResp := h.apiResp + [out.event])
      case Generic => h.(events := h.events + [out.event])
      case Log => h.(logs := h.logs + LogOf(out))
      case Disconnect => h.(notices := h.notices + [out.event])
      case _ => h
  }

  function Fold<A, S>(step: (A, S) -> A, start: A, xs: seq<S>): A {
    if xs == [] then start else step(Fold(step, start, xs[..|xs| - 1]), xs[|xs| - 1])
  }

  lemma FoldSnoc<A, S>(step: (A, S) -> A, start: A, xs: seq<S>, x: S)
    ensures Fold(step, start, xs + [x]) == step(Fold(step, start, xs), x)
  {
    assert (xs + [x])[..|xs|] == xs;
  }

  function HandOn(h: Handed, outs: seq<Outcome>): Handed {
    Fold(HandOne, h, outs)
  }

  /** Every event is put where its type belongs, in arrival order. */
  lemma {:induction false} HandedByType(h: Handed, outs: seq<Outcome>)
    ensures HandOn(h, outs) == Handed(
      h.cmdReply + OfType(CommandReply, outs), h.apiResp + OfType(EventType.ApiResponse, outs),
      h.events + OfType(EventType.Generic, outs), h.logs + LogsOf(outs), h.notices + OfType(EventType.Disconnect, outs))
    decreases |outs|
  {
    if outs != [] {
      HandedByType(h, outs[..|outs| - 1]);
    }
  }

  predicate Within(h: Handed, cap: nat) {
    |h.cmdReply| <= cap && |h.apiResp| <= cap && |h.events| <= cap
  }

  /** The channel for events of this type has no room. */
  predicate Full(h: Handed, kind: EventType, cap: nat) {
    match kind
    case CommandReply => |h.cmdReply| >= cap
    case ApiResponse => |h.apiResp| >= cap
    case Generic => |h.events| >= cap
    case _ => false
  }

  /** What the loop stops at, and why. */
  predicate Stops(end: LoopEnd, out: Outcome, h: Handed, cap: nat, autoRedial: bool) {
    end.Halts? &&
    match end.why
    case Crash => out == Panicked
    case GoesToRedial => out.Rejected? && ConnLost(out.error) && autoRedial
    case Ends => out.Rejected? && ConnLost(out.error) && !autoRedial
    case WouldBlock(held) => out == Received(held) && Full(h, held.kind, cap)
  }

  /** How far the loop is: the stream it began with and what is left of it, what was
      handed on before and what is now. */
  datatype Account = Account(read: string -> (Outcome, string), stream: string, left: string,
                             start: Handed, now: Handed, cap: nat, autoRedial: bool) {
    /** `outs` have been read, all harmless, and their events are where they belong. */
    ghost predicate Progress(outs: seq<Outcome>) {
      (outs, left) == F.Iterate(read, stream, |outs|) && InPlace(outs)
    }

    /** ... and one outcome more, which the loop stopped at. */
    ghost predicate StoppedAt(outs: seq<Outcome>, end: LoopEnd, last: Outcome) {
      && (outs + [last], left) == F.Iterate(read, stream, |outs| + 1)
      && InPlace(outs) && Stops(end, last, now, cap, autoRedial)
    }

    ghost predicate InPlace(outs: seq<Outcome>) {
      now == HandOn(start, outs) && AllHarmless(outs) && (Within(start, cap) ==> Within(now, cap))
    }
  }

  class EventLoop {
    const conn: Connection
    const sendReplyCap: nat
    var cmdReply: seq<Event>
    var apiResp: seq<Event>
    var events: seq<Event>
    var logs: seq<L.Fslog>     // handed to OnFslog
    var notices: seq<Event>    // handed to OnDisconnect

    constructor (conn: Connection, sendReplyCap: nat)
      ensures this.conn == conn && this.sendReplyCap == sendReplyCap
      ensures View() == Handed([], [], [], [], [])
    {
      this.conn, this.sendReplyCap := conn, sendReplyCap;
      cmdReply, apiResp, events, logs, notices := [], [], [], [], [];
    }

    function View(): Handed
      reads this
    {
      Handed(cmdReply, apiResp, events, logs, notices)
    }

    /** What the loop has done since it found the stream `s` and had handed on `start`. */
    ghost function Since(s: string, start: Handed): Account
      reads this, conn, conn.reader
    {
      Account(ReadOf(conn.autoRedial && conn.closing), s, conn.Input(), start, View(), sendReplyCap, conn.autoRedial)
    }

    /** `n` rounds of the loop, while nobody drains the channels; if `done`, the
        context is found done in the round after.  `outs` are the outcomes of the
        rounds completed: their events are in the channels, in arrival order. */
    method HandleEvents(n: nat, done: bool) returns (end: LoopEnd, ghost outs: seq<Outcome>, ghost last: Outcome)
      modifies this, conn.reader
      ensures outs != [] ==> conn.connected
      ensures end.More? || end.ContextDone? ==> |outs| == n && (end.ContextDone? <==> done && conn.connected)
      ensures end.Disconnected? ==> !conn.connected && outs == []
      ensures !end.Halts? ==> Since(old(conn.Input()), old(View())).Progress(outs)
      ensures end.Halts? ==>
        conn.connected && |outs| < n && Since(old(conn.Input()), old(View())).StoppedAt(outs, end, last)
    {
      outs, last := [], Panicked;
      ghost var s, start := conn.Input(), View();
      var handled := 0;
      while handled < n
        invariant handled == |outs| <= n && Since(s, start).Progress(outs)
        invariant handled > 0 ==> conn.connected
      {
        if !conn.connected {
          return Disconnected, outs, last;
        }
        var out, stop := Round(s, start, outs);
        if stop.Some? {
          return stop.value, outs, out;
        }
        outs := outs + [out];
        handled := handled + 1;
      }
      return if done && conn.connected then ContextDone else More, outs, last;
    }

    /** One round. */
    method Round(ghost s: string, ghost start: Handed, ghost outs: seq<Outcome>)
      returns (out: Outcome, stop: Option<LoopEnd>)
      requires Since(s, start).Progress(outs)
      modifies this, conn.reader
      ensures stop.Some? ==> stop.value.Halts? && Since(s, start).StoppedAt(outs, stop.value, out)
      ensures stop == None ==> Since(s, start).Progress(outs + [out])
    {
      out := Next(s, outs);
      if out.Panicked? {
        return out, Some(Halts(Crash));
      }
      if out.Rejected? && ConnLost(out.error) {
        return out, Some(Halts(if conn.autoRedial then GoesToRedial else Ends));
      }
      if out.Received? && Full(View(), out.event.kind, sendReplyCap) {
        return out, Some(Halts(WouldBlock(out.event)));
      }
      Accept(out, start, outs);
      stop := None;
    }

    /** The next recvEvent on the stream that began with `s`. */
    method Next(ghost s: string, ghost outs: seq<Outcome>) returns (out: Outcome)
      requires (outs, conn.Input()) == F.Iterate(ReadOf(conn.autoRedial && conn.closing), s, |outs|)
      modifies conn.reader
      ensures (outs + [out], conn.Input()) == F.Iterate(ReadOf(conn.autoRedial && conn.closing), s, |outs| + 1)
    {
      ghost var read := ReadOf(conn.autoRedial && conn.closing);
      ghost var left := conn.Input();
      F.IterateSnoc(read, s, |outs|);
      out := conn.RecvEvent();
      assert (out, conn.Input()) == read(left);
    }

    /** One harmless outcome with room for it. */
    method Accept(out: Outcome, ghost start: Handed, ghost outs: seq<Outcome>)
      requires View() == HandOn(start, outs)
      requires Harmless(out) && (out.Received? ==> !Full(View(), out.event.kind, sendReplyCap))
      modifies this
      ensures View() == HandOn(start, outs + [out])
      ensures Within(old(View()), sendReplyCap) ==> Within(View(), sendReplyCap)
    {
      FoldSnoc(HandOne, start, outs, out);
      if out.Received? {
        Dispatch(out.event);
      }
    }

    /** The switch over the event type. */
    method Dispatch(e: Event)
      modifies this
      ensures cmdReply == old(cmdReply) + (if e.kind == CommandReply then [e] else [])
      ensures apiResp == old(apiResp) + (if e.kind == EventType.ApiResponse then [e] else [])
      ensures events == old(events) + (if e.kind == EventType.Generic then [e] else [])
      ensures logs == old(logs) + LogOf(Received(e))
      ensures notices == old(notices) + (if e.kind == EventType.Disconnect then [e] else [])
    {
      match e.kind {
        case Disconnect => notices := notices + [e];
        case CommandReply => cmdReply := cmdReply + [e];
        case ApiResponse => apiResp := apiResp + [e];
        case Generic => events := events + [e];
        case Log =>
          var fslog := L.Event2Fslog(e);
          if fslog.Converted? {
            logs := logs + [fslog.fslog];
          }
        case _ =>
      }
    }
  }

  // ---- by Content-Type ---------------------------------------------------------------

  /** The events of the accepted frames with one of some Content-Types, in order. */
  function Accepted(cts: seq<string>, fs: seq<F.Frame>): seq<Event> {
    if fs == [] then [] else Accepted(cts, fs[..|fs| - 1]) + AcceptedOne(cts, fs[|fs| - 1])
  }

  function AcceptedOne(cts: seq<string>, f: F.Frame): seq<Event> {
    if FirstValue(f.fields, "Content-Type") in cts && F.Meaning(f).Received? then [F.Meaning(f).event] else []
  }

  /** The log lines among frames: those that have a line number. */
  function LogLines(fs: seq<F.Frame>): seq<L.Fslog> {
    if fs == [] then [] else LogLines(fs[..|fs| - 1]) + LogLine(fs[|fs| - 1])
  }

  function LogLine(f: F.Frame): seq<L.Fslog> {
    var number := Atoi(FirstValue(f.fields, "Log-Line"));
    if FirstValue(f.fields, "Content-Type") != "log/data" || number.None? then []
    else [L.Fslog(TrimSpace(f.body), FirstValue(f.fields, "Log-File"), FirstValue(f.fields, "User-Data"),
                  FirstValue(f.fields, "Log-Func"), number.value, L.Level(FirstValue(f.fields, "Log-Level")))]
  }

  const NOTICES: seq<string> := ["text/disconnect-notice", "text/rude-rejection"]

  /** What was handed on, and more behind it. */
  function Behind(h: Handed, more: Handed): Handed {
    Handed(h.cmdReply + more.cmdReply, h.apiResp + more.apiResp, h.events + more.events,
           h.logs + more.logs, h.notices + more.notices)
  }

  /** What frames bring to the three channels and the two handlers. */
  function Delivered(fs: seq<F.Frame>): Handed {
    Handed(Accepted(["command/reply"], fs), Accepted(["api/response"], fs), Accepted(["text/event-plain"], fs),
           LogLines(fs), Accepted(NOTICES, fs))
  }

  function DeliveredOne(f: F.Frame): Handed {
    Handed(AcceptedOne(["command/reply"], f), AcceptedOne(["api/response"], f), AcceptedOne(["text/event-plain"], f),
           LogLine(f), AcceptedOne(NOTICES, f))
  }

  /** Over a printed stream everything goes by Content-Type: whatever the bodies hold,
      and however many frames between are rejected, the channels and the handlers get
      exactly the accepted frames of their Content-Types, in order. */
  lemma {:induction false} ChannelsByContentType(h: Handed, fs: seq<F.Frame>)
    requires F.AllWellFormed(fs)
    ensures HandOn(h, F.Meanings(fs)) == Behind(h, Delivered(fs))
    decreases |fs|
  {
    if fs != [] {
      var before, last := fs[..|fs| - 1], fs[|fs| - 1];
      ChannelsByContentType(h, before);
      MeaningsSnoc(fs);
      FoldSnoc(HandOne, h, F.Meanings(before), F.Meaning(last));
      OneByContentType(HandOn(h, F.Meanings(before)), last);
      HandedTwice(h, HandOn(h, F.Meanings(before)), HandOn(h, F.Meanings(fs)),
                  Delivered(before), DeliveredOne(last));
    }
  }

  lemma HandedTwice(h: Handed, h1: Handed, h2: Handed, a: Handed, b: Handed)
    requires h1 == Behind(h, a) && h2 == Behind(h1, b)
    ensures h2 == Behind(h, Behind(a, b))
  {
    F.Regroup(h.cmdReply, a.cmdReply, b.cmdReply);
    F.Regroup(h.apiResp, a.apiResp, b.apiResp);
    F.Regroup(h.events, a.events, b.events);
    F.Regroup(h.logs, a.logs, b.logs);
    F.Regroup(h.notices, a.notices, b.notices);
  }

  lemma OneByContentType(h: Handed, f: F.Frame)
    requires F.WellFormed(f)
    ensures HandOne(h, F.Meaning(f)) == Behind(h, DeliveredOne(f))
  {
    var out := F.Meaning(f);
    AcceptedByKind(f);
    LogByKind(f);
    OneByKind(h, out);
  }

  /** The event of an outcome, if it has this type. */
  function OfKind(kind: EventType, out: Outcome): seq<Event> {
    if out.Received? && out.event.kind == kind then [out.event] else []
  }

  lemma OneByKind(h: Handed, out: Outcome)
    ensures HandOne(h, out) == Behind(h, Handed(
      OfKind(CommandReply, out), OfKind(EventType.ApiResponse, out), OfKind(EventType.Generic, out),
      LogOf(out), OfKind(EventType.Disconnect, out)))
  {
  }

  lemma AcceptedByKind(f: F.Frame)
    requires F.WellFormed(f)
    ensures AcceptedOne(["command/reply"], f) == OfKind(CommandReply, F.Meaning(f))
    ensures AcceptedOne(["api/response"], f) == OfKind(EventType.ApiResponse, F.Meaning(f))
    ensures AcceptedOne(["text/event-plain"], f) == OfKind(EventType.Generic, F.Meaning(f))
    ensures AcceptedOne(NOTICES, f) == OfKind(EventType.Disconnect, F.Meaning(f))
  {
    var ct := FirstValue(f.fields, "Content-Type");
    assert ct in NOTICES <==> ct == NOTICES[0] || ct == NOTICES[1];
    if F.Meaning(f).Received? {
      KindExactly(f);
    }
  }

  lemma LogByKind(f: F.Frame)
    requires F.WellFormed(f)
    ensures LogLine(f) == LogOf(F.Meaning(f))
  {
    if FirstValue(f.fields, "Content-Type") == "log/data" {
      ContentExactly("log/data");
      L.LogMeans(f, "Log-Line");
      L.LogMeans(f, "Log-File");
      L.LogMeans(f, "User-Data");
      L.LogMeans(f, "Log-Func");
      L.LogMeans(f, "Log-Level");
    } else if F.Meaning(f).Received? {
      KindExactly(f);
    }
  }

  lemma MeaningsSnoc(fs: seq<F.Frame>)
    requires fs != []
    ensures F.Meanings(fs) == F.Meanings(fs[..|fs| - 1]) + [F.Meaning(fs[|fs| - 1])]
  {
    SplitLast(fs);
    F.MeaningsAppend(fs[..|fs| - 1], fs[|fs| - 1]);
  }

  lemma SplitLast<T>(s: seq<T>)
    requires s != []
    ensures s == s[..|s| - 1] + [s[|s| - 1]]
  {
  }
}
