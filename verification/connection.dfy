/** The connection object of connection.go, run by one goroutine: recvEvent, auth,
    dialTimes, reset and Close, each against its specification. */
module Connections {
  import opened Text
  import M = Mime
  import opened Events
  import F = Frames
  import R = Readers
  import opened Redial
  import opened Machine

  /** The outcome of one net.DialTimeout: refused, or a connection and the reads it
      will deliver. */
  datatype DialOutcome = Refused | Dialled(chunks: seq<string>)

  datatype DialResult =
    | DialOk(chunks: seq<string>)
    | DialFailed
    | DialPending   // unbounded retries, and every dial so far was refused

  datatype AuthResult =
    | Accepted
    | BadPreamble
    | ReplyLost
    | BadReplyType
    | RefusedBy(text: string)
    | AuthPanicked

  /** The error reset is called with. */
  datatype Former = NoError | Lost(cause: Cause) | Cancelled

  /** Errors reset gives up on: net.ErrClosed and context.Canceled. */
  predicate GivesUp(former: Former) {
    former == Lost(Closed) || former == Cancelled
  }

  datatype ResetResult = ResetOk | GaveUp | ResetDialFailed | ResetPending | ResetAuth(auth: AuthResult)

  function AuthOf(r: ResetResult): AuthResult {
    if r.ResetAuth? then r.auth else Accepted
  }

  /** What reset sleeps: nothing on the first dial or when it gives up. */
  function Sleeps(former: Former, maxRetries: int, network: seq<DialOutcome>, k: nat): seq<int> {
    if former == NoError || GivesUp(former) then [] else Waits(k, Refusals(maxRetries, network))
  }

  /** How many dials reset sees refused. */
  function FailedDials(former: Former, maxRetries: int, network: seq<DialOutcome>): nat {
    if GivesUp(former) then 0
    else if former == NoError then (if network != [] && network[0] == Refused then 1 else 0)
    else Refusals(maxRetries, network)
  }

  /** Attempts until one is not refused. */
  function FirstDialled(network: seq<DialOutcome>): (n: nat)
    ensures n <= |network|
    ensures forall i :: 0 <= i < n ==> network[i] == Refused
    ensures n < |network| ==> network[n].Dialled?
  {
    if network == [] || network[0].Dialled? then 0
    else
      var n := 1 + FirstDialled(network[1..]);
      assert forall i :: 1 <= i < n ==> network[i] == network[1..][i - 1];
      n
  }

  lemma FirstDialledIs(network: seq<DialOutcome>, n: nat)
    requires n <= |network| && (forall i :: 0 <= i < n ==> network[i] == Refused)
    requires n < |network| ==> network[n].Dialled?
    ensures FirstDialled(network) == n
  {
  }

  lemma FirstDialledAfter(network: seq<DialOutcome>, n: nat)
    requires n <= |network| && (forall i :: 0 <= i < n ==> network[i] == Refused)
    ensures FirstDialled(network) >= n
  {
  }

  /** How many dials a retry loop sees refused: those before the first success, and
      no more than `maxRetries + 1` if that is a bound. */
  function Refusals(maxRetries: int, network: seq<DialOutcome>): nat {
    var n := FirstDialled(network);
    if 0 <= maxRetries < n then maxRetries + 1 else n
  }

  /** recvEvent as a function of the bytes to come; setting the deadline of a shut
      socket fails in autoRedial mode. */
  function ReadOf(noDeadline: bool): string -> (Outcome, string) {
    if noDeadline then FailAtOnce else F.Receive
  }

  function FailAtOnce(s: string): (Outcome, string) {
    (Rejected(AtEnd), s)
  }

  /** auth on the bytes a fresh connection delivers. */
  function Authenticate(s: string): (AuthResult, string) {
    var (greeting, s1) := F.Receive(s);
    match greeting
    case Panicked => (AuthPanicked, s1)
    case Rejected(_) => (BadPreamble, s1)
    case Received(e) =>
      if e.kind != EventType.Auth then (BadPreamble, s1)
      else
        var (reply, s2) := F.Receive(s1);
        (AuthReply(reply), s2)
  }

  /** What auth makes of the frame behind the greeting, whoever it was meant for. */
  function AuthReply(reply: Outcome): AuthResult {
    match reply
    case Panicked => AuthPanicked
    case Rejected(_) => ReplyLost
    case Received(r) =>
      if r.kind != CommandReply then BadReplyType
      else if HasPrefix(r.Get("Reply-Text"), ERR_PREFIX) then RefusedBy(r.Get("Reply-Text")[5..])
      else Accepted
  }

  /** The flags and callbacks, as the step machine sees them. */
  datatype Life = Life(connected: bool, onceUsed: bool, callbacks: seq<CallbackState>,
                       srWg: int, onCloses: nat, dials: nat)

  function CloseLife(v: Life): Life {
    if v.onceUsed then v
    else v.(onceUsed := true, connected := false,
            onCloses := v.onCloses + (if v.connected then 1 else 0),
            callbacks := CancelLast(v.callbacks))
  }

  function CancelLast(cbs: seq<CallbackState>): seq<CallbackState> {
    if cbs == [] then [] else cbs[|cbs| - 1 := cbs[|cbs| - 1].(cancelled := true)]
  }

  /** A new connection, with its callback if auth went well. */
  function EstablishLife(v: Life, authenticated: bool): Life {
    var up := v.(connected := true, onceUsed := false, dials := v.dials + 1);
    if authenticated then SpawnLife(up) else up
  }

  function SpawnLife(v: Life): Life {
    v.(callbacks := v.callbacks + [CallbackState(true, false)], srWg := v.srWg + 1)
  }

  /** reset on the flags and callbacks: Close first unless this is the first dial. */
  function ResetLife(v: Life, former: Former, result: ResetResult): Life {
    var closed := if former == NoError then v else CloseLife(v);
    match result
    case GaveUp => v
    case ResetDialFailed => closed
    case ResetPending => closed
    case ResetAuth(_) => EstablishLife(closed, false)
    case ResetOk => EstablishLife(closed, true)
  }

  class Connection {
    const autoRedial: bool
    const maxRetries: int
    const password: string
    const strategy: DefaultRedoStrategy

    var reader: R.Reader
    var closing: bool                  // the socket is shut: setting a deadline fails
    var sent: string                   // bytes written to the current socket

    var connected: bool
    var onceUsed: bool
    var callbacks: seq<CallbackState>  // the canceler is the last one's
    var srWg: int

    var onCloses: nat
    var dials: nat                     // connections made
    var attempts: nat                  // dials tried
    var slept: seq<int>                // sleeps between them

    /** What Dial prepares before its first reset. */
    constructor (autoRedial: bool, maxRetries: int, password: string, strategy: DefaultRedoStrategy)
      ensures this.autoRedial == autoRedial && this.maxRetries == maxRetries
      ensures this.password == password && this.strategy == strategy
      ensures View() == Life(false, true, [], 0, 0, 0)
      ensures attempts == 0 && slept == [] && fresh(reader)
    {
      this.autoRedial, this.maxRetries, this.password, this.strategy := autoRedial, maxRetries, password, strategy;
      var none := new R.Reader([]);
      reader, closing, sent := none, false, "";
      connected, onceUsed, callbacks, srWg := false, true, [], 0;
      onCloses, dials, attempts, slept := 0, 0, 0, [];
    }

    function View(): Life
      reads this
    {
      Life(connected, onceUsed, callbacks, srWg, onCloses, dials)
    }

    /** The bytes recvEvent can still read: those already buffered, and those the
        network delivers until the socket is shut. */
    function Input(): string
      reads this, reader
    {
      if closing then reader.buf else reader.Stream()
    }

    /** recvEvent: whatever the chunks, the outcome and the bytes left are those of
        the whole stream.  In autoRedial mode a shut socket fails before reading. */
    method RecvEvent() returns (out: Outcome)
      modifies reader
      ensures autoRedial && closing ==> out == Rejected(AtEnd) && Input() == old(Input())
      ensures !(autoRedial && closing) ==> (out, Input()) == F.Receive(old(Input()))
    {
      if autoRedial && closing {
        return Rejected(AtEnd);
      }
      if closing {
        reader.Cut();
        out := ReadEvent();
        assert reader.Stream() == reader.buf;
      } else {
        out := ReadEvent();
      }
    }

    /** recvEvent behind the deadline: a frame off the reader. */
    method ReadEvent() returns (out: Outcome)
      modifies reader
      ensures (out, reader.Stream()) == F.Receive(old(reader.Stream()))
      ensures old(reader.chunks) == [] ==> reader.chunks == []
    {
      var block := reader.ReadHeader();
      if block.Malformed? {
        return Rejected(if block.cut then AtEnd else HeaderMalformed);
      }
      out := ReadBody(block.headers);
    }

    /** ... and behind the header block. */
    method ReadBody(h: M.Headers) returns (out: Outcome)
      modifies reader
      ensures (out, reader.Stream()) == F.ReceiveBody(h, M.Get(h, "Content-Length"), old(reader.Stream()))
      ensures old(reader.chunks) == [] ==> reader.chunks == []
    {
      var slen := M.Get(h, "Content-Length");
      var rawBody := "";
      if slen != "" {
        var l := Atoi(slen);
        if l.None? {
          return Rejected(LengthMalformed);
        }
        if l.value < 0 {
          return Panicked;
        }
        var body := reader.ReadFull(l.value);
        if body.None? {
          return Rejected(BodyCut);
        }
        rawBody := body.value;
      }
      out := Classify(Event(MimeMap(h, false), NO_HEADERS, rawBody, Invalid));
    }

    /** auth: greeting, password, reply. */
    method Auth() returns (r: AuthResult)
      requires !closing
      modifies this`sent, this`closing, reader
      ensures (r, reader.Stream()) == Authenticate(old(reader.Stream()))
      ensures sent == old(sent) || sent == old(sent) + "auth " + password + "\r\n\r\n"
      ensures r == BadPreamble ==> sent == old(sent)
      ensures r != BadPreamble && r != AuthPanicked ==> sent == old(sent) + "auth " + password + "\r\n\r\n"
      ensures closing <==> r == BadPreamble || r == ReplyLost || r == BadReplyType
    {
      var greeting := RecvEvent();
      if greeting.Panicked? {
        return AuthPanicked;
      }
      if greeting.Rejected? || greeting.event.kind != EventType.Auth {
        closing := true;
        return BadPreamble;
      }
      sent := sent + "auth " + password + "\r\n\r\n";
      var reply := RecvEvent();
      if reply.Panicked? {
        return AuthPanicked;
      }
      if reply.Rejected? {
        closing := true;
        return ReplyLost;
      }
      if reply.event.kind != CommandReply {
        closing := true;
        return BadReplyType;
      }
      var text := reply.event.Get("Reply-Text");
      if HasPrefix(text, ERR_PREFIX) {
        return RefusedBy(text[5..]);
      }
      return Accepted;
    }

    /** dialTimes.  `network` is the outcome of each attempt in turn; `k` is the
        number of waits the strategy has handed out since its last reset. */
    method DialTimes(retry: bool, network: seq<DialOutcome>, ghost k: nat) returns (r: DialResult)
      requires strategy.redoWaited == Stored(k)
      requires !retry ==> network != []
      requires maxRetries >= 0 ==> |network| > maxRetries
      modifies this`attempts, this`slept, strategy
      ensures !retry ==>
        && r == (if network[0].Dialled? then DialOk(network[0].chunks) else DialFailed)
        && attempts == old(attempts) + 1 && slept == old(slept) && strategy.redoWaited == Stored(k)
      ensures retry ==>
        var n := Refusals(maxRetries, network);
        && attempts == old(attempts) + n + (if r.DialOk? then 1 else 0)
        && slept == old(slept) + Waits(k, n)
        && (r.DialOk? ==> n == FirstDialled(network) < |network| && r == DialOk(network[n].chunks)
                          && strategy.redoWaited == Stored(if n > 0 then 0 else k))
        && (r == DialFailed ==> maxRetries >= 0 && n == maxRetries + 1 && strategy.redoWaited == Stored(k + n))
        && (r == DialPending ==> maxRetries < 0 && n == |network|)
      ensures r == DialPending ==> retry
    {
      if !retry {
        attempts := attempts + 1;
        return if network[0].Dialled? then DialOk(network[0].chunks) else DialFailed;
      }
      var i := 0;
      while (i <= maxRetries || maxRetries < 0) && i < |network|
        invariant 0 <= i <= |network| && (maxRetries >= 0 ==> i <= maxRetries + 1)
        invariant forall j :: 0 <= j < i ==> network[j] == Refused
        invariant attempts == old(attempts) + i && slept == old(slept) + Waits(k, i)
        invariant strategy.redoWaited == Stored(k + i)
        decreases |network| - i
      {
        attempts := attempts + 1;
        if network[i].Dialled? {
          FirstDialledIs(network, i);
          if i > 0 {
            strategy.Reset();
          }
          return DialOk(network[i].chunks);
        }
        var next := strategy.NextRedoWait(k + i);
        slept := slept + [next];
        WaitsSnoc(k, i);
        i := i + 1;
      }
      FirstDialledAfter(network, i);
      return if maxRetries < 0 then DialPending else DialFailed;
    }

    /** Close, under its once. */
    method Close()
      modifies this`onceUsed, this`connected, this`onCloses, this`callbacks, this`closing
      ensures View() == CloseLife(old(View()))
      ensures closing <==> old(closing) || !old(onceUsed)
    {
      if !onceUsed {
        onceUsed := true;
        if connected {
          connected := false;
          onCloses := onCloses + 1;
        }
        if callbacks != [] {
          callbacks := callbacks[|callbacks| - 1 := callbacks[|callbacks| - 1].(cancelled := true)];
        }
        closing := true;
      }
    }

    /** A new connection replaces the old one. */
    method Connect(chunks: seq<string>)
      modifies this`connected, this`onceUsed, this`reader, this`closing, this`sent, this`dials
      ensures fresh(reader) && reader.Stream() == R.Flatten(chunks) && !closing
      ensures View() == EstablishLife(old(View()), false)
    {
      connected := true;
      onceUsed := false;
      reader := new R.Reader(chunks);
      closing := false;
      sent := "";
      dials := dials + 1;
    }

    /** A new callback, with a context of its own. */
    method Spawn()
      modifies this`srWg, this`callbacks
      ensures View() == SpawnLife(old(View()))
    {
      srWg := srWg + 1;
      callbacks := callbacks + [CallbackState(true, false)];
    }

    /** auth, and a callback when it goes well. */
    method Login() returns (r: ResetResult)
      requires !closing
      modifies this`sent, this`closing, this`srWg, this`callbacks, reader
      ensures r == ResetOk || (r.ResetAuth? && r.auth != Accepted)
      ensures (AuthOf(r), reader.Stream()) == Authenticate(old(reader.Stream()))
      ensures View() == if r == ResetOk then SpawnLife(old(View())) else old(View())
    {
      var auth := Auth();
      if auth != Accepted {
        return ResetAuth(auth);
      }
      Spawn();
      return ResetOk;
    }

    /** The second half of reset: a new connection, auth, a new callback. */
    method Establish(chunks: seq<string>) returns (r: ResetResult)
      modifies this`connected, this`onceUsed, this`reader, this`closing, this`sent, this`dials
      modifies this`srWg, this`callbacks
      ensures r == ResetOk || (r.ResetAuth? && r.auth != Accepted)
      ensures (AuthOf(r), reader.Stream()) == Authenticate(R.Flatten(chunks))
      ensures View() == EstablishLife(old(View()), r == ResetOk)
    {
      Connect(chunks);
      ghost var up, bytes := View(), reader.Stream();
      assert bytes == R.Flatten(chunks) && up == EstablishLife(old(View()), false);
      r := Login();
      assert (AuthOf(r), reader.Stream()) == Authenticate(bytes);
      assert View() == if r == ResetOk then SpawnLife(up) else up;
    }

    /** reset, without interference from other goroutines. */
    method Reset(former: Former, network: seq<DialOutcome>, ghost k: nat) returns (r: ResetResult)
      requires strategy.redoWaited == Stored(k)
      requires former == NoError ==> network != []
      requires maxRetries >= 0 ==> |network| > maxRetries
      modifies this, strategy
      ensures r == GaveUp <==> GivesUp(former)
      ensures r == ResetPending ==> former != NoError && maxRetries < 0 && FirstDialled(network) == |network|
      ensures r == ResetOk || r.ResetAuth? ==>
        var n := if former == NoError then 0 else FirstDialled(network);
        && n < |network| && network[n].Dialled?
        && (AuthOf(r), reader.Stream()) == Authenticate(R.Flatten(network[n].chunks))
        && strategy.redoWaited == Stored(if n > 0 then 0 else k)
      ensures r.ResetAuth? ==> r.auth != Accepted
      ensures r == ResetDialFailed && former != NoError ==> maxRetries >= 0 && FirstDialled(network) > maxRetries
      ensures r == ResetDialFailed && former == NoError ==> network[0] == Refused
      ensures attempts == old(attempts) + FailedDials(former, maxRetries, network)
        + (if r == ResetOk || r.ResetAuth? then 1 else 0)
      ensures slept == old(slept) + Sleeps(former, maxRetries, network, k)
      ensures View() == ResetLife(old(View()), former, r)
    {
      if GivesUp(former) {
        return GaveUp;
      }
      if former != NoError {
        Close();
      }
      ghost var closed := View();
      var dialled := DialTimes(former != NoError, network, k);
      assert View() == closed;
      if dialled.DialFailed? {
        return ResetDialFailed;
      }
      if dialled.DialPending? {
        return ResetPending;
      }
      r := Establish(dialled.chunks);
    }
  }

  /** The switch over the Content-Type. */
  method Classify(event: Event) returns (out: Outcome)
    requires event == Event(MimeMap(event.header.headers, false), NO_HEADERS, event.rawBody, Invalid)
    ensures out == Decode(event.header.headers, event.rawBody)
  {
    var e := event;
    var content := ContentOf(e.Get("Content-Type"));
    match content {
      case ReplyText =>
        e := e.(kind := CommandReply);
        if '%' in e.Get("Reply-Text") {
          e := e.(header := e.header.(escaped := true));
        }
      case EventPlain =>
        e := e.(kind := EventType.Generic);
        var parsed := ParseTextBody(e.rawBody);
        if parsed.Malformed? {
          return Rejected(if parsed.cut then InnerCut else InnerMalformed);
        }
        e := e.(body := MimeMap(parsed.headers, true));
      case EventJsonOrXml =>
        return Rejected(Unsupported);
      case AuthRequest => e := e.(kind := EventType.Auth);
      case Notice => e := e.(kind := Disconnect);
      case ApiText => e := e.(kind := EventType.ApiResponse);
      case LogData => e := e.(kind := Log);
      case Unknown =>
    }
    return Received(e);
  }

  /** parseTextBody: a header block at the start of the body. */
  method ParseTextBody(rawBody: string) returns (r: R.HeaderBlock)
    ensures match M.ReadHeader(true, rawBody)
      case Block(headers, _) => r == R.Headers(headers)
      case Failed(cut, _) => r == R.Malformed(cut)
  {
    var reader := new R.Reader([rawBody]);
    assert [rawBody][1..] == [];
    assert R.Flatten([rawBody]) == rawBody;
    r := reader.ReadHeader();
  }
}
