/** Whole sessions of one connection object. */
module Sessions {
  import opened Text
  import M = Mime
  import opened Events
  import F = Frames
  import R = Readers
  import opened Redial
  import opened Machine
  import opened Connections
  import O = ConnectionOptions

  // ---- chunking -----------------------------------------------------------------

  /** Repeated recvEvent equals repeated reading of the whole stream. */
  method ReceiveMany(conn: Connection, n: nat) returns (outs: seq<Outcome>)
    requires !(conn.autoRedial && conn.closing)
    modifies conn.reader
    ensures (outs, conn.Input()) == F.ReceiveMany(old(conn.Input()), n)
  {
    outs := [];
    var i := 0;
    while i < n
      invariant 0 <= i <= n
      invariant (outs, conn.Input()) == F.ReceiveMany(old(conn.Input()), i)
    {
      F.IterateSnoc(F.Receive, old(conn.Input()), i);
      var out := conn.RecvEvent();
      outs := outs + [out];
      i := i + 1;
    }
  }

  /** Chunking independence: two connections that deliver the same bytes in
      different reads give the same outcomes and leave the same bytes. */
  method ChunkingIndependent(a: seq<string>, b: seq<string>, autoRedial: bool, n: nat)
    returns (outsA: seq<Outcome>, leftA: string, outsB: seq<Outcome>, leftB: string)
    requires R.Flatten(a) == R.Flatten(b)
    ensures outsA == outsB && leftA == leftB
    ensures (outsA, leftA) == F.ReceiveMany(R.Flatten(a), n)
  {
    outsA, leftA := ReceiveFrom(a, autoRedial, n);
    outsB, leftB := ReceiveFrom(b, autoRedial, n);
  }

  method ReceiveFrom(chunks: seq<string>, autoRedial: bool, n: nat) returns (outs: seq<Outcome>, left: string)
    ensures (outs, left) == F.ReceiveMany(R.Flatten(chunks), n)
  {
    var strategy := new DefaultRedoStrategy();
    var conn := new Connection(autoRedial, -1, "", strategy);
    conn.Connect(chunks);
    outs := ReceiveMany(conn, n);
    left := conn.Input();
  }

  // ---- the handshake ------------------------------------------------------------

  /** What auth makes of a frame behind the greeting. */
  function FrameResult(f: F.Frame): AuthResult {
    if F.ContentOfFrame(f) == ReplyText then
      if HasPrefix(F.ReplyValue(f), ERR_PREFIX) then RefusedBy(F.ReplyValue(f)[5..]) else Accepted
    else if F.Meaning(f).Rejected? then ReplyLost
    else BadReplyType
  }

  /** Against a peer that greets and then sends well-formed frames, auth accepts
      exactly a command reply whose text does not start with "-ERR ", and leaves the
      rest of the stream untouched. */
  lemma Handshake(greeting: F.Frame, reply: F.Frame, rest: string)
    requires F.WellFormed(greeting) && F.ContentOfFrame(greeting) == AuthRequest
    requires F.WellFormed(reply)
    ensures Authenticate(F.Print(greeting) + (F.Print(reply) + rest)) == (FrameResult(reply), rest)
  {
    F.FrameRoundTrip(greeting, F.Print(reply) + rest);
    F.FrameRoundTrip(reply, rest);
    GreetingMeans(greeting);
    ReplyResult(reply);
  }

  /** In the words of the wire: which reply lets the client in. */
  lemma ReplyByText(f: F.Frame)
    requires F.WellFormed(f)
    ensures var ct, text := M.FirstValue(f.fields, "Content-Type"), M.FirstValue(f.fields, "Reply-Text");
      && (ct == "command/reply" && '%' !in text ==>
            FrameResult(f) == if "-ERR " <= text then RefusedBy(text[5..]) else Accepted)
      && (ct == "text/event-json" || ct == "text/event-xml" ==> FrameResult(f) == ReplyLost)
      && (ct != "command/reply" && F.Meaning(f).Received? ==> FrameResult(f) == BadReplyType)
      && (ct != "command/reply" ==> FrameResult(f) == ReplyLost || FrameResult(f) == BadReplyType)
  {
    var ct := M.FirstValue(f.fields, "Content-Type");
    ContentExactly(ct);
    F.RejectedExactly(f);
  }

  /** Any other well-formed frame in place of the greeting, "text/rude-rejection" for
      one, and auth gives up without looking further. */
  lemma OtherGreeting(f: F.Frame, rest: string)
    requires F.WellFormed(f) && M.FirstValue(f.fields, "Content-Type") != "auth/request"
    ensures Authenticate(F.Print(f) + rest) == (BadPreamble, rest)
  {
    F.FrameRoundTrip(f, rest);
    ContentExactly(M.FirstValue(f.fields, "Content-Type"));
    F.RejectedExactly(f);
    if F.Meaning(f).Received? {
      F.TypedByContent(f);
    }
  }

  /** The password goes out to a peer that greets, and to no other. */
  method AuthAgainst(conn: Connection, greeting: F.Frame, reply: F.Frame, ghost rest: string) returns (r: AuthResult)
    requires F.WellFormed(greeting) && F.WellFormed(reply) && !conn.closing
    requires conn.reader.Stream() == F.Print(greeting) + (F.Print(reply) + rest)
    modifies conn, conn.reader
    ensures M.FirstValue(greeting.fields, "Content-Type") != "auth/request" ==>
      r == BadPreamble && conn.closing && conn.sent == old(conn.sent)
      && conn.reader.Stream() == F.Print(reply) + rest
    ensures M.FirstValue(greeting.fields, "Content-Type") == "auth/request" ==>
      r == FrameResult(reply) && (conn.closing <==> F.ContentOfFrame(reply) != ReplyText)
      && conn.sent == old(conn.sent) + "auth " + conn.password + "\r\n\r\n"
      && conn.reader.Stream() == rest
  {
    ContentExactly(M.FirstValue(greeting.fields, "Content-Type"));
    if M.FirstValue(greeting.fields, "Content-Type") == "auth/request" {
      Handshake(greeting, reply, rest);
    } else {
      OtherGreeting(greeting, F.Print(reply) + rest);
    }
    r := conn.Auth();
  }

  lemma ReplyResult(f: F.Frame)
    requires F.WellFormed(f)
    ensures AuthReply(F.Meaning(f)) == FrameResult(f)
  {
    if F.ContentOfFrame(f) == ReplyText {
      F.ReplyMeans(f);
    } else {
      F.RejectedExactly(f);
      if F.Meaning(f).Received? {
        F.TypedByContent(f);
      }
    }
  }

  /** So the reply to a call that got ahead of the password decides, and the password's
      reply is left for the callers. */
  lemma FirstReplyDecides(greeting: F.Frame, call: F.Frame, password: F.Frame, rest: string)
    requires F.WellFormed(greeting) && F.ContentOfFrame(greeting) == AuthRequest
    requires F.WellFormed(call) && F.WellFormed(password)
    ensures Authenticate(F.Print(greeting) + (F.Print(call) + (F.Print(password) + rest)))
         == (FrameResult(call), F.Print(password) + rest)
    ensures F.ContentOfFrame(call) == ApiText ==> FrameResult(call) == BadReplyType
  {
    Handshake(greeting, call, F.Print(password) + rest);
    F.RejectedExactly(call);
  }

  lemma GreetingMeans(f: F.Frame)
    requires F.WellFormed(f) && F.ContentOfFrame(f) == AuthRequest
    ensures F.Meaning(f).Received? && F.Meaning(f).event.kind == EventType.Auth
  {
    M.GetFirst(f.fields, "Content-Type");
  }

  // ---- redial after redial ----------------------------------------------------------

  /** The sleeps of the first `n` of a series of redials that each start with an empty strategy. */
  function AllSleeps(maxRetries: int, networks: seq<seq<DialOutcome>>, n: nat): seq<int>
    requires n <= |networks|
  {
    if n == 0 then [] else AllSleeps(maxRetries, networks, n - 1) + Waits(0, Refusals(maxRetries, networks[n - 1]))
  }

  lemma SleepsFurther(start: seq<int>, before: seq<int>, after: seq<int>,
                      maxRetries: int, networks: seq<seq<DialOutcome>>, n: nat)
    requires n < |networks| && before == start + AllSleeps(maxRetries, networks, n)
    requires after == before + Waits(0, Refusals(maxRetries, networks[n]))
    ensures after == start + AllSleeps(maxRetries, networks, n + 1)
  {
    F.Regroup(start, AllSleeps(maxRetries, networks, n), Waits(0, Refusals(maxRetries, networks[n])));
  }

  /** One redial by the reader: what it sleeps, and what it leaves in the strategy. */
  method RedialOnce(conn: Connection, network: seq<DialOutcome>) returns (r: ResetResult)
    requires conn.strategy.redoWaited == Stored(0)
    requires conn.maxRetries >= 0 ==> |network| > conn.maxRetries
    modifies conn, conn.strategy
    ensures r == ResetOk ==> conn.strategy.redoWaited == Stored(0)
    ensures r == ResetDialFailed ==> Refusals(conn.maxRetries, network) == conn.maxRetries + 1
    ensures conn.slept == old(conn.slept) + Waits(0, Refusals(conn.maxRetries, network))
  {
    r := conn.Reset(Lost(HungUp), network, 0);
  }

  /** The reader's redials, one per lost connection, until one does not lead to a
      new session.  Each starts with the strategy empty, although the dial loop
      resets it only after a refusal, so each sleeps from one second up. */
  method RedialRepeatedly(conn: Connection, networks: seq<seq<DialOutcome>>) returns (count: nat, last: ResetResult)
    requires conn.strategy.redoWaited == Stored(0)
    requires forall i :: 0 <= i < |networks| ==> (conn.maxRetries >= 0 ==> |networks[i]| > conn.maxRetries)
    requires networks != []
    modifies conn, conn.strategy
    ensures 0 < count <= |networks|
    ensures count < |networks| ==> last != ResetOk
    ensures last == ResetOk ==> conn.strategy.redoWaited == Stored(0)
    ensures conn.slept == old(conn.slept) + AllSleeps(conn.maxRetries, networks, count)
    ensures last == ResetDialFailed ==> Refusals(conn.maxRetries, networks[count - 1]) == conn.maxRetries + 1
  {
    count, last := 0, ResetOk;
    while last == ResetOk && count < |networks|
      invariant count <= |networks|
      invariant count == 0 ==> last == ResetOk
      invariant last == ResetOk ==> conn.strategy.redoWaited == Stored(0)
      invariant conn.slept == old(conn.slept) + AllSleeps(conn.maxRetries, networks, count)
      invariant last == ResetDialFailed ==>
        count > 0 && Refusals(conn.maxRetries, networks[count - 1]) == conn.maxRetries + 1
      decreases |networks| - count
    {
      ghost var slept := conn.slept;
      last := RedialOnce(conn, networks[count]);
      SleepsFurther(old(conn.slept), slept, conn.slept, conn.maxRetries, networks, count);
      count := count + 1;
    }
  }

  /** For every list of options, redial is unbounded or a failing redial sleeps at
      most 6143 seconds. */
  lemma OptionsBoundRedial(opts: seq<O.Option>)
    ensures O.LastRetries(opts) == -1
      || (1 <= O.LastRetries(opts) <= 100 && Sum(Waits(0, O.LastRetries(opts) + 1)) <= 6143 * SECOND)
  {
    O.InRange(opts);
    if O.LastRetries(opts) != -1 {
      BoundedRedialSleep(O.LastRetries(opts));
    }
  }
}
