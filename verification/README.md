# goesl, modelled and verified in Dafny

`goesl` is a FreeSWITCH event-socket client. One reader goroutine takes frames off the connection and puts
them into three bounded channels; any number of `SendBytes` callers take replies out of two of them, without
request ids; a callback goroutine drains the third; `Close` and automatic redial may come at any time. This
project models that machinery, the wire format and the redial arithmetic, and proves what they promise.

Check everything with `dafny verify dfyconfig.toml`.

## How the model is laid out

Concurrency (connection.go)

- `machine.dfy`: a labelled transition system. A state holds the peer's unanswered requests, the wire, the
  three channels, the reader's position, the callers, the callback goroutines, the flags, and histories; a
  label is one atomic step of one goroutine. The reader's redial is split wherever another goroutine can tell
  the difference, so a `Close` may land anywhere inside it, and callers may write to the new connection while
  auth still reads the same stream. A run is a list of labels; every theorem below is about all of them.
- `conservation.dfy`, `correlation.dfy`: what the channels conserve, and in which order replies reach the callers.
- `handshake.dfy`: what auth takes off the wire of a renewed connection, and the order laws for runs on which no
  call gets ahead of the password.
- `sequential.dfy`: calls made one after the other, and when each gets its own reply, redials and given-up calls
  behind it included.
- `ahead.dfy`: what comes of a call written to a renewed connection ahead of the password.
- `lifecycle.dfy`: when `Close` is final, `OnClose`, and the callback goroutines.
- `deadlock.dfy`, `shutdown.dfy`: when reader and callback wait on each other, and when `HandleEvents` can
  still return.

Wire format

- `text.dfy`, `mime.dfy`: trimming, decimal, percent-encoding (section 2.1 of RFC 3986, and `+` for space),
  header blocks (section 2.2 of RFC 5322, folding included), the printer and the proof that reading inverts it.
- `events.dfy`, `frames.dfy`: decoding one frame, the frame stream, nested events, replies.
- `kinds.dfy`: what a frame comes to in the words of the wire: Content-Type strings, texts, "-ERR ".
- `reader.dfy`, `connection.dfy`, `handling.dfy`, `sessions.dfy`: the objects. A buffered reader over network
  reads of any size, the connection with `recvEvent`, `auth`, `dialTimes`, `reset` and `Close`, the receive
  loop, and whole sessions. Each method is proved against a function of the byte stream or of the state.
- `cuts.dfy`: streams with broken frames in them and streams that end inside a frame, byte by byte, and where the
  receive loop ends on them.
- `refinement.dfy`: `Close`, `reset` and `HandleEvents` of the objects are runs of the transition system.
- `commands.dfy`: `Send`, `Serialize`, `SendEvent`, each with the peer's parser that inverts it.

Arithmetic

- `redial.dfy`, `options.dfy`, `timing.dfy`, `fslog.dfy`: backoff, options, the read deadline, log levels.

## What the code does not keep

Some properties one would expect fail; each has a concrete run or input, and the exact condition for it.

- A `Close` is lost when it lands while a redial is under way: `CloseIsFinal` and `OnCloseAgain` say exactly when.
  `OnClose` is called once for every `Close` that lands between the reader's check of `connected` and its
  `reset`, and at most once more (`OnCloseCount`); from there two calls are always possible (`OnCloseTwiceFrom`,
  `OnCloseTwice`).
- Auth cannot tell its reply from another. The socket is open to callers from connection.go:95-98 on, auth reads
  the same stream (connection.go:331 and 355), and `SendBytes` checks nothing, so a call can be written ahead of
  the password. Auth then takes the reply to that call, and it takes the password's own if and only if there was
  no such call (`AuthTakes`). The call never gets its reply (`NeverAnswered`); an api call aborts the redial on
  every run (`ApiAheadAborts`); if auth accepts, the call gets another's reply (`AheadMisleads`). Exactly a call
  ahead of the password does such harm (`WindowExact`). Runs for each outcome: `MisledReachable` and
  `AbortReachable`; on the bytes: `FirstReplyDecides`.
- A `Close` between the new connection and its callback leaves a callback nobody can cancel, and
  `HandleEvents` can never return (`CloseEndsCallbacks`, `OrphanedForever`); it happens (`OrphanReachable`).
- The send to the event channel ignores every context. One event more than the channel holds ahead of the
  callback's reply deadlocks reader and callback (`DeadlockThreshold`), at every capacity (`ThresholdIsTight`),
  until the callback's own call is cancelled (`DeadlockPersists`, `CancellingBreaksIt`);
  and a reader blocked there when the last callback exits stays for good, after `Close` too
  (`StrandedForever`, `StrandedReachable`).
- An inner header block without its blank line surfaces as a wrapped `io.EOF`, so a complete, well-framed event
  is taken for a lost connection (`RejectedExactly`, `TruncatedInnerBlock`).
- A stream that ends inside a header line need not read as ended: textproto takes the torn line for a whole one, and
  unless it passes for a field (a colon, and not cut between CR and LF) it is reported as malformed, which
  `HandleEvents` only logs. The loss is noticed one read later. `FrameCut` gives the outcome for every cut position,
  `LoopUntil` the rounds.
- The length guard of `ErrOrRes` hides an error whose text is exactly `-ERR `: not reachable for an api response
  or a plain one-line reply, but for an encoded reply (`EscapedReplyNoError`) and for a reply folded onto a
  blank line (`FoldedReplyNoError`).
- The channels are made once, in `Dial` (connection.go:146-148), and a redial does not drain them
  (connection.go:79-98). After a redial with no call waiting, the calls written behind the password get their own
  replies exactly if both reply channels are empty (`RedialAnswers`); a run with a stale reply is
  `StaleAfterRedial`. A call that waits over the redial for a reply lost with the old connection never gets it
  (`LostNeverAnswered`) and may take another's (`WaiterMisled`). While the reader is at work and no call is waiting,
  calls get their own replies exactly if no reply is still to come (`GivenUpAnswers`).

## Model

| member | source | states |
|---|---|---|
| Conservation.DemultiplexerConserves | connection.go:429-447 | In every reachable state and for each of the three channels, the frames of that kind received are those taken out, then those queued, then the one the reader is blocked on, then the one it dropped, in arrival order; no channel exceeds its capacity; at most one reply is ever dropped, by a reader that stops on its context |
| Correlation.SkewLaw | connection.go:185-210 | Over every interleaving with redials and drops, replies owed, on the wire, held, queued, forfeited or taken by auth number exactly the calls given up or waiting and the passwords |
| Handshake.KindOrderLaw | connection.go:202-208 | While nothing is forfeited and no call was written ahead of a password, over any number of redials, the j-th reply of a kind received by any caller answers the j-th call of that kind |
| Correlation.NeverReordered | connection.go:185-210 | Redials, drops and auth take replies away but never reorder, repeat or invent one: the replies of a kind that callers received are in write order, passwords included |
| Handshake.OneKindLaw | connection.go:202-208 | On such runs with all calls of one kind, the j-th completed call got the reply to the j-th call written |
| Handshake.AuthTakes | connection.go:330-368 | The reply auth takes off the wire is the password's if and only if no call was written to the connection ahead of it |
| Handshake.LostNeverAnswered | connection.go:79-98 | A reply lost with an old connection reaches no caller on any run |
| Handshake.NeverAnswered | connection.go:355-367 | A reply auth took reaches no caller on any run |
| SequentialCalls.SequentialCorrelation | connection.go:185-210 | From any reachable state with no call waiting and no reply to a call still to come: for calls one after the other, none written ahead of a password, the n-th returns the reply to the n-th call, over any further redials, drops and Closes, and no reply to a call is anywhere between peer and channels while none is under way |
| SequentialCalls.RedialAnswers | connection.go:79-98 | After a redial with no call waiting, every later call written behind the password gets its own reply if and only if the old connection left no reply in a channel |
| SequentialCalls.GivenUpAnswers | connection.go:202-208 | With the reader at work and no call waiting, every later call gets its own reply if and only if no reply is still to come, that is, as many were lost or taken in place of another as calls were given up; while nothing is lost, if and only if no call was ever given up |
| SequentialCalls.LeftoverMisleads | connection.go:202-208 | A reply left in a channel is what the next call gets |
| SequentialCalls.StaleAfterRedial | connection.go:146-148 | A run on which the only completed call, written on the second connection behind its password, got the reply to a request of the first |
| AheadOfPassword.WindowExact | connection.go:95-98 | From a renewed connection with no call waiting and no reply to come, on every run with one call at a time on which auth took a reply: a call was misled or auth took a call's reply, if and only if some call was written ahead of the password |
| AheadOfPassword.AheadMisleads | connection.go:355-367 | When auth accepts a call's reply, a run without any new or given-up call hands that call another's reply |
| AheadOfPassword.ApiAheadAborts | connection.go:360-363 | With an api call first, auth fails on every run: no new callback, no further redial |
| AheadOfPassword.MisledReachable | connection.go:95-98 | With redial enabled, a run on which a call gets the reply to the password |
| AheadOfPassword.WaiterMisled | connection.go:185-210 | With redial enabled, a run on which a call waiting over a redial gets the reply to a later call of another caller |
| AheadOfPassword.AbortReachable | connection.go:355-367 | With redial enabled, runs on which the reply to a command call, or to an api call, ends HandleEvents |
| Lifecycle.CallbackAccounting | connection.go:103-133 | Over all interleavings srWg is the number of live callbacks, only the last can be uncancelled, and HandleEvents has returned only when none is live |
| Lifecycle.CloseIsFinal | connection.go:482-495 | After a Close no run dials, reconnects or calls OnClose again, if and only if no redial was under way |
| Lifecycle.OnCloseCount | connection.go:413-425 | Over any run OnClose is called once for every Close that lands between the reader's check and its reset, and at most once more, the connection then being closed for good |
| Lifecycle.OnCloseAtMostOnce | connection.go:413-425 | If no Close lands exactly there, OnClose is called at most once over the connection's life and the connection is then closed for good |
| Lifecycle.OnCloseAgain | connection.go:482-495 | After a Close, OnClose can be called again if and only if the Close landed while a redial was under way |
| Lifecycle.OnCloseTwiceFrom | connection.go:415-417 | From every reachable state between check and reset two more calls of OnClose are possible |
| Lifecycle.RedialIsSilent | connection.go:79-98 | Any number of automatic redials calls OnClose never |
| Lifecycle.OnCloseTwice | connection.go:415-417 | A run with a Close between the reader's check and its reset: one redial, OnClose twice |
| Lifecycle.CloseEndsCallbacks | connection.go:103-110 | Close leaves every callback cancelled on every later run, if and only if no callback can still be pending (redial under way, auth done, or a handshake whose next frame can be a command reply) and no earlier Close spent the once in vain; otherwise a run to an orphaned callback |
| Lifecycle.OrphanedForever | connection.go:397-405 | With an orphaned callback HandleEvents never returns, on any run |
| Lifecycle.OrphanReachable | connection.go:103-110 | With redial enabled an orphaned callback is reachable |
| Deadlock.ReplyArrives | connection.go:429-447 | If the events ahead of the waiting callback's reply fit, the reader is never blocked on any quiet run and reaches the reply within a measure of its own steps |
| Deadlock.ReplyNeverArrives | connection.go:446-447 | If they do not fit, no quiet run ever queues a reply |
| Deadlock.DeadlockThreshold | connection.go:446-447 | The reply can be delivered if and only if events queued plus events ahead number at most the capacity |
| Deadlock.DeadlockPersists | connection.go:112-130 | The deadlock survives every step of everyone, Close and the reader's context included, except cancelling the callback's own call |
| Shutdown.ThresholdIsTight | connection.go:146-148 | At every capacity a reachable state with exactly that many events gets its reply, and one with one more leads to the deadlock |
| Shutdown.StrandedForever | connection.go:446-447 | A reader blocked on a full event channel with no callback alive never moves again |
| Shutdown.StrandedReachable | connection.go:112-130 | Such a state is reachable at every capacity |
| Shutdown.ShutdownCompletes | connection.go:396-405 | Once every callback is cancelled for good, HandleEvents can still return if and only if the reader is not stranded |
| Shutdown.CloseThenReturn | connection.go:396-405 | For every reachable state in which Close ends the callbacks: afterwards HandleEvents can still return if and only if the reader is not stranded |
| Shutdown.LeavingReturns | connection.go:396-405 | From every reachable state in which the loop has been left: HandleEvents can return without a Close if and only if the last callback is cancelled already, or redial is disabled and the connection was not closed, so that the deferred function cancels it |
| Shutdown.HangUpReturns | connection.go:397-403 | Without redial a run on which the peer hangs up, nobody calls Close, and HandleEvents returns |
| Mime.HeaderRoundTrip | connection.go:512 | Reading a printed header block gives its fields, and touches nothing behind it |
| Mime.EndedRoundTrip | connection.go:512 | The same with any mixture of LF and CRLF line ends |
| Mime.FieldFoldedOnto | connection.go:512 | A field folded onto any number of further lines is read as one, the blanks that open each counting as one |
| Mime.PlainFieldOk | connection.go:512 | Keys of letters, digits, dashes and underscores with printable values are accepted |
| Mime.BadByteRejected | connection.go:512 | A control byte in the value or a separator in the key makes the block malformed, the rest being left |
| Mime.CanonicalExactly | event.go:25-31 | Two keys meet if and only if they are the same letters in any case |
| Mime.AnyCase | event.go:25-31 | So a header is found in whatever case it is asked for |
| Mime.GetFirst | event.go:25-31 | Header lookup is first-value lookup under any letter case |
| Frames.FrameRoundTrip | connection.go:497-559 | recvEvent on a printed frame, whatever its body, consumes exactly that frame, error or not |
| Frames.StreamRoundTrip | connection.go:497-559 | Repeated recvEvent on any frames printed one after the other yields what each means, in order, and consumes every byte |
| Frames.TypedByContent | connection.go:534-556 | The event has the type of its Content-Type and the frame's body |
| Frames.HeadersKept | event.go:96-104 | Every header's first value is found again |
| Frames.EscapedExactly | connection.go:537-542 | Header values are decoded exactly in a reply whose text has a percent sign |
| Frames.LocalFailure | connection.go:522-548 | A rejected frame is invisible: the outcomes around it and the bytes left are those of the stream without it |
| Frames.RejectedExactly | connection.go:543-547 | Which well-formed frames are rejected, and that only a plain event whose inner block is cut is taken for a lost connection |
| Frames.TruncatedInnerBlock | event.go:126-134 | An inner block printed without its blank line is such a frame |
| FrameKinds.KindByContentType | connection.go:534-556 | The type of a frame's event for each literal Content-Type; json and xml are refused, any other string is Invalid |
| FrameKinds.KindExactly | connection.go:534-556 | And the other way round: which Content-Type an event of each type came with |
| FrameKinds.ApiTextBack | event.go:77-81 | An api response gives its text, whatever white space surrounds it, and the error behind a literal "-ERR " |
| FrameKinds.ReplyTextBack | event.go:162-178 | A command reply gives its text, percent-decoded if encoded, and the error behind "-ERR " if anything is behind it |
| FrameKinds.NoAnswer | event.go:162-170 | No other frame has a text or an error |
| FrameKinds.LogTextBack | fslog.go:89-101 | A log line gives its text, whatever white space surrounds it, its line number and its fields |
| FrameKinds.BadLogLine | fslog.go:96-99 | A line number that is none, or does not fit 64 bits, is an error |
| FrameKinds.OuterFallback | event.go:98-104 | A key the inner headers lack is looked up in the outer ones |
| FrameKinds.NoInnerLength | event.go:82-85 | Without an inner Content-Length there is no text |
| FrameKinds.BadInnerLength | event.go:86-91 | With one that is no number neither |
| FrameKinds.MalformedEscape | event.go:25-31 | An encoded value with a malformed escape reads as nothing |
| Cuts.BlockCut | connection.go:512-520 | A header block cut off anywhere uses up the stream, and reads as malformed if and only if the last line is torn before its colon or between CR and LF, else as the end |
| Cuts.FrameCut | connection.go:512-531 | The same for a whole frame: malformed line, end of stream, or cut body, for every cut position |
| Cuts.ItemRead | connection.go:512-526 | A frame, a malformed header line with the fields before it, and a header block with an unreadable length are each one recvEvent, with nothing left over |
| Frames.NestedRoundTrip | event.go:96-104 | Percent-encoded by any encoder, nested and framed, arbitrary values come back under any letter case of their keys |
| Frames.NestedTextBody | event.go:77-94 | With a matching inner Content-Length GetTextBody returns the inner body without its newline |
| Frames.ReplyErrorExactly | event.go:162-178 | A framed reply is an error exactly if its text starts with "-ERR " and goes on; if it is not encoded, exactly if it starts with "-ERR " |
| Frames.FoldedReplyNoError | event.go:171-173 | An unencoded reply that reads as "-ERR " and is no error |
| Events.ErrorExactly | event.go:162-178 | For any event the error is exactly what follows "-ERR ", if anything does |
| Events.ApiErrorExactly | event.go:77-81 | For an api response trimming makes the length guard redundant |
| Events.EscapedReplyNoError | connection.go:539-542 | For an encoded reply it is not |
| Events.TextBodyInRange | event.go:86-93 | GetTextBody slices in range exactly if the inner Content-Length is between 1 and the body length |
| Events.TextBodyIs | event.go:92-93 | It is that many last bytes without the very last |
| Text.TrimSpaceIs | event.go:77-81 | Trimming gives back any text without white edges from any white space around it |
| Text.TrimSpaceParts | event.go:77-81 | And every string is white space, the trimmed text and white space |
| Text.AtoiSigned | connection.go:523 | Signs, and the 64-bit range on either side |
| Text.UnescapeEscape | event.go:25-31 | Unescaping inverts every percent-encoder on arbitrary bytes |
| Readers.Reader.ReadHeader | connection.go:512 | Line by line over network reads of any size, the header block is that of the whole stream |
| Readers.Reader.ReadFull | connection.go:527-531 | Exactly the next bytes of the stream, or failure with the stream used up |
| Connections.Connection.RecvEvent | connection.go:497-559 | The outcome and the bytes left depend alone on the bytes still to be read: the whole stream, or what is buffered once the socket is shut; in autoRedial mode a shut socket fails before reading |
| Connections.Classify | connection.go:534-557 | The switch over the Content-Type, as the decoding function |
| Connections.ParseTextBody | event.go:126-134 | The inner header block of a body |
| Connections.Connection.Auth | connection.go:330-368 | The handshake outcome and the bytes left as a function of the stream; the password is written exactly once, after a good greeting, and nothing before; the socket is shut exactly after a bad preamble, a lost reply or a wrong reply type |
| Connections.Connection.DialTimes | connection.go:56-75 | Dials until the first success and at most maxRetries + 1 times, one backoff sleep per refusal, the last one included; the strategy is left empty after any refusal followed by success |
| Connections.Connection.Reset | connection.go:79-110 | Gives up on net.ErrClosed and context.Canceled only; closes first unless it is the first dial; outcome, dials, sleeps, flags and callbacks for every outcome of dial and auth |
| Connections.Connection.Close | connection.go:482-495 | Under its once: connected, OnClose, the last callback's context |
| Handling.EventLoop.HandleEvents | connection.go:406-456 | From any channel contents: after each completed round everything is where its type belongs, in arrival order, no channel above its capacity; why the loop stops, and at which outcome |
| Handling.HandedByType | connection.go:429-455 | What is handed on is, channel by channel, the events of its type in arrival order, and for OnFslog the log lines that convert |
| Handling.EventLoop.Dispatch | connection.go:429-455 | Each event goes where its type belongs |
| Handling.ChannelsByContentType | connection.go:429-455 | Over a printed stream "command/reply", "api/response" and "text/event-plain" frames go to the three channels, notices and rude rejections to OnDisconnect, "log/data" with a readable line number to OnFslog field by field, each in order and nothing else, whatever is rejected between |
| Cuts.LoopUntil | connection.go:406-428 | Over any frames, broken ones among them, with room for all: the loop goes on after malformed lines and unreadable lengths, and ends where the stream is cut, at an inner block without a blank line, or in a panic at a negative length; it goes to redial if and only if that is enabled; how many rounds, what is left, and what every channel then holds |
| Sessions.ReceiveMany | connection.go:406-412 | Repeated recvEvent is repeated reading of the whole stream |
| Sessions.ChunkingIndependent | connection.go:97-98 | The same bytes in different network reads give the same outcomes and leave the same bytes |
| Sessions.Handshake | connection.go:330-368 | Against any well-formed frames auth accepts exactly a command reply not starting with "-ERR ", tells the other outcomes apart, and leaves the rest untouched |
| Sessions.ReplyByText | connection.go:355-367 | Which reply lets the client in, by literal Content-Type and text |
| Sessions.OtherGreeting | connection.go:331-338 | Any first frame but "auth/request" ends the handshake, and nothing behind it is read |
| Sessions.AuthAgainst | connection.go:330-368 | The password goes out to a peer that greets and to no other, whose socket is shut |
| Sessions.FirstReplyDecides | connection.go:355-367 | The reply to a call ahead of the password decides, and the password's reply is left for the callers |
| Refinement.CloseRefines | connection.go:482-495 | The method Close is the transition system's step |
| Refinement.ResetRefines | connection.go:79-110 | The method reset is the transition system's redial steps, handshake included, run without interference |
| Refinement.ResetLost | connection.go:82-110 | Called for a machine state with the object's flags, reset leaves the object as the transition system's redial steps leave that state, and gives up if and only if the cause is net.ErrClosed: a timed-out read and a hang-up are redialled |
| Refinement.ResetOther | connection.go:79-98 | Without a former error one dial and no Close; on a done context it gives up and changes nothing |
| Refinement.AuthRefines | connection.go:330-368 | For every result of auth the handshake's steps take the greeting and the frame behind it off the wire, no more |
| Refinement.ReplyDecides | connection.go:355-367 | The frame behind the greeting decides alike on the bytes and in the transition system, whoever it was meant for |
| Refinement.LoopRefines | connection.go:406-456 | Whatever bytes arrive, HandleEvents is a run of the transition system on the frames they stand for: same rounds, same channel fill, and it stops where the system's reader stops, blocked if and only if that one is |
| Refinement.LoopRuns | connection.go:429-455 | As long as there is room, so many rounds of the loop are so many rounds of the reader, and queue the same in the same order |
| Sessions.RedialRepeatedly | connection.go:61-73 | Redial after redial of one connection starts with the strategy empty, and sleeps accordingly |
| Sessions.OptionsBoundRedial | option.go:72-81 | For every list of options redial is unbounded or sleeps at most 6143 s |
| Redial.DefaultRedoStrategy.NextRedoWait | redo.go:16-31 | 1, 2, 4, ... 64, 64, ... seconds, at most seven waits stored |
| Redial.DefaultRedoStrategy.Reset | redo.go:33-35 | Back to no waits |
| Redial.WaitBounded | redo.go:16-31 | Every wait doubles the one before, up to 64 s |
| Redial.TotalWait | redo.go:16-31 | k waits total 2^k - 1 s up to the ceiling, 127 + 64 (k - 7) s beyond |
| Redial.BoundedRedialSleep | connection.go:61-73 | At most 100 retries sleep at most 6143 s, with equality at 100 |
| ConnectionOptions.Options.constructor | option.go:27-43 | Defaults and options give values in range, and the last option in range wins |
| ConnectionOptions.Options.Apply | option.go:21-25 | The same, option by option |
| ConnectionOptions.InRange | option.go:72-81 | The last option in range, or the default, is within bounds |
| ConnectionOptions.DelayExactly | option.go:102-110 | The two conversions accept exactly 100 ms to 10 s |
| ConnectionOptions.Defaults | option.go:27-43 | The values without options |
| ConnectionOptions.OneMore | option.go:72-122 | One option more sets its own value if the argument is in range, and no other |
| Timing.HeartbeatsSuffice | option.go:89-92 | Heartbeats at most heartbeat apart and delayed by at most netDelay meet no deadline, however the reader dawdles |
| Timing.NoFalseRedial | connection.go:502-510 | However the reader dawdles, no read deadline is met, if and only if every frame arrives within the limit of the one before it |
| Commands.SendText | connection.go:171-183 | The words on one line and a blank line |
| Commands.SendLine | connection.go:171-177 | The peer reads the words back as one line, then a blank one |
| Commands.SendWords | connection.go:171-177 | Splitting that line at its blanks gives the words back |
| Commands.MessageLiteral | command.go:18-38 | The bytes of a command, literally |
| Commands.EventLiteral | connection.go:239-250 | The bytes of an event in a given order, literally |
| Commands.Serialize | command.go:18-38 | The bytes are a sendmsg line, a header block and one CRLF more |
| Commands.MessageRoundTrip | command.go:18-38 | The peer recovers every field, no loops as one, and exactly one CRLF is left over |
| Commands.SerializeInjective | command.go:18-38 | Two commands serialize alike exactly if they are alike up to no loops and one |
| Commands.SendEvent | connection.go:239-250 | The headers are written once each, in an order nothing fixes, then the length and the body |
| Commands.EventRoundTrip | connection.go:239-250 | In any order the peer recovers name, exactly these headers with the true body length, and body |
| Commands.OrderInvisible | connection.go:243-245 | Two orders parse alike |
| Fslog.FslogString2Level | fslog.go:48-71 | Always -1 to 64; numbers clipped; the first name matching in any case; 64 if none does |
| Fslog.LevelRoundTrip | fslog.go:73-78 | Parsing the name of a level gives the level, DEBUG for those above |
| Fslog.LevelNames | fslog.go:36-46 | The name of every level, literally |
| Fslog.LevelAnyCase | fslog.go:62-69 | A name in any letter case gives its level |
| Fslog.LevelOfNumber | fslog.go:51-60 | A number gives itself, 63 above 64, 0 below 0 |
| Fslog.Event2Fslog | fslog.go:89-101 | Field by field, the conversion Convert; on an unreadable line number the fields come along with the error |
| Fslog.LogRoundTrip | fslog.go:89-101 | A framed log line comes back whole |

## Left out

- Sockets, goroutine scheduling and clocks: replaced by a wire queue, arbitrary interleavings and integer times.
- Failing writes: a caller whose write fails never waits. After a lost write the error is overwritten by the result of SetReadDeadline (connection.go:193-200), so it may get an empty reply and no error; the step system takes writes as successful.
- Close is one step of the transition system. Its body is guarded by the once, and a reader inside reset waits for it.
- A peer that does not greet first: in the transition system auth then just fails; its bytes are in Connections.Connection.Auth. Peers answer requests in the order they were written.
- Handlers: what OnConnect, OnEvent, OnFslog and OnDisconnect do beyond starting calls is arbitrary delay. A handler run by the reader goroutine that calls SendBytes itself waits for its own reader; that is not modelled.
- MustSendOK ends the process through the logger when a call fails; the callback's first request is modelled as any other call.
- textproto: the reader follows the strict rules of recent Go releases (token keys, no control bytes in values, no empty key). The limits on header size and the buffer size of bufio are not modelled; neither changes what is read.
- Unicode: case folding and white space are the ASCII ones.
- Fslog.FslogString2Level: names match under ASCII case folding only.
- make panics for a Content-Length no slice can have; only a negative one is modelled as a panic.
- Connections.Connection.DialTimes: takes the outcomes of the dials as an argument, a finite list; an unbounded redial that has seen only refusals is reported as pending. Strategies other than the default one are not modelled.
- Handling.EventLoop.HandleEvents: nobody drains the channels while it runs, its context is found done only at the top of a round, and the deferred wait is not part of it; all three are in the transition system.
- Refinement.LoopRefines: the frames the bytes stand for are given, since decoded replies carry no request numbers; so is the cause of a lost read.
- Connections.Connection.Auth: setting and clearing its deadline is not modelled; on a connection nobody else closes it cannot fail.
- A read that times out is taken for the end of the stream: bytes that the peer sends on the same connection after the deadline are not modelled. They matter only for a header line torn by the deadline, after which the code reads on.
- Timing.NoFalseRedial: an arrival is the moment the last byte of a frame is there, in time up to and including its deadline; a negative heartbeat option is left out.
- Options that only concern logging (option.go:65-69 and option.go:124-159), ev_name/, ev_header/, logger.go, default_logger.go, examples/: generated tables, output and user interface.
- The one-line getters of event.go:138-160 and event.go:180-248, the Execute wrappers and BgApi: they only pass arguments on.
