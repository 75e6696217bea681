/** Decoded events (event.go) and the decoding of one frame (the second half of
    recvEvent). */
module Events {
  import opened Text
  import opened Mime

  /** Header values with the flag that says they are percent-encoded. */
  datatype MimeMap = MimeMap(headers: Headers, escaped: bool) {
    /** A malformed escape yields the empty string. */
    function Lookup(key: string): string {
      var val := Mime.Get(headers, key);
      if escaped then
        match Unescape(val)
        case None => ""
        case Some(t) => t
      else val
    }
  }

  const NO_HEADERS: MimeMap := MimeMap(map[], false)

  datatype EventType =
    Invalid | Auth | CommandReply | ApiResponse | Disconnect | Log | Generic

  datatype Event = Event(header: MimeMap, body: MimeMap, rawBody: string, kind: EventType) {
    /** The value from the body headers or, if empty there, from the outer ones. */
    function Get(key: string): string {
      var val := body.Lookup(key);
      if val == "" then header.Lookup(key) else val
    }
  }

  /** What GetTextBody does: a text, or a slice out of range. */
  datatype TextBody = Text(text: string) | OutOfRange

  function GetTextBody(e: Event): TextBody {
    if e.kind == ApiResponse || e.kind == Log then Text(TrimSpace(e.rawBody))
    else
      var slen := e.body.Lookup("Content-Length");
      if slen == "" then Text("")
      else
        match Atoi(slen)
        case None => Text("")
        case Some(n) =>
          var len := |e.rawBody|;
          if 0 <= len - n <= len - 1 then Text(e.rawBody[len - n..len - 1]) else OutOfRange
  }

  /** The reply text, and the error ErrOrRes makes of it. */
  datatype Answer = Answer(raw: string, failure: Option<string>)

  const ERR_PREFIX: string := "-ERR "

  function RawReply(e: Event): string {
    match e.kind
    case CommandReply => e.Get("Reply-Text")
    case ApiResponse => TrimSpace(e.rawBody)
    case _ => ""
  }

  function ErrOrRes(e: Event): Answer {
    if e.kind != CommandReply && e.kind != ApiResponse then Answer("", None)
    else
      var raw := if e.kind == CommandReply then e.Get("Reply-Text") else GetTextBody(e).text;
      if |raw| < 6 then Answer(raw, None)
      else if HasPrefix(raw, ERR_PREFIX) then Answer(raw, Some(raw[5..]))
      else Answer(raw, None)
  }

  // ---- decoding ------------------------------------------------------------------

  datatype ReadError =
    | AtEnd             // the stream ended, timed out or was closed in the header block
    | HeaderMalformed
    | LengthMalformed
    | BodyCut           // ... or inside the body
    | InnerCut          // the inner header block has no blank line: a wrapped io.EOF
    | InnerMalformed
    | Unsupported       // json or xml

  /** connLost in read mode. */
  predicate ConnLost(err: ReadError) {
    err == AtEnd || err == BodyCut || err == InnerCut
  }

  datatype Outcome = Received(event: Event) | Rejected(error: ReadError) | Panicked

  /** The Content-Types told apart. */
  datatype Content =
    AuthRequest | ReplyText | EventPlain | EventJsonOrXml | Notice | ApiText | LogData | Unknown

  function ContentOf(ct: string): Content {
    if ct == "auth/request" then AuthRequest
    else if ct == "command/reply" then ReplyText
    else if ct == "text/event-plain" then EventPlain
    else if ct == "text/event-json" || ct == "text/event-xml" then EventJsonOrXml
    else if ct == "text/disconnect-notice" || ct == "text/rude-rejection" then Notice
    else if ct == "api/response" then ApiText
    else if ct == "log/data" then LogData
    else Unknown
  }

  /** No two of the Content-Types coincide. */
  lemma ContentExactly(ct: string)
    ensures ContentOf(ct) == AuthRequest <==> ct == "auth/request"
    ensures ContentOf(ct) == ReplyText <==> ct == "command/reply"
    ensures ContentOf(ct) == EventPlain <==> ct == "text/event-plain"
    ensures ContentOf(ct) == EventJsonOrXml <==> ct == "text/event-json" || ct == "text/event-xml"
    ensures ContentOf(ct) == Notice <==> ct == "text/disconnect-notice" || ct == "text/rude-rejection"
    ensures ContentOf(ct) == ApiText <==> ct == "api/response"
    ensures ContentOf(ct) == LogData <==> ct == "log/data"
  {
    assert |"auth/request"| == 12 && |"command/reply"| == 13 && |"text/event-plain"| == 16
      && |"text/event-json"| == 15 && |"text/event-xml"| == 14 && |"text/disconnect-notice"| == 22
      && |"text/rude-rejection"| == 19 && |"api/response"| == 12 && |"log/data"| == 8;
    assert "auth/request"[1] == 'u' && "api/response"[1] == 'p';
  }

  /** The event type each kind of content gives. */
  function TypeOf(c: Content): EventType {
    match c
    case AuthRequest => Auth
    case ReplyText => CommandReply
    case EventPlain => Generic
    case Notice => Disconnect
    case ApiText => ApiResponse
    case LogData => Log
    case _ => Invalid
  }

  function Decode(h: Headers, body: string): Outcome {
    var content := ContentOf(Mime.Get(h, "Content-Type"));
    var e := Event(MimeMap(h, false), NO_HEADERS, body, TypeOf(content));
    match content
    case ReplyText => Received(e.(header := MimeMap(h, '%' in e.Get("Reply-Text"))))
    case EventPlain =>
      (match ReadHeader(true, body)
       case Block(inner, _) => Received(e.(body := MimeMap(inner, true)))
       case Failed(cut, _) => Rejected(if cut then InnerCut else InnerMalformed))
    case EventJsonOrXml => Rejected(Unsupported)
    case _ => Received(e)
  }

  /** What decoding does, by the kind of content. */
  lemma DecodeByContent(h: Headers, body: string, content: Content)
    requires content == ContentOf(Mime.Get(h, "Content-Type"))
    ensures var out := Decode(h, body);
      && out != Panicked
      && (out.Received? ==>
            && out.event.kind == TypeOf(content) && out.event.rawBody == body
            && (out.event.body.escaped <==> content == EventPlain))
      && (out.Rejected? <==>
            content == EventJsonOrXml || (content == EventPlain && ReadHeader(true, body).Failed?))
      && (out.Rejected? && ConnLost(out.error) <==>
            content == EventPlain && ReadHeader(true, body).Failed? && ReadHeader(true, body).cut)
  {
  }

  /** A log line is taken as it is. */
  lemma DecodeLog(h: Headers, body: string)
    requires ContentOf(Mime.Get(h, "Content-Type")) == LogData
    ensures Decode(h, body) == Received(Event(MimeMap(h, false), NO_HEADERS, body, Log))
  {
  }

  // ---- what the accessors mean -----------------------------------------------------

  /** GetTextBody stays in range exactly when the inner Content-Length, if it is a
      number, is between 1 and the length of the body. */
  lemma TextBodyInRange(e: Event, n: int)
    requires e.kind != ApiResponse && e.kind != Log && Atoi(e.body.Lookup("Content-Length")) == Some(n)
    ensures GetTextBody(e).Text? <==> 1 <= n <= |e.rawBody|
  {
    assert Atoi("") == None;
  }

  /** Then it is that many bytes off the end, without the last one. */
  lemma TextBodyIs(e: Event, pre: string, text: string, last: string)
    requires e.kind != ApiResponse && e.kind != Log
    requires Atoi(e.body.Lookup("Content-Length")) == Some(|text| + 1)
    requires |last| == 1 && e.rawBody == pre + (text + last)
    ensures GetTextBody(e) == Text(text)
  {
    TextBodyInRange(e, |text| + 1);
    var len := |e.rawBody|;
    assert e.rawBody[len - (|text| + 1)..len - 1] == text;
  }

  /** ErrOrRes reports an error exactly for a text that starts with "-ERR " and has
      something behind it; the error is what is behind it. */
  lemma ErrorExactly(e: Event)
    ensures ErrOrRes(e).raw == RawReply(e)
    ensures ErrOrRes(e).failure.Some? <==>
            HasPrefix(RawReply(e), ERR_PREFIX) && RawReply(e) != ERR_PREFIX
    ensures ErrOrRes(e).failure.Some? ==> RawReply(e) == ERR_PREFIX + ErrOrRes(e).failure.value
  {
    var raw := RawReply(e);
    if HasPrefix(raw, ERR_PREFIX) {
      assert raw == raw[..5] + raw[5..];
    }
  }

  /** For an api response trimming makes the length guard redundant. */
  lemma ApiErrorExactly(e: Event)
    requires e.kind == ApiResponse
    ensures ErrOrRes(e).failure.Some? <==> HasPrefix(TrimSpace(e.rawBody), ERR_PREFIX)
  {
    ErrorExactly(e);
  }

  /** For an escaped command reply the guard matters: "-ERR%20" reads as "-ERR "
      and is no error. */
  lemma EscapedReplyNoError()
    ensures var out := Decode(HeaderOf([("Content-Type", "command/reply"), ("Reply-Text", "-ERR%20")]), "");
      out.Received? && RawReply(out.event) == ERR_PREFIX && ErrOrRes(out.event).failure == None
  {
    var fs := [("Content-Type", "command/reply"), ("Reply-Text", "-ERR%20")];
    GetFirst(fs, "Content-Type");
    GetFirst(fs, "Reply-Text");
    assert FirstValue(fs[1..], "Reply-Text") == "-ERR%20";
    EscapedErrText();
    EscapedReply(HeaderOf(fs), "-ERR%20", ERR_PREFIX);
  }

  /** How an encoded command reply is decoded. */
  lemma EscapedReply(h: Headers, raw: string, text: string)
    requires Mime.Get(h, "Content-Type") == "command/reply" && Mime.Get(h, "Reply-Text") == raw
    requires '%' in raw && Unescape(raw) == Some(text)
    ensures var out := Decode(h, "");
      && out.Received? && RawReply(out.event) == text
      && (text == ERR_PREFIX ==> ErrOrRes(out.event).failure == None)
  {
    ContentExactly("command/reply");
    ErrorExactly(Event(MimeMap(h, true), NO_HEADERS, "", CommandReply));
  }

  lemma EscapedErrText()
    ensures Unescape("-ERR%20") == Some(ERR_PREFIX) && '%' in "-ERR%20"
  {
    assert "-ERR%20"[4] == '%';
    UnescapePlain("-ERR", "%20");
    assert Unescape("%20") == Some(" ") by {
      var t := "%20";
      assert t[3..] == "" && Unescape("") == Some("");
      assert [(16 * HexValue('2').value + HexValue('0').value) as char] + "" == " ";
    }
    assert "-ERR%20" == "-ERR" + "%20" && "-ERR" + " " == ERR_PREFIX;
  }

  lemma {:induction false} UnescapePlain(p: string, t: string)
    requires '%' !in p && '+' !in p
    ensures Unescape(p + t) == match Unescape(t) case None => None case Some(u) => Some(p + u)
  {
    if p == "" {
      assert p + t == t;
      assert Unescape(t).Some? ==> "" + Unescape(t).value == Unescape(t).value;
    } else {
      assert (p + t)[1..] == p[1..] + t;
      UnescapePlain(p[1..], t);
      assert Unescape(t).Some? ==> [p[0]] + (p[1..] + Unescape(t).value) == p + Unescape(t).value;
    }
  }
}
