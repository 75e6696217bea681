/** What frames come to, in the words of the wire: the Content-Type strings, the
    texts, the error prefix, without the model's own names for them. */
module FrameKinds {
  import opened Text
  import opened Mime
  import opened Events
  import opened Frames
  import L = Fslog

  // ---- event types -------------------------------------------------------------------

  /** The type of an accepted frame's event, by the literal value of its Content-Type;
      json and xml are not accepted. */
  lemma KindByContentType(f: Frame)
    requires WellFormed(f)
    ensures var ct, out := FirstValue(f.fields, "Content-Type"), Meaning(f);
      && (ct == "auth/request" ==> out.Received? && out.event.kind.Auth?)
      && (ct == "command/reply" ==> out.Received? && out.event.kind.CommandReply?)
      && (ct == "api/response" ==> out.Received? && out.event.kind.ApiResponse?)
      && (ct == "text/disconnect-notice" || ct == "text/rude-rejection" ==>
            out.Received? && out.event.kind.Disconnect?)
      && (ct == "log/data" ==> out.Received? && out.event.kind.Log?)
      && (ct == "text/event-plain" && out.Received? ==> out.event.kind.Generic?)
      && (ct == "text/event-plain" && out.Rejected? ==> out.error == InnerCut || out.error == InnerMalformed)
      && (ct == "text/event-json" || ct == "text/event-xml" ==> out == Rejected(Unsupported))
      && (!Known(ct) ==> out.Received? && out.event.kind.Invalid?)
  {
    var ct := FirstValue(f.fields, "Content-Type");
    GetFirst(f.fields, "Content-Type");
    ContentExactly(ct);
    KindOfContent(HeaderOf(f.fields), f.body);
  }

  /** The Content-Types recvEvent knows. */
  predicate Known(ct: string) {
    || ct == "auth/request" || ct == "command/reply" || ct == "api/response" || ct == "log/data"
    || ct == "text/disconnect-notice" || ct == "text/rude-rejection"
    || ct == "text/event-plain" || ct == "text/event-json" || ct == "text/event-xml"
  }

  lemma KindOfContent(h: Headers, body: string)
    ensures var content, out := ContentOf(Mime.Get(h, "Content-Type")), Decode(h, body);
      && (content == AuthRequest ==> out.Received? && out.event.kind.Auth?)
      && (content == ReplyText ==> out.Received? && out.event.kind.CommandReply?)
      && (content == ApiText ==> out.Received? && out.event.kind.ApiResponse?)
      && (content == Notice ==> out.Received? && out.event.kind.Disconnect?)
      && (content == LogData ==> out.Received? && out.event.kind.Log?)
      && (content == EventPlain && out.Received? ==> out.event.kind.Generic?)
      && (content == EventPlain && out.Rejected? ==> out.error == InnerCut || out.error == InnerMalformed)
      && (content == EventJsonOrXml ==> out == Rejected(Unsupported))
      && (content == Unknown ==> out.Received? && out.event.kind.Invalid?)
  {
  }

  /** And the other way round. */
  lemma KindExactly(f: Frame)
    requires WellFormed(f) && Meaning(f).Received?
    ensures var ct, kind := FirstValue(f.fields, "Content-Type"), Meaning(f).event.kind;
      && (kind.CommandReply? <==> ct == "command/reply")
      && (kind.ApiResponse? <==> ct == "api/response")
      && (kind.Disconnect? <==> ct == "text/disconnect-notice" || ct == "text/rude-rejection")
      && (kind.Log? <==> ct == "log/data")
      && (kind.Generic? <==> ct == "text/event-plain")
      && (kind.Auth? <==> ct == "auth/request")
  {
    TypedByContent(f);
    RejectedExactly(f);
    ContentExactly(FirstValue(f.fields, "Content-Type"));
  }

  // ---- texts ---------------------------------------------------------------------------

  /** An api response comes back as its text, whatever white space surrounds it, and is
      an error exactly if the text starts with "-ERR "; the error is what follows. */
  lemma ApiTextBack(f: Frame, pre: string, text: string, post: string)
    requires WellFormed(f) && FirstValue(f.fields, "Content-Type") == "api/response"
    requires f.body == pre + text + post
    requires AllIn(pre, WHITE) && AllIn(post, WHITE) && NoEdge(text, WHITE)
    ensures Meaning(f).Received? && GetTextBody(Meaning(f).event) == Text(text)
    ensures ErrOrRes(Meaning(f).event)
         == Answer(text, if "-ERR " <= text then Some(text[5..]) else None)
  {
    TrimSpaceIs(pre, text, post);
    TextsOf(f, text);
    ErrorExactly(Meaning(f).event);
    assert text != "-ERR " by {
      assert "-ERR "[4] == ' ';
    }
  }

  /** A command reply comes back as its text, decoded if it was encoded.  It is an error
      if the text starts with "-ERR " and goes on; one that is not encoded cannot end
      there. */
  lemma ReplyTextBack(f: Frame, e: Escaping, text: string)
    requires WellFormed(f) && FirstValue(f.fields, "Content-Type") == "command/reply"
    requires forall i :: 0 <= i < |text| ==> IsByte(text[i])
    requires var raw := FirstValue(f.fields, "Reply-Text");
      if '%' in raw then ValidEscaping(e) && raw == Escape(e, text) else raw == text
    ensures Meaning(f).Received?
    ensures ErrOrRes(Meaning(f).event)
         == Answer(text, if "-ERR " <= text && text != "-ERR " then Some(text[5..]) else None)
    ensures '%' !in FirstValue(f.fields, "Reply-Text") ==> text != "-ERR "
  {
    ContentExactly("command/reply");
    if '%' in FirstValue(f.fields, "Reply-Text") {
      UnescapeEscape(e, text);
    } else {
      FirstValueTrimmed(f.fields, "Reply-Text");
      assert "-ERR "[4] == ' ';
    }
    assert ReplyValue(f) == text;
    ReplyErrorExactly(f);
    assert HasPrefix(text, "-ERR ") <==> "-ERR " <= text;
    assert "-ERR " <= text ==> text == "-ERR " + text[5..];
  }

  /** Nothing else has a text or an error. */
  lemma NoAnswer(f: Frame)
    requires WellFormed(f) && Meaning(f).Received?
    requires var ct := FirstValue(f.fields, "Content-Type"); ct != "command/reply" && ct != "api/response"
    ensures ErrOrRes(Meaning(f).event) == Answer("", None)
  {
    KindExactly(f);
  }

  lemma TextsOf(f: Frame, text: string)
    requires WellFormed(f) && FirstValue(f.fields, "Content-Type") == "api/response" && TrimSpace(f.body) == text
    ensures Meaning(f).Received? && Meaning(f).event.kind.ApiResponse?
    ensures GetTextBody(Meaning(f).event) == Text(text) && RawReply(Meaning(f).event) == text
  {
    KindByContentType(f);
    TypedByContent(f);
  }

  /** A log line comes back as its text the same way. */
  lemma LogTextBack(f: Frame, pre: string, text: string, post: string, line: nat)
    requires WellFormed(f) && FirstValue(f.fields, "Content-Type") == "log/data"
    requires f.body == pre + text + post
    requires AllIn(pre, WHITE) && AllIn(post, WHITE) && NoEdge(text, WHITE)
    requires line < INT64_LIMIT && FirstValue(f.fields, "Log-Line") == Decimal(line)
    ensures Meaning(f).Received? && L.Convert(Meaning(f).event).Converted?
    ensures var log := L.Convert(Meaning(f).event).fslog;
      && log.content == text && log.line == line
      && log.file == FirstValue(f.fields, "Log-File") && log.func == FirstValue(f.fields, "Log-Func")
      && log.userData == FirstValue(f.fields, "User-Data")
  {
    TrimSpaceIs(pre, text, post);
    ContentExactly("log/data");
    L.LogMeans(f, "Log-Line");
    L.LogMeans(f, "Log-File");
    L.LogMeans(f, "User-Data");
    L.LogMeans(f, "Log-Func");
    AtoiDecimal(line);
  }

  /** A log line whose line number is no number is not converted, nor is one whose line
      number does not fit 64 bits: that comes along as the bound it exceeds. */
  lemma BadLogLine(f: Frame, n: nat)
    requires WellFormed(f) && FirstValue(f.fields, "Content-Type") == "log/data"
    ensures var number := FirstValue(f.fields, "Log-Line");
      Atoi(number) == None ==> Meaning(f).Received? && L.Convert(Meaning(f).event).BadLine?
    ensures FirstValue(f.fields, "Log-Line") == Decimal(n) && n > 9223372036854775807 ==>
      Meaning(f).Received? && L.Convert(Meaning(f).event).BadLine?
      && L.Convert(Meaning(f).event).fslog.line == 9223372036854775807
  {
    ContentExactly("log/data");
    L.LogMeans(f, "Log-Line");
    NumberTooBig(n);
  }

  // ---- lookups ---------------------------------------------------------------------------

  /** A generic event falls back to its outer headers for what its own do not have. */
  lemma OuterFallback(f: Frame, e: Escaping, inner: seq<Field>, text: string, key: string)
    requires IsNested(f, e, inner, text)
    requires forall i :: 0 <= i < |inner| ==> Canonical(inner[i].0) != Canonical(key)
    ensures Meaning(f).Received? && Meaning(f).event.Get(key) == FirstValue(f.fields, key)
  {
    NestedEvent(f, e, inner, text);
    InnerAbsent(e, inner, key);
    HeadersKept(f, key);
    ContentExactly("text/event-plain");
    EscapedExactly(f);
  }

  /** How a nested event is decoded. */
  lemma NestedEvent(f: Frame, e: Escaping, inner: seq<Field>, text: string)
    requires IsNested(f, e, inner, text)
    ensures Meaning(f).Received? && Meaning(f).event.kind == Generic
    ensures Meaning(f).event.body == MimeMap(HeaderOf(EscapeFields(e, inner)), true)
  {
    EscapedFieldsOk(e, inner);
    HeaderRoundTrip(true, EscapeFields(e, inner), text);
    GetFirst(f.fields, "Content-Type");
  }

  lemma InnerAbsent(e: Escaping, inner: seq<Field>, key: string)
    requires forall i :: 0 <= i < |inner| ==> forall j :: 0 <= j < |inner[i].1| ==> IsByte(inner[i].1[j])
    requires forall i :: 0 <= i < |inner| ==> Canonical(inner[i].0) != Canonical(key)
    ensures MimeMap(HeaderOf(EscapeFields(e, inner)), true).Lookup(key) == ""
  {
    var escaped := EscapeFields(e, inner);
    GetFirst(escaped, key);
    FirstValueAbsent(escaped, key);
    assert Unescape("") == Some("");
  }

  /** Without a Content-Length of its own a generic event has no text. */
  lemma NoInnerLength(f: Frame, e: Escaping, inner: seq<Field>, text: string)
    requires IsNested(f, e, inner, text)
    requires forall i :: 0 <= i < |inner| ==> Canonical(inner[i].0) != Canonical("Content-Length")
    ensures Meaning(f).Received? && GetTextBody(Meaning(f).event) == Text("")
  {
    NestedEvent(f, e, inner, text);
    InnerAbsent(e, inner, "Content-Length");
  }

  /** With one that is no number neither. */
  lemma BadInnerLength(e: Event, n: string)
    requires e.kind.Generic? && e.body.Lookup("Content-Length") == n && Atoi(n) == None
    ensures GetTextBody(e) == Text("")
  {
  }

  /** An encoded value with a malformed escape reads as nothing. */
  lemma MalformedEscape(h: Headers, key: string, pre: string, post: string)
    requires Mime.Get(h, key) == pre + "%" + post && '%' !in pre
    requires |post| < 2 || HexValue(post[0]) == None || HexValue(post[1]) == None
    ensures MimeMap(h, true).Lookup(key) == "" && MimeMap(h, false).Lookup(key) == pre + "%" + post
  {
    NoUnescape(pre, "%" + post);
    assert pre + "%" + post == pre + ("%" + post);
  }

  lemma {:induction false} NoUnescape(pre: string, rest: string)
    requires '%' !in pre && rest != "" && rest[0] == '%'
    requires |rest| < 3 || HexValue(rest[1]) == None || HexValue(rest[2]) == None
    ensures Unescape(pre + rest) == None
  {
    if pre == "" {
      assert pre + rest == rest;
    } else {
      assert (pre + rest)[1..] == pre[1..] + rest && pre[0] in pre;
      NoUnescape(pre[1..], rest);
    }
  }

  /** Hexadecimal digits, to the letter. */
  lemma HexDigits()
    ensures HexValue('0') == Some(0) && HexValue('9') == Some(9)
    ensures HexValue('a') == HexValue('A') == Some(10) && HexValue('f') == HexValue('F') == Some(15)
    ensures HexValue('g') == HexValue('G') == HexValue('/') == HexValue(':') == HexValue('@') == HexValue('`') == None
    ensures Unescape("%41+%7a") == Some("A z")
  {
    var s := "%41+%7a";
    assert s[3..] == "+%7a" && "+%7a"[1..] == "%7a" && "%7a"[3..] == "";
    assert Unescape("%7a") == Some("z") by {
      assert Unescape("") == Some("") && ['z'] + "" == "z";
    }
    assert Unescape("+%7a") == Some(" z") by {
      assert [' '] + "z" == " z";
    }
    assert ['A'] + " z" == "A z";
  }
}
