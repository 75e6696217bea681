/** The frame stream: what recvEvent makes of the bytes from the peer. */
module Frames {
  import opened Text
  import opened Mime
  import opened Events

  // ---- reading ---------------------------------------------------------------------

  /** One recvEvent on the bytes still to come: the outcome, and the bytes left. */
  function Receive(s: string): (r: (Outcome, string))
    ensures |r.1| <= |s|
  {
    match ReadHeader(true, s)
    case Failed(cut, rest) => (Rejected(if cut then AtEnd else HeaderMalformed), rest)
    case Block(h, rest) => ReceiveBody(h, Mime.Get(h, "Content-Length"), rest)
  }

  /** The rest of a recvEvent, behind the header block. */
  function ReceiveBody(h: Headers, slen: string, rest: string): (r: (Outcome, string))
    ensures |r.1| <= |rest|
  {
    if slen == "" then (Decode(h, ""), rest)
    else
      match Atoi(slen)
      case None => (Rejected(LengthMalformed), rest)
      case Some(n) =>
        if n < 0 then (Panicked, rest)
        else if n > |rest| then (Rejected(BodyCut), "")
        else (Decode(h, rest[..n]), rest[n..])
  }

  /** `n` reads in a row: what they yield, and what is left. */
  function Iterate<T>(read: string -> (T, string), s: string, n: nat): (seq<T>, string)
    decreases n
  {
    if n == 0 then ([], s)
    else
      var (x, rest) := read(s);
      var (xs, left) := Iterate(read, rest, n - 1);
      ([x] + xs, left)
  }

  /** One more read goes on where the first `n` stopped. */
  lemma {:induction false} IterateSnoc<T>(read: string -> (T, string), s: string, n: nat)
    ensures var (xs, left) := Iterate(read, s, n);
      Iterate(read, s, n + 1) == (xs + [read(left).0], read(left).1)
    decreases n
  {
    var (x, rest) := read(s);
    if n == 0 {
      assert Iterate(read, rest, 0) == ([], rest);
      assert [x] + [] == [] + [x];
    } else {
      IterateSnoc(read, rest, n - 1);
      var (xs, left) := Iterate(read, rest, n - 1);
      assert [x] + (xs + [read(left).0]) == ([x] + xs) + [read(left).0];
    }
  }

  /** The first `m` of `n` reads. */
  lemma {:induction false} IteratePrefix<T>(read: string -> (T, string), s: string, m: nat, n: nat)
    requires m <= n
    ensures |Iterate(read, s, n).0| == n && Iterate(read, s, m).0 == Iterate(read, s, n).0[..m]
    decreases n
  {
    if m > 0 {
      IteratePrefix(read, read(s).1, m - 1, n - 1);
    } else if n > 0 {
      IteratePrefix(read, read(s).1, 0, n - 1);
    }
  }

  /** `n` recvEvents in a row. */
  function ReceiveMany(s: string, n: nat): (seq<Outcome>, string) {
    Iterate(Receive, s, n)
  }

  // ---- the peer's frames -------------------------------------------------------------

  datatype Frame = Frame(fields: seq<Field>, body: string)

  /** The fields can be written one to a line, and the first Content-Length, if
      any, is the length of the body.  The body is arbitrary. */
  predicate WellFormed(f: Frame) {
    FieldsOk(true, f.fields) && LengthFits(FirstValue(f.fields, "Content-Length"), f.body)
  }

  predicate LengthFits(slen: string, body: string) {
    if slen == "" then body == "" else Atoi(slen) == Some(|body|)
  }

  predicate AllWellFormed(fs: seq<Frame>) {
    forall i :: 0 <= i < |fs| ==> WellFormed(fs[i])
  }

  function Print(f: Frame): string {
    PrintBlock(f.fields) + f.body
  }

  function PrintAll(fs: seq<Frame>): string {
    if fs == [] then "" else Print(fs[0]) + PrintAll(fs[1..])
  }

  /** What a frame decodes to on its own. */
  function Meaning(f: Frame): Outcome {
    Decode(HeaderOf(f.fields), f.body)
  }

  function Meanings(fs: seq<Frame>): seq<Outcome> {
    if fs == [] then [] else [Meaning(fs[0])] + Meanings(fs[1..])
  }

  // ---- the frame stream round trip -----------------------------------------------------

  /** recvEvent on a printed frame consumes exactly that frame, error or not. */
  lemma FrameRoundTrip(f: Frame, rest: string)
    requires WellFormed(f)
    ensures Receive(Print(f) + rest) == (Meaning(f), rest)
  {
    HeaderPrinted(f, rest);
    LengthPrinted(f);
    HeaderThenBody(Print(f) + rest, HeaderOf(f.fields), f.body, rest);
  }

  lemma HeaderPrinted(f: Frame, rest: string)
    requires FieldsOk(true, f.fields)
    ensures ReadHeader(true, Print(f) + rest) == Block(HeaderOf(f.fields), f.body + rest)
  {
    Regroup(PrintBlock(f.fields), f.body, rest);
    HeaderRoundTrip(true, f.fields, f.body + rest);
  }

  lemma Regroup<T>(a: seq<T>, b: seq<T>, d: seq<T>)
    ensures a + b + d == a + (b + d)
  {
  }

  lemma LengthPrinted(f: Frame)
    requires WellFormed(f)
    ensures LengthFits(Mime.Get(HeaderOf(f.fields), "Content-Length"), f.body)
  {
    GetFirst(f.fields, "Content-Length");
  }

  lemma HeaderThenBody(s: string, h: Headers, body: string, rest: string)
    requires ReadHeader(true, s) == Block(h, body + rest) && LengthFits(Mime.Get(h, "Content-Length"), body)
    ensures Receive(s) == (Decode(h, body), rest)
  {
    BodyRead(h, Mime.Get(h, "Content-Length"), body, rest);
  }

  lemma BodyRead(h: Headers, slen: string, body: string, rest: string)
    requires LengthFits(slen, body)
    ensures ReceiveBody(h, slen, body + rest) == (Decode(h, body), rest)
  {
    assert (body + rest)[..|body|] == body && (body + rest)[|body|..] == rest;
    assert body == "" ==> body + rest == rest;
  }

  /** Repeated recvEvent on the concatenated printing of any frames yields what
      each frame means, in order, and consumes every byte of them. */
  lemma {:induction false} StreamRoundTrip(fs: seq<Frame>, rest: string)
    requires AllWellFormed(fs)
    ensures ReceiveMany(PrintAll(fs) + rest, |fs|) == (Meanings(fs), rest)
  {
    if fs == [] {
      assert PrintAll(fs) + rest == rest;
    } else {
      assert PrintAll(fs) + rest == Print(fs[0]) + (PrintAll(fs[1..]) + rest);
      FrameRoundTrip(fs[0], PrintAll(fs[1..]) + rest);
      StreamRoundTrip(fs[1..], rest);
    }
  }

  function ContentOfFrame(f: Frame): Content {
    ContentOf(FirstValue(f.fields, "Content-Type"))
  }

  /** An accepted frame's event has the type of its Content-Type, and its body. */
  lemma TypedByContent(f: Frame)
    requires WellFormed(f) && Meaning(f).Received?
    ensures Meaning(f).event.kind == TypeOf(ContentOfFrame(f))
    ensures Meaning(f).event.rawBody == f.body
    ensures Meaning(f).event.body.escaped <==> ContentOfFrame(f) == EventPlain
  {
    GetFirst(f.fields, "Content-Type");
    DecodeByContent(HeaderOf(f.fields), f.body, ContentOfFrame(f));
  }

  /** It holds the first value of every header, in any letter case. */
  lemma HeadersKept(f: Frame, key: string)
    requires WellFormed(f) && Meaning(f).Received?
    ensures Mime.Get(Meaning(f).event.header.headers, key) == FirstValue(f.fields, key)
    ensures !Meaning(f).event.header.escaped ==>
            Meaning(f).event.header.Lookup(key) == FirstValue(f.fields, key)
  {
    GetFirst(f.fields, key);
  }

  /** Header values are taken as they are, except in a reply whose text has a `%`. */
  lemma EscapedExactly(f: Frame)
    requires WellFormed(f) && Meaning(f).Received?
    ensures Meaning(f).event.header.escaped <==>
            ContentOfFrame(f) == ReplyText && '%' in FirstValue(f.fields, "Reply-Text")
  {
    GetFirst(f.fields, "Content-Type");
    GetFirst(f.fields, "Reply-Text");
  }

  // ---- local failure -------------------------------------------------------------------

  lemma {:induction false} MeaningsAt(fs: seq<Frame>)
    ensures |Meanings(fs)| == |fs|
    ensures forall i :: 0 <= i < |fs| ==> Meanings(fs)[i] == Meaning(fs[i])
  {
    if fs != [] {
      MeaningsAt(fs[1..]);
    }
  }

  lemma {:induction false} MeaningsAppend(fs: seq<Frame>, f: Frame)
    ensures Meanings(fs + [f]) == Meanings(fs) + [Meaning(f)]
  {
    if fs == [] {
      assert [f][1..] == [] && fs + [f] == [f];
    } else {
      assert (fs + [f])[1..] == fs[1..] + [f];
      MeaningsAppend(fs[1..], f);
    }
  }

  /** `xs` without its element at `i`. */
  function Without<T>(xs: seq<T>, i: nat): seq<T>
    requires i < |xs|
  {
    xs[..i] + xs[i + 1..]
  }

  /** What repeated recvEvent makes of a printed frame list with bytes behind it. */
  function Stream(fs: seq<Frame>, rest: string): (seq<Outcome>, string) {
    ReceiveMany(PrintAll(fs) + rest, |fs|)
  }

  lemma MeaningsWithout(fs: seq<Frame>, i: nat)
    requires i < |fs|
    ensures |Meanings(fs)| == |fs| && Meanings(fs)[i] == Meaning(fs[i])
    ensures Without(Meanings(fs), i) == Meanings(Without(fs, i))
  {
    MeaningsAt(fs);
    MeaningsAt(Without(fs, i));
    WithoutPointwise(Meaning, fs, i, Meanings(fs), Meanings(Without(fs, i)));
  }

  lemma WithoutPointwise<S, T>(f: S -> T, xs: seq<S>, i: nat, ys: seq<T>, zs: seq<T>)
    requires i < |xs| == |ys| && forall k :: 0 <= k < |xs| ==> ys[k] == f(xs[k])
    requires |zs| == |xs| - 1 && forall k :: 0 <= k < |xs| - 1 ==> zs[k] == f(Without(xs, i)[k])
    ensures Without(ys, i) == zs
  {
  }

  lemma WithoutMeaning(fs: seq<Frame>, i: nat, rest: string,
                       all: (seq<Outcome>, string), others: (seq<Outcome>, string))
    requires i < |fs|
    requires all == (Meanings(fs), rest) && others == (Meanings(Without(fs, i)), rest)
    ensures |all.0| == |fs| && all.0[i] == Meaning(fs[i]) && others == (Without(all.0, i), all.1)
  {
    MeaningsWithout(fs, i);
  }

  /** A rejected frame is invisible to the others: the outcomes around it are those
      of the stream without it, and nothing of it is left over. */
  lemma LocalFailure(fs: seq<Frame>, i: nat, rest: string)
    requires AllWellFormed(fs) && i < |fs| && Meaning(fs[i]).Rejected?
    ensures |Stream(fs, rest).0| == |fs| && Stream(fs, rest).0[i] == Meaning(fs[i])
    ensures Stream(Without(fs, i), rest) == (Without(Stream(fs, rest).0, i), Stream(fs, rest).1)
  {
    StreamRoundTrip(fs, rest);
    StreamRoundTrip(Without(fs, i), rest);
    WithoutMeaning(fs, i, rest, Stream(fs, rest), Stream(Without(fs, i), rest));
  }

  /** Which well-formed frames are rejected, and which of these rejections
      HandleEvents takes for a lost connection: only a plain event whose inner
      header block has no blank line. */
  lemma RejectedExactly(f: Frame)
    requires WellFormed(f)
    ensures Meaning(f) != Panicked
    ensures Meaning(f).Rejected? <==>
            ContentOfFrame(f) == EventJsonOrXml
            || (ContentOfFrame(f) == EventPlain && ReadHeader(true, f.body).Failed?)
    ensures Meaning(f).Rejected? && ConnLost(Meaning(f).error) <==>
            ContentOfFrame(f) == EventPlain && ReadHeader(true, f.body).Failed? && ReadHeader(true, f.body).cut
  {
    GetFirst(f.fields, "Content-Type");
    DecodeByContent(HeaderOf(f.fields), f.body, ContentOfFrame(f));
  }

  /** An inner block printed without its blank line is such a frame, whatever its
      fields: the whole frame is consumed, and the connection is taken for lost. */
  lemma TruncatedInnerBlock(f: Frame, inner: seq<Field>)
    requires WellFormed(f) && ContentOfFrame(f) == EventPlain
    requires FieldsOk(true, inner) && f.body == PrintFields(inner)
    ensures Meaning(f) == Rejected(InnerCut) && ConnLost(InnerCut)
  {
    GetFirst(f.fields, "Content-Type");
    FieldsCut(true, inner, map[]);
    if inner != [] {
      assert PrintFields(inner)[0] == FieldLine(inner[0])[0] == inner[0].0[0];
    }
  }

  // ---- nested events ---------------------------------------------------------------------

  /** The keys and values of an event, before encoding. */
  predicate EventFields(fs: seq<Field>) {
    && DistinctKeys(fs)
    && forall i :: 0 <= i < |fs| ==>
         && FieldOk(true, (fs[i].0, ""))
         && fs[i].1 != ""
         && forall j :: 0 <= j < |fs[i].1| ==> IsByte(fs[i].1[j])
  }

  function EscapeFields(e: Escaping, fs: seq<Field>): (r: seq<Field>)
    requires forall i :: 0 <= i < |fs| ==> forall j :: 0 <= j < |fs[i].1| ==> IsByte(fs[i].1[j])
    ensures |r| == |fs|
    ensures forall i :: 0 <= i < |fs| ==> r[i] == (fs[i].0, Escape(e, fs[i].1))
  {
    seq(|fs|, i requires 0 <= i < |fs| => (fs[i].0, Escape(e, fs[i].1)))
  }

  lemma EscapedFieldsOk(e: Escaping, fs: seq<Field>)
    requires ValidEscaping(e) && EventFields(fs)
    ensures FieldsOk(true, EscapeFields(e, fs)) && DistinctKeys(EscapeFields(e, fs))
  {
    forall i | 0 <= i < |fs|
      ensures FieldOk(true, EscapeFields(e, fs)[i])
    {
      EscapeVisible(e, fs[i].1);
      var v := Escape(e, fs[i].1);
      assert '\n' !in v && '\r' !in v;
      assert FieldOk(true, (fs[i].0, ""));
    }
  }

  /** A generic event as the peer frames it: encoded inner fields, a blank line and
      an inner body, inside the outer body. */
  predicate IsNested(f: Frame, e: Escaping, inner: seq<Field>, text: string) {
    && ValidEscaping(e) && EventFields(inner)
    && WellFormed(f)
    && ContentOfFrame(f) == EventPlain
    && f.body == PrintBlock(EscapeFields(e, inner)) + text
  }

  /** Nested event round trip: with any encoder, every value comes back under any
      letter case of its key, from arbitrary bytes. */
  lemma NestedRoundTrip(f: Frame, e: Escaping, inner: seq<Field>, text: string)
    requires IsNested(f, e, inner, text)
    ensures Meaning(f).Received? && Meaning(f).event.kind == Generic && Meaning(f).event.rawBody == f.body
    ensures forall i, key :: 0 <= i < |inner| && Canonical(key) == Canonical(inner[i].0) ==>
              Meaning(f).event.Get(key) == inner[i].1
  {
    var escaped := EscapeFields(e, inner);
    EscapedFieldsOk(e, inner);
    HeaderRoundTrip(true, escaped, text);
    GetFirst(f.fields, "Content-Type");
    var event := Meaning(f).event;
    forall i, key | 0 <= i < |inner| && Canonical(key) == Canonical(inner[i].0)
      ensures event.Get(key) == inner[i].1
    {
      GetFirst(escaped, key);
      FirstValueAt(escaped, i, key);
      UnescapeEscape(e, inner[i].1);
    }
  }

  /** With a newline-terminated inner body of the length its inner Content-Length
      announces, GetTextBody returns it without the newline. */
  lemma NestedTextBody(f: Frame, e: Escaping, inner: seq<Field>, text: string, i: nat)
    requires IsNested(f, e, inner, text + "\n")
    requires i < |inner| && Canonical(inner[i].0) == Canonical("Content-Length")
    requires inner[i].1 == Decimal(|text| + 1) && |text| + 1 < INT64_LIMIT
    ensures Meaning(f).Received? && GetTextBody(Meaning(f).event) == Text(text)
  {
    NestedLength(f, e, inner, text + "\n", i);
    BodyByLength(Meaning(f).event, PrintBlock(EscapeFields(e, inner)), text);
  }

  lemma BodyByLength(event: Event, pre: string, text: string)
    requires event.kind == Generic && event.rawBody == pre + (text + "\n")
    requires event.body.Lookup("Content-Length") == Decimal(|text| + 1) && |text| + 1 < INT64_LIMIT
    ensures GetTextBody(event) == Text(text)
  {
    AtoiDecimal(|text| + 1);
    TextBodyIs(event, pre, text, "\n");
  }

  lemma NestedLength(f: Frame, e: Escaping, inner: seq<Field>, text: string, i: nat)
    requires IsNested(f, e, inner, text)
    requires i < |inner| && Canonical(inner[i].0) == Canonical("Content-Length")
    ensures Meaning(f).Received? && Meaning(f).event.kind == Generic && Meaning(f).event.rawBody == f.body
    ensures Meaning(f).event.body.Lookup("Content-Length") == inner[i].1
  {
    var escaped := EscapeFields(e, inner);
    EscapedFieldsOk(e, inner);
    HeaderRoundTrip(true, escaped, text);
    GetFirst(escaped, "Content-Length");
    FirstValueAt(escaped, i, "Content-Length");
    UnescapeEscape(e, inner[i].1);
    GetFirst(f.fields, "Content-Type");
  }

  // ---- replies ---------------------------------------------------------------------------

  /** The text of a command reply: decoded if it has a `%`, and empty if it then is
      malformed. */
  function ReplyValue(f: Frame): string {
    var raw := FirstValue(f.fields, "Reply-Text");
    if '%' !in raw then raw
    else
      match Unescape(raw)
      case None => ""
      case Some(t) => t
  }

  lemma ReplyMeans(f: Frame)
    requires WellFormed(f) && ContentOfFrame(f) == ReplyText
    ensures Meaning(f).Received? && Meaning(f).event.kind == CommandReply
    ensures Meaning(f).event.Get("Reply-Text") == ReplyValue(f)
  {
    GetFirst(f.fields, "Content-Type");
    GetFirst(f.fields, "Reply-Text");
  }

  /** For a reply framed by the peer, ErrOrRes reports an error exactly when its text
      starts with "-ERR " and is longer; and when the text is not encoded, exactly
      when it starts with "-ERR ". */
  lemma ReplyErrorExactly(f: Frame)
    requires WellFormed(f) && ContentOfFrame(f) == ReplyText
    ensures Meaning(f).Received?
    ensures ErrOrRes(Meaning(f).event).raw == ReplyValue(f)
    ensures ErrOrRes(Meaning(f).event).failure.Some? <==>
            HasPrefix(ReplyValue(f), ERR_PREFIX) && ReplyValue(f) != ERR_PREFIX
    ensures '%' !in FirstValue(f.fields, "Reply-Text") ==>
            (ErrOrRes(Meaning(f).event).failure.Some? <==> HasPrefix(ReplyValue(f), ERR_PREFIX))
    ensures ErrOrRes(Meaning(f).event).failure.Some? ==>
            ReplyValue(f) == ERR_PREFIX + ErrOrRes(Meaning(f).event).failure.value
  {
    ReplyMeans(f);
    FirstValueTrimmed(f.fields, "Reply-Text");
    ErrorExactly(Meaning(f).event);
  }

  /** The one-line form matters: an unescaped reply "-ERR" folded onto a blank line
      reads as "-ERR ", and the length guard keeps it from being an error. */
  lemma FoldedReplyNoError(rest: string)
    ensures var (out, left) := Receive(FoldedReply() + rest);
      && left == rest && out.Received? && RawReply(out.event) == ERR_PREFIX
      && !out.event.header.escaped && ErrOrRes(out.event).failure == None
  {
    FoldedBlock(rest);
    FoldedLookups();
    PlainReply(HeaderOf([("Content-Type", "command/reply"), ("Reply-Text", "-ERR ")]), ERR_PREFIX);
  }

  lemma FoldedLookups()
    ensures var h := HeaderOf([("Content-Type", "command/reply"), ("Reply-Text", "-ERR ")]);
      Mime.Get(h, "Content-Type") == "command/reply" && Mime.Get(h, "Reply-Text") == ERR_PREFIX
      && Mime.Get(h, "Content-Length") == ""
  {
    var fs := [("Content-Type", "command/reply"), ("Reply-Text", "-ERR ")];
    GetFirst(fs, "Content-Type");
    GetFirst(fs, "Reply-Text");
    GetFirst(fs, "Content-Length");
    FirstValueAbsent(fs, "Content-Length") by {
      assert Canonical("Content-Type")[8] != Canonical("Content-Length")[8] || |"Content-Type"| != |"Content-Length"|;
    }
    assert FirstValue(fs[1..], "Reply-Text") == "-ERR ";
  }

  lemma PlainReply(h: Headers, raw: string)
    requires Mime.Get(h, "Content-Type") == "command/reply" && Mime.Get(h, "Reply-Text") == raw && '%' !in raw
    ensures var out := Decode(h, "");
      && out.Received? && !out.event.header.escaped && RawReply(out.event) == raw
      && (raw == ERR_PREFIX ==> ErrOrRes(out.event).failure == None)
  {
    ContentExactly("command/reply");
    ErrorExactly(Event(MimeMap(h, false), NO_HEADERS, "", CommandReply));
  }

  function FoldedReply(): string {
    FieldLine(("Content-Type", "command/reply")) + "\r\n"
    + (FieldLine(("Reply-Text", "-ERR")) + "\r\n" + (" \r\n" + "\r\n"))
  }

  lemma FoldedBlock(rest: string)
    ensures ReadHeader(true, FoldedReply() + rest)
         == Block(HeaderOf([("Content-Type", "command/reply"), ("Reply-Text", "-ERR ")]), rest)
  {
    var content, reply := ("Content-Type", "command/reply"), ("Reply-Text", "-ERR");
    assert "-ERR" + " " == "-ERR ";
    FoldedFields(content, reply, rest);
  }

  lemma FoldedFields(f: Field, g: Field, rest: string)
    requires FieldOk(true, f) && FieldOk(true, g) && g.1 != ""
    ensures ReadHeader(true, FieldLine(f) + "\r\n" + (FieldLine(g) + "\r\n" + (" \r\n" + "\r\n")) + rest)
         == Block(HeaderOf([f, (g.0, g.1 + " ")]), rest)
  {
    var tail := FieldLine(g) + "\r\n" + (" \r\n" + ("\r\n" + rest));
    FoldedLayout(FieldLine(f), FieldLine(g), rest);
    Starts(f, tail);
    Starts(g, " \r\n" + ("\r\n" + rest));
    FieldPrinted(true, f, tail, map[]);
    FoldedTail(g, rest, Add(map[], Canonical(f.0), f.1));
    TwoHeaders(f, (g.0, g.1 + " "));
  }

  lemma Starts(f: Field, tail: string)
    requires FieldOk(true, f)
    ensures var s := FieldLine(f) + "\r\n" + tail; s != "" && !IsBlank(s[0])
  {
    assert (FieldLine(f) + "\r\n" + tail)[0] == f.0[0];
  }

  lemma FoldedTail(g: Field, rest: string, m: Headers)
    requires FieldOk(true, g) && g.1 != ""
    ensures Fields(true, FieldLine(g) + "\r\n" + (" \r\n" + ("\r\n" + rest)), m)
         == Block(Add(m, Canonical(g.0), g.1 + " "), rest)
  {
    FieldFolded(true, g, "\r\n" + rest, m);
    EmptyBlock(true, rest, Add(m, Canonical(g.0), g.1 + " "));
  }

  lemma FoldedLayout(f: string, g: string, rest: string)
    ensures f + "\r\n" + (g + "\r\n" + (" \r\n" + "\r\n")) + rest
         == f + "\r\n" + (g + "\r\n" + (" \r\n" + ("\r\n" + rest)))
  {
  }

  lemma TwoHeaders(f: Field, g: Field)
    ensures HeaderOf([f, g]) == Add(Add(map[], Canonical(f.0), f.1), Canonical(g.0), g.1)
  {
    assert [f, g][1..] == [g] && [g][1..] == [];
    assert AddAll(Add(map[], Canonical(f.0), f.1), [g])
        == AddAll(Add(Add(map[], Canonical(f.0), f.1), Canonical(g.0), g.1), []);
  }

  lemma {:induction false} FirstValueTrimmed(fs: seq<Field>, key: string)
    requires FieldsOk(true, fs)
    ensures Trimmed(FirstValue(fs, key))
    decreases |fs|
  {
    if fs != [] {
      assert FieldOk(true, fs[0]);
      FirstValueTrimmed(fs[1..], key);
    }
  }
}
