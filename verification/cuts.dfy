/** Streams with broken frames in them, and streams that end inside a frame: what
    recvEvent makes of them, and where the receive loop ends. */
module Cuts {
  import opened Text
  import opened Mime
  import opened Events
  import F = Frames
  import opened Connections
  import H = Handling

  // ---- a header block that breaks off ----------------------------------------------

  /** What stands behind the last LF. */
  function LastLine(s: string): string {
    if s == "" || s[|s| - 1] == '\n' then "" else LastLine(s[..|s| - 1]) + [s[|s| - 1]]
  }

  /** Broken off inside a line that does not pass for a field: before the colon, or
      between CR and LF. */
  predicate Torn(s: string) {
    var t := LastLine(s);
    t != "" && (':' !in t || t[|t| - 1] == '\r')
  }

  lemma {:induction false} LastLineAlone(t: string)
    requires '\n' !in t
    ensures LastLine(t) == t
  {
    if t != "" {
      LastLineAlone(t[..|t| - 1]);
    }
  }

  lemma {:induction false} LastLineBehind(a: string, s: string)
    ensures LastLine(a + "\n" + s) == LastLine(s)
    decreases |s|
  {
    var t := a + "\n" + s;
    if s == "" {
      assert t == a + "\n";
    } else if s[|s| - 1] != '\n' {
      assert t[..|t| - 1] == a + "\n" + s[..|s| - 1];
      LastLineBehind(a, s[..|s| - 1]);
    }
  }

  /** A block of fields that breaks off anywhere: in the middle of a line that is no
      field it reads as malformed, else as the end of the stream. */
  lemma {:induction false} BlockCut(fs: seq<Field>, n: nat, m: Headers)
    requires FieldsOk(true, fs) && n < |PrintBlock(fs)|
    ensures Fields(true, PrintBlock(fs)[..n], m) == Failed(!Torn(PrintBlock(fs)[..n]), "")
    decreases |fs|
  {
    if n == 0 {
      assert PrintBlock(fs)[..n] == "";
    } else if fs == [] {
      assert PrintBlock(fs)[..n] == "\r";
      TornKey("\r", m);
    } else {
      var k := n - (|FieldLine(fs[0])| + 2);
      BlockPrefix(fs, n);
      if k < 0 {
        TornField(fs[0], n, m);
      } else {
        BlockCut(fs[1..], k, Add(m, Canonical(fs[0].0), fs[0].1));
        BlockOpens(fs[1..], k);
        CutLater(fs[0], PrintBlock(fs[1..])[..k], PrintBlock(fs)[..n], m);
      }
    }
  }

  lemma BlockPrefix(fs: seq<Field>, n: nat)
    requires fs != [] && n < |PrintBlock(fs)|
    ensures var line := FieldLine(fs[0]) + "\r\n";
      && |PrintBlock(fs)| == |line| + |PrintBlock(fs[1..])|
      && (n < |line| ==> PrintBlock(fs)[..n] == line[..n])
      && (n >= |line| ==> PrintBlock(fs)[..n] == line + PrintBlock(fs[1..])[..n - |line|])
  {
    var line := FieldLine(fs[0]) + "\r\n";
    F.Regroup(line, PrintFields(fs[1..]), "\r\n");
    if n < |line| {
      PrefixWithin(line, PrintBlock(fs[1..]), n);
    } else {
      PrefixBehind(line, PrintBlock(fs[1..]), n);
    }
  }

  lemma CutLater(f: Field, tail: string, s: string, m: Headers)
    requires FieldOk(true, f) && (tail != "" ==> !IsBlank(tail[0]))
    requires Fields(true, tail, Add(m, Canonical(f.0), f.1)) == Failed(!Torn(tail), "")
    requires s == FieldLine(f) + "\r\n" + tail
    ensures Fields(true, s, m) == Failed(!Torn(s), "")
  {
    OneMoreField(f, tail, m);
  }

  lemma PrefixWithin<T>(a: seq<T>, b: seq<T>, n: nat)
    requires n <= |a|
    ensures (a + b)[..n] == a[..n]
  {
  }

  lemma PrefixBehind<T>(a: seq<T>, b: seq<T>, n: nat)
    requires |a| <= n <= |a + b|
    ensures (a + b)[..n] == a + b[..n - |a|]
  {
  }

  lemma BlockOpens(fs: seq<Field>, k: nat)
    requires FieldsOk(true, fs) && k < |PrintBlock(fs)|
    ensures PrintBlock(fs)[..k] != "" ==> !IsBlank(PrintBlock(fs)[..k][0])
  {
    BlockStart(true, fs, "");
    assert PrintBlock(fs) + "" == PrintBlock(fs);
  }

  lemma OneMoreField(f: Field, tail: string, m: Headers)
    requires FieldOk(true, f) && (tail != "" ==> !IsBlank(tail[0]))
    ensures var s := FieldLine(f) + "\r\n" + tail;
      Fields(true, s, m) == Fields(true, tail, Add(m, Canonical(f.0), f.1)) && (Torn(s) <==> Torn(tail))
  {
    FieldPrinted(true, f, tail, m);
    TornBehind(FieldLine(f), tail);
  }

  lemma TornBehind(line: string, tail: string)
    ensures Torn(line + "\r\n" + tail) <==> Torn(tail)
  {
    assert line + "\r\n" + tail == (line + "\r") + "\n" + tail;
    LastLineBehind(line + "\r", tail);
  }

  lemma LineAtEnd(q: string)
    requires q != "" && '\n' !in q
    ensures ReadLine(q) == Line(q, "")
  {
  }

  /** A field line that breaks off. */
  lemma TornField(f: Field, n: nat, m: Headers)
    requires FieldOk(true, f) && 0 < n < |FieldLine(f)| + 2
    ensures var q := (FieldLine(f) + "\r\n")[..n];
      '\n' !in q && Fields(true, q, m) == Failed(!Torn(q), "")
  {
    var q := (FieldLine(f) + "\r\n")[..n];
    if n <= |f.0| {
      assert q == f.0[..n];
      TornKey(q, m);
    } else {
      var w := (" " + f.1 + "\r")[..n - |f.0| - 1];
      assert FieldLine(f) + "\r\n" == f.0 + ":" + (" " + f.1 + "\r") + "\n";
      assert q == f.0 + ":" + w;
      TornColon(f, w, m);
    }
  }

  lemma TornKey(q: string, m: Headers)
    requires q != "" && '\n' !in q && ':' !in q
    ensures Fields(true, q, m) == Failed(!Torn(q), "")
  {
    LastLineAlone(q);
    LineAtEnd(q);
  }

  lemma TornColon(f: Field, w: string, m: Headers)
    requires FieldOk(true, f) && |w| <= |f.1| + 2 && w == (" " + f.1 + "\r")[..|w|]
    ensures var q := f.0 + ":" + w;
      '\n' !in q && Fields(true, q, m) == Failed(!Torn(q), "")
  {
    var q := f.0 + ":" + w;
    TornValue(f, w, m);
    NoNewline(f.1, w);
    TornLine(f.0, w);
    LastLineAlone(q);
    assert q[|q| - 1] == if w == "" then ':' else w[|w| - 1];
  }

  lemma NoNewline(value: string, w: string)
    requires OneLine(value) && w <= " " + value + "\r"
    ensures '\n' !in w
  {
    assert forall i :: 0 <= i < |w| ==> w[i] == (" " + value + "\r")[i];
  }

  /** ... behind its colon. */
  lemma TornValue(f: Field, w: string, m: Headers)
    requires FieldOk(true, f) && |w| <= |f.1| + 2 && w == (" " + f.1 + "\r")[..|w|]
    ensures Fields(true, f.0 + ":" + w, m) == Failed(w == "" || w[|w| - 1] != '\r', "")
  {
    var all := " " + f.1 + "\r";
    if |w| == |all| {
      assert w == all;
      TornInLineEnd(f, m);
    } else {
      assert all[..|w|] == (" " + f.1)[..|w|];
      TornInValue(f, w, m);
      assert w != "" ==> w[|w| - 1] == (" " + f.1)[|w| - 1];
    }
  }

  lemma TornInLineEnd(f: Field, m: Headers)
    requires FieldOk(true, f)
    ensures Fields(true, f.0 + ":" + (" " + f.1 + "\r"), m) == Failed(false, "")
  {
    var w := " " + f.1 + "\r";
    assert w[|w| - 1] == '\r' && !IsBlank('\r') && !IsVisible('\r');
    CutRefused(f.0, w);
    TornLine(f.0, w);
    TrimIs("", f.0 + ":" + w, "");
    assert "" + (f.0 + ":" + w) + "" == f.0 + ":" + w;
    FieldRefused(true, f.0 + ":" + w, m, f.0 + ":" + w, "", f.0 + ":" + w, "");
  }

  lemma TornLine(key: string, w: string)
    requires OneLine(key) && '\n' !in w
    ensures var q := key + ":" + w;
      && '\n' !in q && ReadLine(q) == Line(q, "") && ':' in q
      && (key != "" ==> q[0] == key[0]) && (w != "" ==> q[|q| - 1] == w[|w| - 1])
  {
    var q := key + ":" + w;
    assert q[|key|] == ':';
    LineAtEnd(q);
  }

  lemma TornInValue(f: Field, w: string, m: Headers)
    requires FieldOk(true, f) && |w| <= |f.1| + 1 && w == (" " + f.1)[..|w|]
    ensures Fields(true, f.0 + ":" + w, m) == Failed(true, "")
  {
    var v, post := BlanksBehind(w);
    ValuePart(f.1, w, v);
    TornLine(f.0, w);
    TornTrim(f, v, post);
    F.Regroup(f.0 + ":", v, post);
    CutAtColon(true, f.0, v);
    NoFold(f.0 + ":" + v, "");
    FieldsStep(true, f.0 + ":" + w, m, f.0 + ":" + w, "", f.0 + ":" + v, "", Canonical(f.0), TrimLeft(v));
  }

  lemma ValuePart(value: string, w: string, v: string)
    requires OneLine(value) && ValidValue(value) && w <= " " + value && v <= w
    ensures '\n' !in w && ValidValue(v)
  {
    assert forall i :: 0 <= i < |w| ==> w[i] == (" " + value)[i];
  }

  lemma TornTrim(f: Field, v: string, post: string)
    requires FieldOk(true, f) && AllIn(post, BLANKS) && (v != "" ==> v[|v| - 1] !in BLANKS)
    ensures Trim(f.0 + ":" + v + post) == f.0 + ":" + v
  {
    var t := f.0 + ":" + v;
    assert t[0] == f.0[0] && t[|t| - 1] == if v == "" then ':' else v[|v| - 1];
    TrimIs("", t, post);
    assert "" + t + post == t + post;
  }

  lemma {:induction false} BlanksBehind(w: string) returns (v: string, post: string)
    ensures w == v + post && AllIn(post, BLANKS) && (v != "" ==> v[|v| - 1] !in BLANKS)
  {
    if w != "" && w[|w| - 1] in BLANKS {
      v, post := BlanksBehind(w[..|w| - 1]);
      assert w == v + (post + [w[|w| - 1]]);
      post := post + [w[|w| - 1]];
    } else {
      v, post := w, "";
    }
  }

  // ---- a frame that breaks off -------------------------------------------------------

  /** A frame cut off inside its header block, in the middle of a line that is no field. */
  predicate TornAt(f: F.Frame, n: nat)
    requires n < |F.Print(f)|
  {
    n < |PrintBlock(f.fields)| && Torn(F.Print(f)[..n])
  }

  /** A frame cut off anywhere: nothing is left, and recvEvent reports a malformed header
      line, the end of the stream, or a cut body. */
  lemma FrameCut(f: F.Frame, n: nat)
    requires F.WellFormed(f) && n < |F.Print(f)|
    ensures F.Receive(F.Print(f)[..n])
         == (Rejected(if TornAt(f, n) then HeaderMalformed
                      else if n < |PrintBlock(f.fields)| then AtEnd else BodyCut), "")
  {
    var p, block := F.Print(f)[..n], PrintBlock(f.fields);
    if n < |block| {
      assert p == block[..n];
      BlockOpens(f.fields, n);
      BlockCut(f.fields, n, map[]);
    } else {
      var part := f.body[..n - |block|];
      assert p == block + part;
      HeaderRoundTrip(true, f.fields, part);
      F.LengthPrinted(f);
    }
  }

  // ---- frames and broken frames --------------------------------------------------------

  /** What a peer may send without losing the connection: a frame, header fields broken
      off by a line without a colon, or a header block with an unreadable length. */
  datatype Item =
    | Framed(frame: F.Frame)
    | Broken(before: seq<Field>, line: string)
    | BadLength(fields: seq<Field>)

  predicate ItemOk(i: Item) {
    match i
    case Framed(f) => F.WellFormed(f) && F.Meaning(f) != Rejected(InnerCut)
    case Broken(before, line) =>
      FieldsOk(true, before) && OneLine(line) && line != "" && ':' !in line && (before != [] ==> !IsBlank(line[0]))
    case BadLength(fields) =>
      FieldsOk(true, fields)
      && FirstValue(fields, "Content-Length") != "" && Atoi(FirstValue(fields, "Content-Length")) == None
  }

  function PrintItem(i: Item): string {
    match i
    case Framed(f) => F.Print(f)
    case Broken(before, line) => PrintFields(before) + (line + "\r\n")
    case BadLength(fields) => PrintBlock(fields)
  }

  function ItemOutcome(i: Item): Outcome {
    match i
    case Framed(f) => F.Meaning(f)
    case Broken(_, _) => Rejected(HeaderMalformed)
    case BadLength(_) => Rejected(LengthMalformed)
  }

  /** Each is one recvEvent, and nothing of it is left over. */
  lemma ItemRead(i: Item, rest: string)
    requires ItemOk(i)
    ensures F.Receive(PrintItem(i) + rest) == (ItemOutcome(i), rest)
  {
    match i {
      case Framed(f) => F.FrameRoundTrip(f, rest);
      case Broken(before, line) => BrokenRead(before, line, rest);
      case BadLength(fields) =>
        HeaderRoundTrip(true, fields, rest);
        GetFirst(fields, "Content-Length");
    }
  }

  lemma BrokenRead(before: seq<Field>, line: string, rest: string)
    requires ItemOk(Broken(before, line))
    ensures ReadHeader(true, PrintItem(Broken(before, line)) + rest) == Failed(false, rest)
  {
    var tail := line + "\r\n" + rest;
    F.Regroup(PrintFields(before), line + "\r\n", rest);
    if before == [] {
      assert PrintFields(before) + tail == tail;
      if IsBlank(line[0]) {
        LeadingBlankRejected(true, line, rest);
      } else {
        NoColonRejected(true, line, rest, map[]);
      }
    } else {
      assert (PrintFields(before) + tail)[0] == FieldLine(before[0])[0] == before[0].0[0];
      FieldsThen(before, tail, map[]);
      NoColonRejected(true, line, rest, AddAll(map[], before));
    }
  }

  lemma {:induction false} FieldsThen(fs: seq<Field>, tail: string, m: Headers)
    requires FieldsOk(true, fs) && (tail != "" ==> !IsBlank(tail[0]))
    ensures Fields(true, PrintFields(fs) + tail, m) == Fields(true, tail, AddAll(m, fs))
    decreases |fs|
  {
    if fs == [] {
      assert PrintFields(fs) + tail == tail;
    } else {
      var more := PrintFields(fs[1..]) + tail;
      assert PrintFields(fs) + tail == FieldLine(fs[0]) + "\r\n" + more;
      assert fs[1..] != [] ==> more[0] == FieldLine(fs[1])[0] == fs[1].0[0];
      assert fs[1..] == [] ==> more == tail;
      FieldPrinted(true, fs[0], more, m);
      FieldsThen(fs[1..], tail, Add(m, Canonical(fs[0].0), fs[0].1));
    }
  }

  predicate AllItemsOk(items: seq<Item>) {
    forall i :: 0 <= i < |items| ==> ItemOk(items[i])
  }

  function PrintItems(items: seq<Item>): string {
    if items == [] then "" else PrintItems(items[..|items| - 1]) + PrintItem(items[|items| - 1])
  }

  function Outcomes(items: seq<Item>): (outs: seq<Outcome>)
    ensures |outs| == |items|
  {
    if items == [] then [] else Outcomes(items[..|items| - 1]) + [ItemOutcome(items[|items| - 1])]
  }

  /** The frames among them. */
  function FramesOf(items: seq<Item>): seq<F.Frame> {
    if items == [] then []
    else
      var last := items[|items| - 1];
      FramesOf(items[..|items| - 1]) + (if last.Framed? then [last.frame] else [])
  }

  lemma {:induction false} ItemsRead(items: seq<Item>, rest: string)
    requires AllItemsOk(items)
    ensures F.ReceiveMany(PrintItems(items) + rest, |items|) == (Outcomes(items), rest)
    decreases |items|
  {
    if items == [] {
      assert PrintItems(items) + rest == rest;
    } else {
      var n := |items| - 1;
      var more := PrintItem(items[n]) + rest;
      assert PrintItems(items) + rest == PrintItems(items[..n]) + more;
      ItemsRead(items[..n], more);
      F.IterateSnoc(F.Receive, PrintItems(items) + rest, n);
      ItemRead(items[n], rest);
    }
  }

  /** Broken frames bring nothing to the channels. */
  lemma {:induction false} ItemsDelivered(h: H.Handed, items: seq<Item>)
    requires AllItemsOk(items)
    ensures H.HandOn(h, Outcomes(items)) == H.Behind(h, H.Delivered(FramesOf(items)))
    ensures H.AllHarmless(Outcomes(items))
    decreases |items|
  {
    OnlyFrames(h, items);
    FramesOk(items);
    H.ChannelsByContentType(h, FramesOf(items));
  }

  lemma {:induction false} FramesOk(items: seq<Item>)
    requires AllItemsOk(items)
    ensures F.AllWellFormed(FramesOf(items))
    decreases |items|
  {
    if items != [] {
      FramesOk(items[..|items| - 1]);
    }
  }

  lemma {:induction false} OnlyFrames(h: H.Handed, items: seq<Item>)
    requires AllItemsOk(items)
    ensures H.HandOn(h, Outcomes(items)) == H.HandOn(h, F.Meanings(FramesOf(items)))
    ensures H.AllHarmless(Outcomes(items))
    decreases |items|
  {
    if items != [] {
      var before, last := items[..|items| - 1], items[|items| - 1];
      OnlyFrames(h, before);
      OneItem(h, Outcomes(before), FramesOf(before), last);
      ItemHarmless(last);
    }
  }

  lemma OneItem(h: H.Handed, outs: seq<Outcome>, fs: seq<F.Frame>, last: Item)
    requires H.HandOn(h, outs) == H.HandOn(h, F.Meanings(fs))
    ensures H.HandOn(h, outs + [ItemOutcome(last)])
         == H.HandOn(h, F.Meanings(fs + (if last.Framed? then [last.frame] else [])))
  {
    H.FoldSnoc(H.HandOne, h, outs, ItemOutcome(last));
    if last.Framed? {
      F.MeaningsAppend(fs, last.frame);
      H.FoldSnoc(H.HandOne, h, F.Meanings(fs), F.Meaning(last.frame));
    } else {
      NothingHanded(H.HandOn(h, outs), last);
      assert fs + [] == fs;
    }
  }

  lemma NothingHanded(h: H.Handed, i: Item)
    requires !i.Framed?
    ensures H.HandOne(h, ItemOutcome(i)) == h
  {
  }

  lemma ItemHarmless(i: Item)
    requires ItemOk(i)
    ensures H.Harmless(ItemOutcome(i))
  {
    if i.Framed? && ItemOutcome(i).Rejected? {
      FrameErrors(i.frame);
    }
  }

  lemma FrameErrors(f: F.Frame)
    requires F.WellFormed(f) && F.Meaning(f).Rejected?
    ensures F.Meaning(f).error == Unsupported || F.Meaning(f).error == InnerCut || F.Meaning(f).error == InnerMalformed
  {
  }

  // ---- where the loop ends ---------------------------------------------------------------

  /** What ends it: a frame cut off anywhere, the end of the stream included; an event
      whose inner header fields have no blank line behind them; a negative length. */
  datatype Stop =
    | Cut(frame: F.Frame, at: nat)
    | InnerBlockCut(event: F.Frame, inner: seq<Field>)
    | NegativeLength(fields: seq<Field>, length: nat)

  predicate StopOk(stop: Stop) {
    match stop
    case Cut(f, at) => F.WellFormed(f) && at < |F.Print(f)|
    case InnerBlockCut(f, inner) =>
      F.WellFormed(f) && FirstValue(f.fields, "Content-Type") == "text/event-plain"
      && FieldsOk(true, inner) && f.body == PrintFields(inner)
    case NegativeLength(fields, length) =>
      FieldsOk(true, fields) && 0 < length < INT64_LIMIT
      && FirstValue(fields, "Content-Length") == "-" + Decimal(length)
  }

  function PrintStop(stop: Stop): string
    requires StopOk(stop)
  {
    match stop
    case Cut(f, at) => F.Print(f)[..at]
    case InnerBlockCut(f, _) => F.Print(f)
    case NegativeLength(fields, _) => PrintBlock(fields)
  }

  /** A line torn apart is read as malformed first, and costs the loop one more round. */
  function Extra(stop: Stop): (n: nat)
    requires StopOk(stop)
  {
    if stop.Cut? && TornAt(stop.frame, stop.at) then 1 else 0
  }

  function LastOutcome(stop: Stop): Outcome
    requires StopOk(stop)
  {
    match stop
    case Cut(f, at) => Rejected(if at < |PrintBlock(f.fields)| then AtEnd else BodyCut)
    case InnerBlockCut(_, _) => Rejected(InnerCut)
    case NegativeLength(_, _) => Panicked
  }

  function Before(stop: Stop): (outs: seq<Outcome>)
    requires StopOk(stop)
    ensures |outs| == Extra(stop)
  {
    if Extra(stop) == 1 then [Rejected(HeaderMalformed)] else []
  }

  lemma StopRead(stop: Stop, rest: string)
    requires StopOk(stop) && (stop.Cut? ==> rest == "")
    ensures Extra(stop) == 0 ==> F.Receive(PrintStop(stop) + rest) == (LastOutcome(stop), rest)
    ensures Extra(stop) == 1 ==> F.Receive(PrintStop(stop) + rest) == (Rejected(HeaderMalformed), "")
    ensures Extra(stop) == 1 ==> rest == "" && F.Receive("") == (LastOutcome(stop), "")
  {
    match stop {
      case Cut(f, at) =>
        FrameCut(f, at);
        assert PrintStop(stop) + rest == PrintStop(stop);
      case InnerBlockCut(f, inner) =>
        ContentExactly("text/event-plain");
        F.TruncatedInnerBlock(f, inner);
        F.FrameRoundTrip(f, rest);
      case NegativeLength(fields, length) =>
        HeaderRoundTrip(true, fields, rest);
        GetFirst(fields, "Content-Length");
        AtoiSigned(length, -(length as int));
    }
  }

  /** All that is read up to the end. */
  lemma StreamRead(items: seq<Item>, stop: Stop, rest: string, s: string, n: nat)
    requires AllItemsOk(items) && StopOk(stop) && (stop.Cut? ==> rest == "")
    requires s == PrintItems(items) + (PrintStop(stop) + rest) && n == |items| + Extra(stop) + 1
    ensures F.Iterate(F.Receive, s, n) == (Outcomes(items) + Before(stop) + [LastOutcome(stop)], rest)
  {
    ItemsRead(items, PrintStop(stop) + rest);
    StopRead(stop, rest);
    ReadsThen(F.Receive, s, |items|, Outcomes(items), PrintStop(stop) + rest,
              Extra(stop), Before(stop), LastOutcome(stop), rest, n);
  }

  lemma ReadsThen(read: string -> (Outcome, string), s: string, n: nat, outs: seq<Outcome>, more: string,
                  extra: nat, before: seq<Outcome>, last: Outcome, rest: string, all: nat)
    requires F.Iterate(read, s, n) == (outs, more) && all == n + extra + 1
    requires extra <= 1 && before == (if extra == 1 then [Rejected(HeaderMalformed)] else [])
    requires extra == 0 ==> read(more) == (last, rest)
    requires extra == 1 ==> read(more) == (Rejected(HeaderMalformed), "") && read("") == (last, rest)
    ensures F.Iterate(read, s, all) == (outs + before + [last], rest)
  {
    if extra == 1 {
      OneMoreRead(read, s, n, outs, more, Rejected(HeaderMalformed), "");
      OneMoreRead(read, s, n + 1, outs + before, "", last, rest);
    } else {
      OneMoreRead(read, s, n, outs, more, last, rest);
      assert outs + before == outs;
    }
  }

  lemma OneMoreRead<T>(read: string -> (T, string), s: string, n: nat, xs: seq<T>, left: string, x: T, rest: string)
    requires F.Iterate(read, s, n) == (xs, left) && read(left) == (x, rest)
    ensures F.Iterate(read, s, n + 1) == (xs + [x], rest)
  {
    F.IterateSnoc(read, s, n);
  }

  /** What the loop says when it ends there. */
  function EndOf(stop: Stop, autoRedial: bool): H.LoopEnd {
    H.Halts(if stop.NegativeLength? then H.Crash else if autoRedial then H.GoesToRedial else H.Ends)
  }

  /** Among reads that go on and one that does not, with room for all of them, the loop
      stops at that one. */
  lemma StopsAtBad(a: H.Account, good: seq<Outcome>, bad: Outcome, rest: string, n: nat,
                   end: H.LoopEnd, outs: seq<Outcome>, last: Outcome)
    requires (good + [bad], rest) == F.Iterate(a.read, a.stream, |good| + 1) && |good| < n
    requires H.AllHarmless(good) && !H.Harmless(bad) && H.Within(H.HandOn(a.start, good), a.cap)
    requires !end.Halts? ==> |outs| == n && a.Progress(outs)
    requires end.Halts? ==> |outs| < n && a.StoppedAt(outs, end, last)
    ensures outs == good && a.left == rest && a.now == H.HandOn(a.start, good)
    ensures H.Stops(end, bad, a.now, a.cap, a.autoRedial)
  {
    if !end.Halts? {
      ReadAt(a.read, a.stream, good, bad, outs);
    } else {
      NoEarlierStop(a, good, bad, rest, end, outs, last);
      SameEnds(outs, last, good, bad);
    }
  }

  lemma SameEnds<T>(xs: seq<T>, x: T, ys: seq<T>, y: T)
    requires |xs| == |ys|
    ensures xs + [x] == ys + [y] ==> xs == ys && x == y
  {
    assert (xs + [x])[..|xs|] == xs && (ys + [y])[..|ys|] == ys;
    assert (xs + [x])[|xs|] == x && (ys + [y])[|ys|] == y;
  }

  lemma NoEarlierStop(a: H.Account, good: seq<Outcome>, bad: Outcome, rest: string,
                      end: H.LoopEnd, outs: seq<Outcome>, last: Outcome)
    requires (good + [bad], rest) == F.Iterate(a.read, a.stream, |good| + 1)
    requires H.AllHarmless(good) && !H.Harmless(bad) && H.Within(H.HandOn(a.start, good), a.cap)
    requires a.StoppedAt(outs, end, last)
    ensures |outs| == |good|
  {
    NotBehind(a.read, a.stream, good, bad, outs, last);
    NotBefore(a.read, a.stream, good, bad, outs, last);
    if |outs| < |good| {
      NoStopBefore(a.start, good, outs, last, end, a.cap, a.autoRedial);
    }
  }

  lemma NotBefore<T>(read: string -> (T, string), s: string, good: seq<T>, bad: T, outs: seq<T>, last: T)
    requires F.Iterate(read, s, |good| + 1).0 == good + [bad]
    requires F.Iterate(read, s, |outs| + 1).0 == outs + [last]
    ensures |outs| < |good| ==> last == good[|outs|] && outs == good[..|outs|]
  {
    if |outs| < |good| {
      F.IteratePrefix(read, s, |outs| + 1, |good| + 1);
      assert outs + [last] == (good + [bad])[..|outs| + 1] == good[..|outs|] + [good[|outs|]];
      SameEnds(outs, last, good[..|outs|], good[|outs|]);
    }
  }

  lemma NotBehind(read: string -> (Outcome, string), s: string, good: seq<Outcome>, bad: Outcome,
                  outs: seq<Outcome>, last: Outcome)
    requires F.Iterate(read, s, |good| + 1).0 == good + [bad] && !H.Harmless(bad)
    requires F.Iterate(read, s, |outs| + 1).0 == outs + [last] && H.AllHarmless(outs)
    ensures |outs| <= |good|
  {
    F.IteratePrefix(read, s, |outs|, |outs| + 1);
    assert (outs + [last])[..|outs|] == outs;
    if |outs| > |good| {
      ReadAt(read, s, good, bad, outs);
    }
  }

  lemma ReadAt<T>(read: string -> (T, string), s: string, before: seq<T>, x: T, all: seq<T>)
    requires F.Iterate(read, s, |before| + 1).0 == before + [x]
    requires F.Iterate(read, s, |all|).0 == all && |before| < |all|
    ensures all[|before|] == x
  {
    F.IteratePrefix(read, s, |before| + 1, |all|);
    assert all[..|before| + 1][|before|] == all[|before|];
  }

  lemma NoStopBefore(h: H.Handed, good: seq<Outcome>, outs: seq<Outcome>, last: Outcome, end: H.LoopEnd,
                     cap: nat, autoRedial: bool)
    requires |outs| < |good| && last == good[|outs|] && outs == good[..|outs|]
    requires H.AllHarmless(good) && H.Within(H.HandOn(h, good), cap)
    ensures !H.Stops(end, last, H.HandOn(h, outs), cap, autoRedial)
  {
    assert outs + [last] == good[..|outs| + 1];
    HandOnGrows(h, good, |outs| + 1, cap);
    H.FoldSnoc(H.HandOne, h, outs, last);
    if last.Received? {
      FullOverflows(H.HandOn(h, outs), last.event, cap);
    }
  }

  lemma {:induction false} HandOnGrows(h: H.Handed, outs: seq<Outcome>, k: nat, cap: nat)
    requires k <= |outs| && H.Within(H.HandOn(h, outs), cap)
    ensures H.Within(H.HandOn(h, outs[..k]), cap)
    decreases |outs|
  {
    if k == |outs| {
      assert outs[..k] == outs;
    } else {
      var n := |outs| - 1;
      H.SplitLast(outs);
      H.FoldSnoc(H.HandOne, h, outs[..n], outs[n]);
      HandOneGrows(H.HandOn(h, outs[..n]), outs[n], cap);
      HandOnGrows(h, outs[..n], k, cap);
      assert outs[..n][..k] == outs[..k];
    }
  }

  lemma HandOneGrows(h: H.Handed, out: Outcome, cap: nat)
    requires H.Within(H.HandOne(h, out), cap)
    ensures H.Within(h, cap)
  {
  }

  lemma FullOverflows(h: H.Handed, e: Event, cap: nat)
    ensures H.Full(h, e.kind, cap) ==> !H.Within(H.HandOne(h, Received(e)), cap)
  {
  }

  /** The loop over such a stream, with room for every frame of it: one round for each
      frame, broken or not, and it ends where the stream does, to redial if that is
      enabled.  A malformed header line or an unreadable length ends nothing.  The
      channels and the handlers then have the accepted frames, by Content-Type. */
  method LoopUntil(loop: H.EventLoop, ghost items: seq<Item>, ghost stop: Stop, ghost rest: string, n: nat, done: bool)
    returns (end: H.LoopEnd, ghost rounds: nat)
    requires AllItemsOk(items) && StopOk(stop) && (stop.Cut? ==> rest == "")
    requires loop.conn.connected && !loop.conn.closing
    requires loop.conn.Input() == PrintItems(items) + (PrintStop(stop) + rest)
    requires H.Within(H.Behind(loop.View(), H.Delivered(FramesOf(items))), loop.sendReplyCap)
    requires n > |items| + 1
    modifies loop, loop.conn.reader
    ensures end == EndOf(stop, loop.conn.autoRedial)
    ensures rounds == |items| + Extra(stop)
    ensures loop.View() == H.Behind(old(loop.View()), H.Delivered(FramesOf(items)))
    ensures loop.conn.Input() == rest
  {
    ghost var stream, start := loop.conn.Input(), loop.View();
    ghost var outs, last;
    end, outs, last := loop.HandleEvents(n, done);
    rounds := |outs|;
    EndsThere(loop.Since(stream, start), items, stop, rest, n, end, outs, last);
  }

  lemma EndsThere(a: H.Account, items: seq<Item>, stop: Stop, rest: string, n: nat,
                  end: H.LoopEnd, outs: seq<Outcome>, last: Outcome)
    requires AllItemsOk(items) && StopOk(stop) && (stop.Cut? ==> rest == "") && n > |items| + 1
    requires a.read == F.Receive && a.stream == PrintItems(items) + (PrintStop(stop) + rest)
    requires H.Within(H.Behind(a.start, H.Delivered(FramesOf(items))), a.cap)
    requires !end.Halts? ==> |outs| == n && a.Progress(outs)
    requires end.Halts? ==> |outs| < n && a.StoppedAt(outs, end, last)
    ensures end == EndOf(stop, a.autoRedial) && |outs| == |items| + Extra(stop) && a.left == rest
    ensures a.now == H.Behind(a.start, H.Delivered(FramesOf(items)))
  {
    var good := Outcomes(items) + Before(stop);
    StreamRead(items, stop, rest, a.stream, |good| + 1);
    ItemsDelivered(a.start, items);
    ExtraHandsNothing(a.start, items, stop);
    LastStops(stop);
    StopsAtBad(a, good, LastOutcome(stop), rest, n, end, outs, last);
    EndIs(stop.NegativeLength?, LastOutcome(stop), end, a.now, a.cap, a.autoRedial);
  }

  lemma LastStops(stop: Stop)
    requires StopOk(stop)
    ensures !H.Harmless(LastOutcome(stop))
    ensures if stop.NegativeLength? then LastOutcome(stop) == Panicked else LastOutcome(stop).Rejected?
  {
  }

  lemma EndIs(crash: bool, bad: Outcome, end: H.LoopEnd, h: H.Handed, cap: nat, autoRedial: bool)
    requires if crash then bad == Panicked else bad.Rejected?
    requires H.Stops(end, bad, h, cap, autoRedial)
    ensures end == H.Halts(if crash then H.Crash else if autoRedial then H.GoesToRedial else H.Ends)
  {
  }

  lemma ExtraHandsNothing(h: H.Handed, items: seq<Item>, stop: Stop)
    requires StopOk(stop) && H.AllHarmless(Outcomes(items))
    ensures var good := Outcomes(items) + Before(stop);
      H.HandOn(h, good) == H.HandOn(h, Outcomes(items)) && H.AllHarmless(good)
  {
    if Extra(stop) == 1 {
      H.FoldSnoc(H.HandOne, h, Outcomes(items), Rejected(HeaderMalformed));
    } else {
      assert Outcomes(items) + Before(stop) == Outcomes(items);
    }
  }
}
