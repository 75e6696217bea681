/** What the library writes: plain commands, sendmsg and sendevent, each with the
    peer's parser that inverts it. */
module Commands {
  import opened Text
  import opened Mime

  // ---- Send ------------------------------------------------------------------------

  function JoinSpaces(cmd: string, args: seq<string>): string {
    if args == [] then cmd else JoinSpaces(cmd, args[..|args| - 1]) + " " + args[|args| - 1]
  }

  /** The buffer Send writes: the words of the command, and a blank line. */
  method SendText(cmd: string, args: seq<string>) returns (buf: string)
    ensures buf == JoinSpaces(cmd, args) + "\r\n\r\n"
  {
    buf := cmd;
    assert args[..0] == [];
    for i := 0 to |args|
      invariant buf == JoinSpaces(cmd, args[..i])
    {
      assert args[..i + 1][..i] == args[..i];
      buf := buf + " ";
      buf := buf + args[i];
    }
    assert args[..|args|] == args;
    buf := buf + "\r\n\r\n";
  }

  /** The peer reads the words back as one line, then the blank line, then whatever
      follows. */
  lemma SendLine(cmd: string, args: seq<string>, rest: string)
    requires OneLine(cmd) && forall i :: 0 <= i < |args| ==> OneLine(args[i])
    ensures ReadLine(JoinSpaces(cmd, args) + "\r\n\r\n" + rest) == Line(JoinSpaces(cmd, args), "\r\n" + rest)
    ensures ReadLine("\r\n" + rest) == Line("", rest)
  {
    JoinOneLine(cmd, args);
    var line := JoinSpaces(cmd, args);
    ReadLinePrinted(line, "\r\n" + rest);
    TwoEnds(line, rest);
    BlankLine(rest);
  }

  /** The words of a line, between single blanks. */
  function Words(line: string): seq<string>
    decreases |line|
  {
    var n := IndexOf(line, ' ');
    if n == |line| then [line] else [line[..n]] + Words(line[n + 1..])
  }

  /** The peer tells the words apart again; a blank inside an argument makes more of it. */
  lemma {:induction false} SendWords(cmd: string, args: seq<string>)
    requires ' ' !in cmd && forall i :: 0 <= i < |args| ==> ' ' !in args[i]
    ensures Words(JoinSpaces(cmd, args)) == [cmd] + args
    decreases |args|
  {
    if args == [] {
      OneWord(cmd);
      assert [cmd] + args == [cmd];
    } else {
      var n := |args| - 1;
      SendWords(cmd, args[..n]);
      WordsJoin(JoinSpaces(cmd, args[..n]), args[n]);
      OneWord(args[n]);
      assert [cmd] + args == [cmd] + args[..n] + [args[n]];
    }
  }

  lemma OneWord(w: string)
    requires ' ' !in w
    ensures Words(w) == [w]
  {
  }

  lemma WordsJoin(a: string, b: string)
    ensures Words(a + " " + b) == Words(a) + Words(b)
  {
    WordsApart(a + " " + b, a, b);
  }

  lemma {:induction false} WordsApart(s: string, a: string, b: string)
    requires s == a + " " + b
    ensures Words(s) == Words(a) + Words(b)
    decreases |a|
  {
    var n := IndexOf(a, ' ');
    CutJoined(a, b, n);
    if n == |a| {
      FirstWord(s, a, b);
    } else {
      var rest := a[n + 1..];
      FirstWord(s, a[..n], rest + " " + b);
      FirstWord(a, a[..n], rest);
      WordsApart(rest + " " + b, rest, b);
      HeadThenParts(a[..n], Words(rest), Words(b));
    }
  }

  lemma HeadThenParts<T>(head: T, p: seq<T>, q: seq<T>)
    ensures [head] + (p + q) == [head] + p + q
  {
  }

  lemma FirstWord(s: string, head: string, tail: string)
    requires |head| < |s| && s[..|head|] == head && s[|head|] == ' ' && s[|head| + 1..] == tail && ' ' !in head
    ensures Words(s) == [head] + Words(tail)
  {
    IndexOfAt(s, ' ', |head|);
  }

  lemma CutJoined(a: string, b: string, n: nat)
    requires n <= |a| && (n < |a| ==> a[n] == ' ')
    ensures var s := a + " " + b;
      && n < |s| && s[..n] == a[..n] && s[n] == ' '
      && s[n + 1..] == if n < |a| then a[n + 1..] + " " + b else b
    ensures n == |a| ==> a[..n] == a
  {
  }

  lemma TwoEnds(line: string, rest: string)
    ensures line + "\r\n\r\n" + rest == line + "\r\n" + ("\r\n" + rest)
  {
  }

  lemma BlankLine(rest: string)
    ensures ReadLine("\r\n" + rest) == Line("", rest)
  {
    ReadLinePrinted("", rest);
    assert "" + "\r\n" + rest == "\r\n" + rest;
  }

  lemma {:induction false} JoinOneLine(cmd: string, args: seq<string>)
    requires OneLine(cmd) && forall i :: 0 <= i < |args| ==> OneLine(args[i])
    ensures OneLine(JoinSpaces(cmd, args))
  {
    if args != [] {
      JoinOneLine(cmd, args[..|args| - 1]);
    }
  }

  // ---- sendmsg ---------------------------------------------------------------------

  datatype Command = Command(uuid: string, app: string, args: string, sync: bool, loops: nat)

  const CALL_COMMAND: string := "call-command"
  const APP_NAME: string := "execute-app-name"
  const APP_ARGS: string := "execute-app-args"
  const EVENT_LOCK: string := "event-lock"
  const LOOPS: string := "loops"

  function FixedFields(cmd: Command): seq<Field> {
    [(CALL_COMMAND, "execute"), (APP_NAME, cmd.app), (APP_ARGS, cmd.args)]
  }

  /** The fields of a sendmsg. */
  function MessageFields(cmd: Command): seq<Field> {
    FixedFields(cmd)
    + (if cmd.sync then [(EVENT_LOCK, "true")] else [])
    + (if cmd.loops > 1 then [(LOOPS, Decimal(cmd.loops))] else [])
  }

  /** A command line, a header block, and one CRLF more. */
  function MessageText(cmd: Command): string {
    "sendmsg " + cmd.uuid + "\r\n" + PrintBlock(MessageFields(cmd)) + "\r\n"
  }

  /** Serialize, write by write. */
  method Serialize(cmd: Command) returns (buf: string)
    ensures buf == MessageText(cmd)
  {
    buf := "sendmsg ";
    buf := buf + cmd.uuid;
    buf := buf + "\r\ncall-command: execute";
    buf := buf + "\r\nexecute-app-name: ";
    buf := buf + cmd.app;
    buf := buf + "\r\nexecute-app-args: ";
    buf := buf + cmd.args;
    buf := buf + "\r\n";
    ghost var head := "sendmsg " + cmd.uuid + "\r\n";
    ghost var fs := FixedFields(cmd);
    FixedPart(cmd, head);
    if cmd.sync {
      LockLine();
      AppendField(head, fs, (EVENT_LOCK, "true"));
      fs := fs + [(EVENT_LOCK, "true")];
      buf := buf + "event-lock: true\r\n";
    }
    if cmd.loops > 1 {
      LoopsLine(cmd.loops);
      AppendField(head, fs, (LOOPS, Decimal(cmd.loops)));
      fs := fs + [(LOOPS, Decimal(cmd.loops))];
      buf := buf + ("loops: " + Decimal(cmd.loops) + "\r\n");
    }
    assert fs == MessageFields(cmd);
    Ending(head, fs);
    buf := buf + "\r\n\r\n";
  }

  /** To the letter. */
  lemma MessageLiteral(cmd: Command)
    ensures MessageText(cmd)
         == "sendmsg " + cmd.uuid + "\r\ncall-command: execute" + "\r\nexecute-app-name: " + cmd.app
            + "\r\nexecute-app-args: " + cmd.args + "\r\n"
            + (if cmd.sync then "event-lock: true\r\n" else "")
            + (if cmd.loops > 1 then "loops: " + Decimal(cmd.loops) + "\r\n" else "") + "\r\n\r\n"
  {
    var head, fixed := "sendmsg " + cmd.uuid + "\r\n", FixedFields(cmd);
    FixedPart(cmd, head);
    LockLine();
    LoopsLine(cmd.loops);
    var lock, loops := (EVENT_LOCK, "true"), (LOOPS, Decimal(cmd.loops));
    var locked := if cmd.sync then fixed + [lock] else fixed;
    var all := if cmd.loops > 1 then locked + [loops] else locked;
    AppendOptional(head, fixed, cmd.sync, lock);
    AppendOptional(head, locked, cmd.loops > 1, loops);
    Ending(head, all);
    assert all == MessageFields(cmd);
  }

  lemma AppendOptional(head: string, fs: seq<Field>, present: bool, f: Field)
    ensures head + PrintFields(if present then fs + [f] else fs)
         == head + PrintFields(fs) + (if present then FieldLine(f) + "\r\n" else "")
  {
    if present {
      AppendField(head, fs, f);
    } else {
      assert head + PrintFields(fs) + "" == head + PrintFields(fs);
    }
  }

  lemma AppendField(head: string, fs: seq<Field>, f: Field)
    ensures head + PrintFields(fs) + (FieldLine(f) + "\r\n") == head + PrintFields(fs + [f])
  {
    PrintOneMore(fs, f);
  }

  lemma Ending(head: string, fs: seq<Field>)
    ensures head + PrintFields(fs) + "\r\n\r\n" == head + PrintBlock(fs) + "\r\n"
  {
  }

  lemma Literals()
    ensures "\r\ncall-command: execute" == "\r\n" + (CALL_COMMAND + ": " + "execute")
    ensures "\r\nexecute-app-name: " == "\r\n" + (APP_NAME + ": ")
    ensures "\r\nexecute-app-args: " == "\r\n" + (APP_ARGS + ": ")
  {
  }

  lemma FixedPart(cmd: Command, head: string)
    requires head == "sendmsg " + cmd.uuid + "\r\n"
    ensures "sendmsg " + cmd.uuid + "\r\ncall-command: execute" + "\r\nexecute-app-name: " + cmd.app
            + "\r\nexecute-app-args: " + cmd.args + "\r\n"
         == head + PrintFields(FixedFields(cmd))
  {
    Literals();
    PrintThree(FixedFields(cmd));
    Regroup("sendmsg " + cmd.uuid, CALL_COMMAND + ": " + "execute", APP_NAME + ": ", cmd.app,
            APP_ARGS + ": ", cmd.args);
  }

  lemma Regroup(line: string, a: string, b: string, x: string, d: string, y: string)
    ensures line + ("\r\n" + a) + ("\r\n" + b) + x + ("\r\n" + d) + y + "\r\n"
         == line + "\r\n" + (a + "\r\n" + (b + x) + "\r\n" + (d + y) + "\r\n")
  {
  }

  lemma LockLine()
    ensures "event-lock: true\r\n" == FieldLine((EVENT_LOCK, "true")) + "\r\n"
  {
  }

  lemma LoopsLine(n: nat)
    ensures "loops: " + Decimal(n) + "\r\n" == FieldLine((LOOPS, Decimal(n))) + "\r\n"
  {
  }

  lemma PrintThree(fs: seq<Field>)
    requires |fs| == 3
    ensures PrintFields(fs) == FieldLine(fs[0]) + "\r\n" + FieldLine(fs[1]) + "\r\n" + FieldLine(fs[2]) + "\r\n"
  {
    assert fs[1..][1..][1..] == [];
    assert PrintFields(fs[1..][1..]) == FieldLine(fs[2]) + "\r\n" + PrintFields([]);
  }

  lemma {:induction false} PrintOneMore(fs: seq<Field>, f: Field)
    ensures PrintFields(fs + [f]) == PrintFields(fs) + FieldLine(f) + "\r\n"
  {
    if fs == [] {
      assert fs + [f] == [f] && [f][1..] == [];
      assert PrintFields([f]) == FieldLine(f) + "\r\n" + PrintFields([]);
    } else {
      assert (fs + [f])[1..] == fs[1..] + [f];
      PrintOneMore(fs[1..], f);
    }
  }

  /** The peer's reading of a sendmsg: the command, and what follows its header block. */
  function ParseMessage(s: string): Option<(Command, string)> {
    match ReadLine(s)
    case NoLine => None
    case Line(text, rest) =>
      if !HasPrefix(text, "sendmsg ") then None
      else
        match ReadHeader(false, rest)
        case Failed(_, _) => None
        case Block(h, rest') =>
          match Assemble(text[8..], Get(h, CALL_COMMAND), Get(h, APP_NAME), Get(h, APP_ARGS),
                         Get(h, EVENT_LOCK), Get(h, LOOPS))
          case None => None
          case Some(cmd) => Some((cmd, rest'))
  }

  function Assemble(uuid: string, call: string, app: string, args: string, lock: string, loops: string)
    : Option<Command>
  {
    if call != "execute" then None
    else if loops == "" then Some(Command(uuid, app, args, lock == "true", 1))
    else
      match ParseDecimal(loops)
      case None => None
      case Some(n) => Some(Command(uuid, app, args, lock == "true", n))
  }

  lemma AssembleInverts(cmd: Command)
    ensures Assemble(cmd.uuid, "execute", cmd.app, cmd.args, if cmd.sync then "true" else "",
                     if cmd.loops > 1 then Decimal(cmd.loops) else "") == Some(Normal(cmd))
  {
    DecimalRoundTrip(cmd.loops);
  }

  predicate Sendable(cmd: Command) {
    OneLine(cmd.uuid) && OneLine(cmd.app) && Trimmed(cmd.app) && OneLine(cmd.args) && Trimmed(cmd.args)
  }

  /** No loops means one loop. */
  function Normal(cmd: Command): Command {
    if cmd.loops == 0 then cmd.(loops := 1) else cmd
  }

  lemma MessageFieldsOk(cmd: Command)
    requires Sendable(cmd)
    ensures FieldsOk(false, MessageFields(cmd))
  {
    DecimalOneLine(cmd.loops);
    FixedOk(cmd);
    assert FieldOk(false, (EVENT_LOCK, "true"));
    assert FieldOk(false, (LOOPS, Decimal(cmd.loops)));
  }

  lemma FixedOk(cmd: Command)
    requires Sendable(cmd)
    ensures FieldsOk(false, FixedFields(cmd))
  {
    var fs := FixedFields(cmd);
    assert FieldOk(false, fs[0]) && FieldOk(false, fs[1]) && FieldOk(false, fs[2]);
  }

  lemma DecimalOneLine(n: nat)
    ensures OneLine(Decimal(n)) && Trimmed(Decimal(n))
  {
    var s := Decimal(n);
    assert forall i :: 0 <= i < |s| ==> IsDigit(s[i]);
  }

  lemma MessageKeysDistinct()
    ensures Canonical(CALL_COMMAND) != Canonical(APP_NAME) && Canonical(CALL_COMMAND) != Canonical(APP_ARGS)
    ensures Canonical(CALL_COMMAND) != Canonical(EVENT_LOCK) && Canonical(CALL_COMMAND) != Canonical(LOOPS)
    ensures Canonical(APP_NAME) != Canonical(APP_ARGS) && Canonical(APP_NAME) != Canonical(EVENT_LOCK)
    ensures Canonical(APP_NAME) != Canonical(LOOPS) && Canonical(APP_ARGS) != Canonical(EVENT_LOCK)
    ensures Canonical(APP_ARGS) != Canonical(LOOPS) && Canonical(EVENT_LOCK) != Canonical(LOOPS)
  {
    assert ToLower(Canonical(APP_NAME)[12]) == 'n' && ToLower(Canonical(APP_ARGS)[12]) == 'a';
  }

  lemma MessageFieldsAre(cmd: Command)
    ensures var fs := MessageFields(cmd);
      && 3 <= |fs| <= 5
      && fs[0] == (CALL_COMMAND, "execute") && fs[1] == (APP_NAME, cmd.app) && fs[2] == (APP_ARGS, cmd.args)
      && (|fs| == 3 <==> !cmd.sync && cmd.loops <= 1)
      && (|fs| == 5 <==> cmd.sync && cmd.loops > 1)
      && (cmd.sync ==> fs[3] == (EVENT_LOCK, "true"))
      && (cmd.loops > 1 ==> fs[|fs| - 1] == (LOOPS, Decimal(cmd.loops)))
  {
  }

  lemma MessageValues(cmd: Command)
    ensures var h := HeaderOf(MessageFields(cmd));
      && Get(h, CALL_COMMAND) == "execute" && Get(h, APP_NAME) == cmd.app && Get(h, APP_ARGS) == cmd.args
      && Get(h, EVENT_LOCK) == (if cmd.sync then "true" else "")
      && Get(h, LOOPS) == (if cmd.loops > 1 then Decimal(cmd.loops) else "")
  {
    var fs := MessageFields(cmd);
    MessageFieldsAre(cmd);
    MessageKeysDistinct();
    MessageDistinct(cmd);
    MessageValue(fs, 0, CALL_COMMAND);
    MessageValue(fs, 1, APP_NAME);
    MessageValue(fs, 2, APP_ARGS);
    MessageValue(fs, if cmd.sync then 3 else |fs|, EVENT_LOCK);
    MessageValue(fs, if cmd.loops > 1 then |fs| - 1 else |fs|, LOOPS);
  }

  predicate Lacks(fs: seq<Field>, key: string) {
    forall i :: 0 <= i < |fs| ==> Canonical(fs[i].0) != Canonical(key)
  }

  lemma DistinctSnoc(fs: seq<Field>, f: Field)
    requires DistinctKeys(fs) && Lacks(fs, f.0)
    ensures DistinctKeys(fs + [f])
    ensures forall key :: Lacks(fs, key) && Canonical(f.0) != Canonical(key) ==> Lacks(fs + [f], key)
  {
  }

  lemma ThreeDistinct(a: Field, b: Field, d: Field, key: string)
    requires Canonical(a.0) != Canonical(b.0) && Canonical(a.0) != Canonical(d.0) && Canonical(b.0) != Canonical(d.0)
    requires Canonical(a.0) != Canonical(key) && Canonical(b.0) != Canonical(key) && Canonical(d.0) != Canonical(key)
    ensures DistinctKeys([a, b, d]) && Lacks([a, b, d], key)
  {
  }

  lemma FixedDistinct(cmd: Command)
    ensures DistinctKeys(FixedFields(cmd)) && Lacks(FixedFields(cmd), EVENT_LOCK) && Lacks(FixedFields(cmd), LOOPS)
  {
    MessageKeysDistinct();
    var a, b, d := (CALL_COMMAND, "execute"), (APP_NAME, cmd.app), (APP_ARGS, cmd.args);
    ThreeDistinct(a, b, d, EVENT_LOCK);
    ThreeDistinct(a, b, d, LOOPS);
  }

  lemma MessageDistinct(cmd: Command)
    ensures DistinctKeys(MessageFields(cmd))
    ensures !cmd.sync ==> Lacks(MessageFields(cmd), EVENT_LOCK)
    ensures cmd.loops <= 1 ==> Lacks(MessageFields(cmd), LOOPS)
  {
    FixedDistinct(cmd);
    MessageKeysDistinct();
    var fs := FixedFields(cmd);
    if cmd.sync {
      DistinctSnoc(fs, (EVENT_LOCK, "true"));
      fs := fs + [(EVENT_LOCK, "true")];
    }
    if cmd.loops > 1 {
      DistinctSnoc(fs, (LOOPS, Decimal(cmd.loops)));
      fs := fs + [(LOOPS, Decimal(cmd.loops))];
    }
    assert fs == MessageFields(cmd);
  }

  /** The value at position `i`, or none when no key matches. */
  lemma MessageValue(fs: seq<Field>, i: nat, key: string)
    requires DistinctKeys(fs) && i <= |fs|
    requires if i < |fs| then Canonical(fs[i].0) == Canonical(key)
             else Lacks(fs, key)
    ensures Get(HeaderOf(fs), key) == if i < |fs| then fs[i].1 else ""
  {
    GetFirst(fs, key);
    if i < |fs| {
      FirstValueAt(fs, i, key);
    } else {
      FirstValueAbsent(fs, key);
    }
  }

  lemma Layout(line: string, block: string, body: string, rest: string)
    requires OneLine(line)
    ensures ReadLine(line + "\r\n" + block + body + rest) == Line(line, block + (body + rest))
  {
    assert line + "\r\n" + block + body + rest == line + "\r\n" + (block + (body + rest));
    ReadLinePrinted(line, block + (body + rest));
  }

  lemma PrefixSplit(p: string, s: string)
    ensures HasPrefix(p + s, p) && (p + s)[|p|..] == s
  {
  }

  /** Command round trip: the peer recovers every field of a sendmsg, with no loops
      read as one, and exactly one CRLF is left over. */
  lemma MessageRoundTrip(cmd: Command, rest: string)
    requires Sendable(cmd)
    ensures ParseMessage(MessageText(cmd) + rest) == Some((Normal(cmd), "\r\n" + rest))
  {
    var block, tail := PrintBlock(MessageFields(cmd)), "\r\n" + rest;
    Layout("sendmsg " + cmd.uuid, block, "\r\n", rest);
    MessageFieldsOk(cmd);
    HeaderRoundTrip(false, MessageFields(cmd), tail);
    MessageValues(cmd);
    PrefixSplit("sendmsg ", cmd.uuid);
    AssembleInverts(cmd);
  }

  /** So two commands that serialize alike are alike, up to no loops and one. */
  lemma SerializeInjective(a: Command, b: Command)
    requires Sendable(a) && Sendable(b)
    ensures MessageText(a) == MessageText(b) <==> Normal(a) == Normal(b)
  {
    MessageRoundTrip(a, "");
    MessageRoundTrip(b, "");
    if Normal(a) == Normal(b) {
      assert MessageFields(a) == MessageFields(b);
    }
  }

  // ---- sendevent ---------------------------------------------------------------------

  const SENDEVENT: string := "sendevent "
  const CONTENT_LENGTH: string := "Content-Length"

  /** The bytes of a sendevent with its headers written in the given order. */
  function EventText(name: string, order: seq<Field>, body: string): string {
    SENDEVENT + name + "\r\n" + PrintBlock(order + [(CONTENT_LENGTH, Decimal(|body|))]) + body
  }

  /** `order` lists every header not in `left` once. */
  ghost predicate IsPartOrder(headers: map<string, string>, left: set<string>, order: seq<Field>) {
    && (forall i :: 0 <= i < |order| ==>
          order[i].0 in headers && order[i].0 !in left && headers[order[i].0] == order[i].1)
    && (forall i, j :: 0 <= i < j < |order| ==> order[i].0 != order[j].0)
    && (forall k :: k in headers ==> k in left || Lists(order, k))
  }

  ghost predicate Lists(order: seq<Field>, k: string) {
    exists i :: 0 <= i < |order| && order[i].0 == k
  }

  /** `order` lists every header once. */
  ghost predicate IsOrder(headers: map<string, string>, order: seq<Field>) {
    IsPartOrder(headers, {}, order)
  }

  lemma OrderStep(headers: map<string, string>, left: set<string>, order: seq<Field>, k: string)
    requires IsPartOrder(headers, left, order) && k in left && left <= headers.Keys
    ensures IsPartOrder(headers, left - {k}, order + [(k, headers[k])])
  {
    var next := order + [(k, headers[k])];
    assert next[|order|].0 == k;
    forall j | j in headers && j !in left - {k}
      ensures Lists(next, j)
    {
      if j != k {
        var i :| 0 <= i < |order| && order[i].0 == j;
        assert next[i].0 == j;
      }
    }
  }

  /** SendEvent.  The headers come out in an arbitrary order, as map iteration has
      it. */
  method SendEvent(name: string, headers: map<string, string>, body: string)
    returns (buf: string)
    ensures exists order :: IsOrder(headers, order) && buf == EventText(name, order, body)
  {
    buf := "sendevent ";
    buf := buf + name;
    buf := buf + "\r\n";
    ghost var order: seq<Field> := [];
    ghost var head := SENDEVENT + name + "\r\n";
    var left := headers.Keys;
    while left != {}
      invariant left <= headers.Keys
      invariant buf == head + PrintFields(order)
      invariant IsPartOrder(headers, left, order)
      decreases |left|
    {
      var k :| k in left;
      OrderStep(headers, left, order, k);
      AppendField(head, order, (k, headers[k]));
      buf := buf + (k + ": " + headers[k] + "\r\n");
      order := order + [(k, headers[k])];
      left := left - {k};
    }
    LengthLine(head, order, |body|);
    buf := buf + ("Content-Length: " + Decimal(|body|) + "\r\n\r\n");
    buf := buf + body;
    assert IsOrder(headers, order) && buf == EventText(name, order, body);
  }

  /** The same to the letter, for a given order. */
  lemma EventLiteral(name: string, order: seq<Field>, body: string)
    ensures EventText(name, order, body)
         == "sendevent " + name + "\r\n" + PrintFields(order)
          + ("Content-Length: " + Decimal(|body|) + "\r\n\r\n") + body
  {
    LengthLine("sendevent " + name + "\r\n", order, |body|);
  }

  lemma LengthLine(head: string, order: seq<Field>, n: nat)
    ensures head + PrintFields(order) + ("Content-Length: " + Decimal(n) + "\r\n\r\n")
         == head + PrintBlock(order + [(CONTENT_LENGTH, Decimal(n))])
  {
    PrintOneMore(order, (CONTENT_LENGTH, Decimal(n)));
    LengthName();
    LengthRegroup(head, PrintFields(order), CONTENT_LENGTH, Decimal(n));
  }

  lemma LengthName()
    ensures "Content-Length: " == CONTENT_LENGTH + ": "
  {
  }

  lemma LengthRegroup(head: string, fields: string, k: string, v: string)
    ensures head + fields + (k + ": " + v + "\r\n\r\n") == head + (fields + (k + ": " + v) + "\r\n" + "\r\n")
  {
  }

  datatype ParsedEvent = ParsedEvent(name: string, headers: Headers, body: string)

  /** The peer's reading of a sendevent, and what follows it. */
  function ParseEvent(s: string): Option<(ParsedEvent, string)> {
    match ReadLine(s)
    case NoLine => None
    case Line(text, rest) =>
      if !HasPrefix(text, SENDEVENT) then None
      else
        match ReadHeader(false, rest)
        case Failed(_, _) => None
        case Block(h, rest') => TakeBody(text[|SENDEVENT|..], h, Get(h, CONTENT_LENGTH), rest')
  }

  function TakeBody(name: string, h: Headers, length: string, s: string): Option<(ParsedEvent, string)> {
    match ParseDecimal(length)
    case None => None
    case Some(n) => if n > |s| then None else Some((ParsedEvent(name, h, s[..n]), s[n..]))
  }

  lemma BodyTaken(name: string, h: Headers, body: string, rest: string)
    ensures TakeBody(name, h, Decimal(|body|), body + rest) == Some((ParsedEvent(name, h, body), rest))
  {
    DecimalRoundTrip(|body|);
    PrefixSplit(body, rest);
    assert (body + rest)[..|body|] == body;
  }

  /** Headers that fit a line each, with keys apart in canonical form and none of
      them a Content-Length. */
  ghost predicate EventHeaders(headers: map<string, string>) {
    && (forall k :: k in headers ==> FieldOk(false, (k, headers[k])) && Canonical(k) != Canonical(CONTENT_LENGTH))
    && (forall j, k :: j in headers && k in headers && Canonical(j) == Canonical(k) ==> j == k)
  }

  /** The header map the peer is to see. */
  ghost predicate CarriesHeaders(h: Headers, headers: map<string, string>, length: nat) {
    && (forall k :: k in headers ==> Canonical(k) in h && h[Canonical(k)] == [headers[k]])
    && Canonical(CONTENT_LENGTH) in h && h[Canonical(CONTENT_LENGTH)] == [Decimal(length)]
    && (forall c :: c in h ==> c == Canonical(CONTENT_LENGTH) || exists k :: k in headers && Canonical(k) == c)
  }

  /** There is only one such map. */
  lemma CarriedUnique(h1: Headers, h2: Headers, headers: map<string, string>, length: nat)
    requires CarriesHeaders(h1, headers, length) && CarriesHeaders(h2, headers, length)
    ensures h1 == h2
  {
    assert forall c :: c in h1 <==> c in h2;
    assert forall c :: c in h1 ==> h1[c] == h2[c];
  }

  lemma OrderFieldsOk(headers: map<string, string>, order: seq<Field>, length: nat)
    requires EventHeaders(headers) && IsOrder(headers, order)
    ensures FieldsOk(false, order + [(CONTENT_LENGTH, Decimal(length))])
    ensures DistinctKeys(order + [(CONTENT_LENGTH, Decimal(length))])
  {
    DecimalOneLine(length);
    DistinctSnoc(order, (CONTENT_LENGTH, Decimal(length)));
  }

  lemma OrderHeaders(headers: map<string, string>, order: seq<Field>, length: nat)
    requires EventHeaders(headers) && IsOrder(headers, order)
    requires DistinctKeys(order + [(CONTENT_LENGTH, Decimal(length))])
    ensures CarriesHeaders(HeaderOf(order + [(CONTENT_LENGTH, Decimal(length))]), headers, length)
  {
    var fs := order + [(CONTENT_LENGTH, Decimal(length))];
    HeaderOfDistinct(fs, map[]);
    var h := HeaderOf(fs);
    forall k | k in headers
      ensures Canonical(k) in h && h[Canonical(k)] == [headers[k]]
    {
      assert Lists(order, k);
      var i :| 0 <= i < |order| && order[i].0 == k;
      assert fs[i] == order[i];
    }
    assert fs[|order|] == (CONTENT_LENGTH, Decimal(length));
    forall c | c in h && c != Canonical(CONTENT_LENGTH)
      ensures exists k :: k in headers && Canonical(k) == c
    {
      var i :| 0 <= i < |fs| && Canonical(fs[i].0) == c;
      assert fs[i] == order[i];
    }
  }

  /** SendEvent round trip: in whatever order the headers are written, the peer
      recovers the name, exactly these headers with the true length of the body,
      and the body, and nothing behind it is touched. */
  lemma EventRoundTrip(name: string, headers: map<string, string>, order: seq<Field>, body: string, rest: string)
    requires OneLine(name) && EventHeaders(headers) && IsOrder(headers, order)
    ensures ParseEvent(EventText(name, order, body) + rest).Some?
    ensures var (e, left) := ParseEvent(EventText(name, order, body) + rest).value;
      e.name == name && CarriesHeaders(e.headers, headers, |body|) && e.body == body && left == rest
  {
    var fs := order + [(CONTENT_LENGTH, Decimal(|body|))];
    OrderFieldsOk(headers, order, |body|);
    OrderHeaders(headers, order, |body|);
    CarriedLength(HeaderOf(fs), headers, |body|);
    EventLine(name);
    EventParsed(SENDEVENT + name, name, fs, body, rest);
  }

  lemma EventLine(name: string)
    requires OneLine(name)
    ensures OneLine(SENDEVENT + name) && NamesEvent(SENDEVENT + name, name)
  {
    PrefixSplit(SENDEVENT, name);
  }

  lemma CarriedLength(h: Headers, headers: map<string, string>, length: nat)
    requires CarriesHeaders(h, headers, length)
    ensures Get(h, CONTENT_LENGTH) == Decimal(length)
  {
  }

  predicate NamesEvent(line: string, name: string) {
    HasPrefix(line, SENDEVENT) && line[|SENDEVENT|..] == name
  }

  lemma EventSteps(s: string, line: string, name: string, t: string, h: Headers, body: string, rest: string)
    requires ReadLine(s) == Line(line, t) && NamesEvent(line, name) && ReadHeader(false, t) == Block(h, body + rest)
    requires Get(h, CONTENT_LENGTH) == Decimal(|body|)
    ensures ParseEvent(s) == Some((ParsedEvent(name, h, body), rest))
  {
    BodyTaken(name, h, body, rest);
  }

  function Printed(line: string, fs: seq<Field>, body: string, rest: string): string {
    line + "\r\n" + PrintBlock(fs) + body + rest
  }

  lemma PrintedParts(line: string, fs: seq<Field>, body: string, rest: string) returns (t: string)
    requires OneLine(line) && FieldsOk(false, fs)
    ensures ReadLine(Printed(line, fs, body, rest)) == Line(line, t)
    ensures ReadHeader(false, t) == Block(HeaderOf(fs), body + rest)
  {
    t := PrintBlock(fs) + (body + rest);
    Layout(line, PrintBlock(fs), body, rest);
    HeaderRoundTrip(false, fs, body + rest);
  }

  lemma EventParsed(line: string, name: string, fs: seq<Field>, body: string, rest: string)
    requires OneLine(line) && NamesEvent(line, name)
    requires FieldsOk(false, fs) && Get(HeaderOf(fs), CONTENT_LENGTH) == Decimal(|body|)
    ensures ParseEvent(Printed(line, fs, body, rest)) == Some((ParsedEvent(name, HeaderOf(fs), body), rest))
  {
    var t := PrintedParts(line, fs, body, rest);
    EventSteps(Printed(line, fs, body, rest), line, name, t, HeaderOf(fs), body, rest);
  }

  /** The order of writing is invisible to the peer. */
  lemma OrderInvisible(name: string, headers: map<string, string>, o1: seq<Field>, o2: seq<Field>, body: string)
    requires OneLine(name) && EventHeaders(headers) && IsOrder(headers, o1) && IsOrder(headers, o2)
    ensures ParseEvent(EventText(name, o1, body)) == ParseEvent(EventText(name, o2, body))
  {
    EventRoundTrip(name, headers, o1, body, "");
    EventRoundTrip(name, headers, o2, body, "");
    assert EventText(name, o1, body) + "" == EventText(name, o1, body);
    assert EventText(name, o2, body) + "" == EventText(name, o2, body);
    CarriedUnique(ParseEvent(EventText(name, o1, body)).value.0.headers,
                  ParseEvent(EventText(name, o2, body)).value.0.headers, headers, |body|);
  }
}
