/** The header-block syntax of the wire: the part of net/textproto the library
    leans on, the peer's printer, and the proof that reading inverts printing.

    Field syntax follows section 2.2 of RFC 5322, with folding (2.2.3). */
module Mime {
  import opened Text

  // ---- lines -------------------------------------------------------------------

  datatype LineResult = Line(text: string, rest: string) | NoLine

  function DropCR(s: string): string {
    if s != "" && s[|s| - 1] == '\r' then s[..|s| - 1] else s
  }

  /** One line, ended by LF or CRLF; an unterminated last line counts. */
  function ReadLine(s: string): (r: LineResult)
    ensures r.Line? ==> |r.rest| < |s|
  {
    if s == "" then NoLine
    else
      var n := IndexOf(s, '\n');
      if n == |s| then Line(s, "") else Line(DropCR(s[..n]), s[n + 1..])
  }

  lemma ReadLinePrinted(line: string, rest: string)
    requires '\n' !in line && '\r' !in line
    ensures ReadLine(line + "\r\n" + rest) == Line(line, rest)
  {
    var s := line + "\r\n" + rest;
    var n := |line| + 1;
    assert s[..n] == line + "\r";
    assert s[n] == '\n';
    IndexOfAt(s, '\n', n);
    assert DropCR(line + "\r") == line;
    assert s[n + 1..] == rest;
  }

  /** A line end: LF or CRLF. */
  function LineEnd(lf: bool): string {
    if lf then "\n" else "\r\n"
  }

  lemma ReadLineEnded(line: string, lf: bool, rest: string)
    requires '\n' !in line && '\r' !in line
    ensures ReadLine(line + LineEnd(lf) + rest) == Line(line, rest)
  {
    if lf {
      var s := line + "\n" + rest;
      assert s[..|line|] == line && s[|line|] == '\n' && s[|line| + 1..] == rest;
      IndexOfAt(s, '\n', |line|);
    } else {
      ReadLinePrinted(line, rest);
    }
  }

  // ---- keys --------------------------------------------------------------------

  /** A byte of a field name: a token byte. */
  predicate IsToken(c: char) {
    || '0' <= c <= '9' || 'A' <= c <= 'Z' || '^' <= c <= 'z'
    || c == '!' || '#' <= c <= '\'' || c == '*' || c == '+' || c == '-' || c == '.' || c == '|' || c == '~'
  }

  predicate IsTokens(s: string) {
    forall i :: 0 <= i < |s| ==> IsToken(s[i])
  }

  /** textproto.CanonicalMIMEHeaderKey: upper case at the start and after each
      dash, lower case elsewhere; a key that is no token stays as it is. */
  function Canonical(k: string): (r: string)
    ensures |r| == |k|
  {
    if IsTokens(k) then
      seq(|k|, i requires 0 <= i < |k| => if i == 0 || k[i - 1] == '-' then ToUpper(k[i]) else ToLower(k[i]))
    else k
  }

  /** Accepted before the colon: token bytes, and spaces. */
  predicate ValidKey(k: string) {
    k != "" && forall i :: 0 <= i < |k| ==> IsToken(k[i]) || k[i] == ' '
  }

  /** Accepted after the colon: no control bytes but tab. */
  predicate ValidValue(v: string) {
    forall i :: 0 <= i < |v| ==> IsBlank(v[i]) || IsVisible(v[i])
  }

  // ---- header maps ---------------------------------------------------------------

  type Headers = map<string, seq<string>>

  function Add(m: Headers, key: string, value: string): Headers {
    m[key := (if key in m then m[key] else []) + [value]]
  }

  /** The first value under the canonical form of `key`, or "". */
  function Get(m: Headers, key: string): string {
    var k := Canonical(key);
    if k in m && m[k] != [] then m[k][0] else ""
  }

  // ---- reading -------------------------------------------------------------------

  datatype HeaderResult =
    | Block(headers: Headers, rest: string)
    | Failed(cut: bool, rest: string)   // cut: the stream ended; otherwise a malformed line

  function SkipBlanks(s: string): (r: string)
    ensures |r| <= |s|
  {
    if s != "" && IsBlank(s[0]) then SkipBlanks(s[1..]) else s
  }

  /** `line` with the folded lines that follow it. */
  function Continued(line: string, s: string): (r: (string, string))
    ensures |r.1| <= |s| && |line| <= |r.0| && r.0[..|line|] == line
    decreases |s|
  {
    var t := SkipBlanks(s);
    if |t| == |s| then (line, s)
    else
      match ReadLine(t)
      case NoLine => (line + " ", t)
      case Line(text, rest) => Continued(line + " " + Trim(text), rest)
  }

  /** Canonical key and value of a whole field line. */
  function ParseField(strict: bool, kv: string): Option<(string, string)> {
    var n := IndexOf(kv, ':');
    if n == |kv| then None
    else
      var key, value := kv[..n], kv[n + 1..];
      if strict && !(ValidKey(key) && ValidValue(value)) then None
      else Some((Canonical(key), TrimLeft(value)))
  }

  /** One field with the lines folded onto it, or the blank line, or neither. */
  datatype FieldResult =
    | Next(key: string, value: string, rest: string)
    | End(rest: string)
    | Bad(cut: bool, rest: string)

  function NextField(strict: bool, s: string): (r: FieldResult)
    ensures |r.rest| <= |s| && (r.Next? ==> |r.rest| < |s|)
  {
    match ReadLine(s)
    case NoLine => Bad(true, s)
    case Line(text, rest) =>
      if text == "" then End(rest)
      else if ':' !in text then Bad(false, rest)
      else
        var (kv, rest') := Continued(Trim(text), rest);
        match ParseField(strict, kv)
        case None => Bad(false, rest')
        case Some((key, value)) => Next(key, value, rest')
  }

  /** The fields up to the blank line.  `strict` is textproto's reader; the lenient
      one, standing for the peer's, takes any bytes around the first colon. */
  function Fields(strict: bool, s: string, m: Headers): (r: HeaderResult)
    ensures |r.rest| <= |s|
    decreases |s|
  {
    match NextField(strict, s)
    case Bad(cut, rest) => Failed(cut, rest)
    case End(rest) => Block(m, rest)
    case Next(key, value, rest) => Fields(strict, rest, Add(m, key, value))
  }

  /** ReadMIMEHeader; a block may not start with a blank. */
  function ReadHeader(strict: bool, s: string): (r: HeaderResult)
    ensures |r.rest| <= |s|
  {
    if s != "" && IsBlank(s[0]) then Failed(false, ReadLine(s).rest)
    else Fields(strict, s, map[])
  }

  // ---- printing ------------------------------------------------------------------

  type Field = (string, string)

  function FieldLine(f: Field): string {
    f.0 + ": " + f.1
  }

  function PrintFields(fs: seq<Field>): string {
    if fs == [] then "" else FieldLine(fs[0]) + "\r\n" + PrintFields(fs[1..])
  }

  /** A header block: the fields and a blank line. */
  function PrintBlock(fs: seq<Field>): string {
    PrintFields(fs) + "\r\n"
  }

  predicate OneLine(s: string) {
    '\n' !in s && '\r' !in s
  }

  /** A field that fits on one line: nothing in the key ends it early, and the
      value has no blank edge. */
  predicate FieldOk(strict: bool, f: Field) {
    && f.0 != "" && !IsBlank(f.0[0]) && ':' !in f.0
    && OneLine(f.0) && OneLine(f.1) && Trimmed(f.1)
    && (strict ==> ValidKey(f.0) && ValidValue(f.1))
  }

  predicate FieldsOk(strict: bool, fs: seq<Field>) {
    forall i :: 0 <= i < |fs| ==> FieldOk(strict, fs[i])
  }

  /** The header map of a field list, in order. */
  function AddAll(m: Headers, fs: seq<Field>): Headers
    decreases |fs|
  {
    if fs == [] then m else AddAll(Add(m, Canonical(fs[0].0), fs[0].1), fs[1..])
  }

  function HeaderOf(fs: seq<Field>): Headers {
    AddAll(map[], fs)
  }

  // ---- reading inverts printing ----------------------------------------------------

  lemma TrimFieldLine(f: Field)
    requires f.0 != "" && !IsBlank(f.0[0]) && Trimmed(f.1)
    ensures Trim(FieldLine(f)) == if f.1 == "" then f.0 + ":" else FieldLine(f)
  {
    var line := FieldLine(f);
    assert TrimLeft(line) == line;
    if f.1 == "" {
      assert line[..|line| - 1] == f.0 + ":";
      assert TrimRight(f.0 + ":") == f.0 + ":";
    } else {
      assert line[|line| - 1] == f.1[|f.1| - 1];
    }
  }

  lemma TrimLeftValue(v: string)
    requires Trimmed(v)
    ensures TrimLeft(" " + v) == v
  {
    assert (" " + v)[1..] == v;
  }

  lemma NoFold(line: string, s: string)
    requires s == "" || !IsBlank(s[0])
    ensures Continued(line, s) == (line, s)
  {
  }

  /** How a trimmed field line comes apart at its first colon. */
  lemma CutFieldLine(strict: bool, f: Field)
    requires FieldOk(strict, f)
    ensures ParseField(strict, Trim(FieldLine(f))) == Some((Canonical(f.0), f.1))
  {
    TrimFieldLine(f);
    SplitFieldLine(f);
    if f.1 == "" {
      CutAtColon(strict, f.0, "");
    } else {
      CutAtColon(strict, f.0, " " + f.1);
      TrimLeftValue(f.1);
    }
  }

  lemma SplitFieldLine(f: Field)
    ensures FieldLine(f) == f.0 + ":" + (" " + f.1)
    ensures f.0 + ":" + "" == f.0 + ":"
  {
  }

  lemma CutAtColon(strict: bool, key: string, value: string)
    requires ':' !in key && (strict ==> ValidKey(key) && ValidValue(value))
    ensures ParseField(strict, key + ":" + value) == Some((Canonical(key), TrimLeft(value)))
  {
    var kv := key + ":" + value;
    assert kv[..|key|] == key && kv[|key|] == ':' && kv[|key| + 1..] == value;
    IndexOfAt(kv, ':', |key|);
  }

  lemma FieldLineShape(f: Field)
    requires OneLine(f.0) && OneLine(f.1)
    ensures ':' in FieldLine(f) && OneLine(FieldLine(f))
  {
    assert FieldLine(f)[|f.0|] == ':';
  }

  /** One printed field is read back. */
  lemma FieldPrinted(strict: bool, f: Field, tail: string, m: Headers)
    requires FieldOk(strict, f)
    requires tail == "" || !IsBlank(tail[0])
    ensures Fields(strict, FieldLine(f) + "\r\n" + tail, m)
         == Fields(strict, tail, Add(m, Canonical(f.0), f.1))
  {
    var line := FieldLine(f);
    FieldLineShape(f);
    ReadLinePrinted(line, tail);
    CutFieldLine(strict, f);
    NoFold(Trim(line), tail);
    FieldsStep(strict, line + "\r\n" + tail, m, line, tail, Trim(line), tail, Canonical(f.0), f.1);
  }

  /** One field, from the pieces its line comes apart into. */
  lemma FieldsStep(strict: bool, s: string, m: Headers, text: string, rest: string, kv: string, rest': string,
                   key: string, value: string)
    requires ReadLine(s) == Line(text, rest) && ':' in text && Continued(Trim(text), rest) == (kv, rest')
    requires ParseField(strict, kv) == Some((key, value))
    ensures Fields(strict, s, m) == Fields(strict, rest', Add(m, key, value))
  {
  }

  /** A further line of a folded field: the blanks that open it, and its text. */
  type Fold = (string, string)

  predicate FoldOk(strict: bool, fold: Fold) {
    && fold.0 != "" && AllIn(fold.0, BLANKS)
    && OneLine(fold.1) && Trimmed(fold.1) && (strict ==> ValidValue(fold.1))
  }

  predicate FoldsOk(strict: bool, folds: seq<Fold>) {
    forall i :: 0 <= i < |folds| ==> FoldOk(strict, folds[i])
  }

  function PrintFolds(folds: seq<Fold>): string {
    if folds == [] then "" else folds[0].0 + (folds[0].1 + "\r\n" + PrintFolds(folds[1..]))
  }

  /** A text with folds behind it: the blanks that open each count as one. */
  function Unfold(text: string, folds: seq<Fold>): string
    decreases |folds|
  {
    if folds == [] then text else Unfold(text + " " + folds[0].1, folds[1..])
  }

  /** A field folded onto any number of further lines. */
  lemma FieldFoldedOnto(strict: bool, f: Field, folds: seq<Fold>, tail: string, m: Headers)
    requires FieldOk(strict, f) && f.1 != "" && FoldsOk(strict, folds)
    requires tail == "" || !IsBlank(tail[0])
    ensures Fields(strict, FieldLine(f) + "\r\n" + (PrintFolds(folds) + tail), m)
         == Fields(strict, tail, Add(m, Canonical(f.0), Unfold(f.1, folds)))
  {
    var line, folded := FieldLine(f), PrintFolds(folds) + tail;
    FieldLineShape(f);
    ReadLinePrinted(line, folded);
    TrimFieldLine(f);
    FoldOnto(strict, line, folds, tail);
    CutFolded(strict, f, folds);
    FieldsStep(strict, line + "\r\n" + folded, m, line, folded, Unfold(line, folds), tail,
               Canonical(f.0), Unfold(f.1, folds));
  }

  lemma CutFolded(strict: bool, f: Field, folds: seq<Fold>)
    requires FieldOk(strict, f) && f.1 != "" && FoldsOk(strict, folds)
    ensures ParseField(strict, Unfold(FieldLine(f), folds)) == Some((Canonical(f.0), Unfold(f.1, folds)))
  {
    var value := Unfold(f.1, folds);
    UnfoldKeeps(strict, f.1, folds);
    UnfoldBehind(f.0 + ": ", f.1, folds);
    CutAtColon(strict, f.0, " " + value);
    assert f.0 + ":" + (" " + value) == f.0 + ": " + value;
    assert (" " + value)[1..] == value;
  }

  lemma {:induction false} UnfoldKeeps(strict: bool, text: string, folds: seq<Fold>)
    requires FoldsOk(strict, folds) && (strict ==> ValidValue(text)) && text != ""
    ensures strict ==> ValidValue(" " + Unfold(text, folds))
    ensures Unfold(text, folds) != "" && Unfold(text, folds)[0] == text[0]
    decreases |folds|
  {
    if folds != [] {
      assert FoldOk(strict, folds[0]);
      UnfoldKeeps(strict, text + " " + folds[0].1, folds[1..]);
    }
  }

  lemma {:induction false} UnfoldBehind(a: string, b: string, folds: seq<Fold>)
    ensures Unfold(a + b, folds) == a + Unfold(b, folds)
    decreases |folds|
  {
    if folds != [] {
      assert a + b + " " + folds[0].1 == a + (b + " " + folds[0].1);
      UnfoldBehind(a, b + " " + folds[0].1, folds[1..]);
    }
  }

  lemma {:induction false} FoldOnto(strict: bool, line: string, folds: seq<Fold>, tail: string)
    requires FoldsOk(strict, folds) && (tail == "" || !IsBlank(tail[0]))
    ensures Continued(line, PrintFolds(folds) + tail) == (Unfold(line, folds), tail)
    decreases |folds|
  {
    if folds == [] {
      assert PrintFolds(folds) + tail == tail;
      NoFold(line, tail);
    } else {
      var (blanks, more) := folds[0];
      var rest := PrintFolds(folds[1..]) + tail;
      assert PrintFolds(folds) + tail == blanks + (more + "\r\n" + rest);
      OneFold(strict, line, folds[0], rest);
      FoldOnto(strict, line + " " + more, folds[1..], tail);
    }
  }

  lemma OneFold(strict: bool, line: string, fold: Fold, rest: string)
    requires FoldOk(strict, fold)
    ensures Continued(line, fold.0 + (fold.1 + "\r\n" + rest)) == Continued(line + " " + fold.1, rest)
  {
    var (blanks, more) := fold;
    var t := more + "\r\n" + rest;
    assert t[0] == if more == "" then '\r' else more[0];
    SkipAll(blanks, t);
    ReadLinePrinted(more, rest);
    TrimIs("", more, "");
    assert "" + more + "" == more && (more != "" ==> more[0] !in BLANKS && more[|more| - 1] !in BLANKS);
  }

  lemma {:induction false} SkipAll(blanks: string, t: string)
    requires AllIn(blanks, BLANKS) && (t != "" ==> !IsBlank(t[0]))
    ensures SkipBlanks(blanks + t) == t
  {
    if blanks == "" {
      assert blanks + t == t;
    } else {
      assert (blanks + t)[1..] == blanks[1..] + t && blanks[0] in BLANKS;
      SkipAll(blanks[1..], t);
    }
  }

  /** A field folded onto a blank line gains a trailing blank. */
  lemma FieldFolded(strict: bool, f: Field, tail: string, m: Headers)
    requires FieldOk(strict, f) && f.1 != ""
    requires tail == "" || !IsBlank(tail[0])
    ensures Fields(strict, FieldLine(f) + "\r\n" + (" \r\n" + tail), m)
         == Fields(strict, tail, Add(m, Canonical(f.0), f.1 + " "))
  {
    BlankFold(f.1, tail);
    FieldFoldedOnto(strict, f, [(" ", "")], tail, m);
  }

  lemma BlankFold(value: string, tail: string)
    ensures PrintFolds([(" ", "")]) + tail == " \r\n" + tail
    ensures Unfold(value, [(" ", "")]) == value + " "
  {
    var folds: seq<Fold> := [(" ", "")];
    assert folds[1..] == [];
    assert PrintFolds(folds) == " " + ("" + "\r\n" + "");
    assert " " + ("" + "\r\n" + "") + tail == " \r\n" + tail;
    assert value + " " + "" == value + " ";
  }

  lemma EmptyBlock(strict: bool, rest: string, m: Headers)
    ensures Fields(strict, "\r\n" + rest, m) == Block(m, rest)
  {
    ReadLinePrinted("", rest);
    assert "" + "\r\n" + rest == "\r\n" + rest;
  }

  /** A printed field list followed by a blank line is read back, and nothing
      behind it is touched. */
  lemma {:induction false} FieldsPrinted(strict: bool, fs: seq<Field>, rest: string, m: Headers)
    requires FieldsOk(strict, fs)
    ensures Fields(strict, PrintBlock(fs) + rest, m) == Block(AddAll(m, fs), rest)
    decreases |fs|
  {
    if fs == [] {
      ReadLinePrinted("", rest);
      assert PrintBlock(fs) + rest == "" + "\r\n" + rest;
    } else {
      var tail := PrintBlock(fs[1..]) + rest;
      assert PrintBlock(fs) + rest == FieldLine(fs[0]) + "\r\n" + tail;
      assert tail[0] == '\r' || (fs[1..] != [] && tail[0] == fs[1].0[0]) by {
        if fs[1..] == [] {
          assert PrintBlock(fs[1..]) == "\r\n";
        } else {
          assert PrintBlock(fs[1..])[0] == FieldLine(fs[1])[0];
        }
      }
      FieldPrinted(strict, fs[0], tail, m);
      FieldsPrinted(strict, fs[1..], rest, Add(m, Canonical(fs[0].0), fs[0].1));
    }
  }

  lemma BlockStart(strict: bool, fs: seq<Field>, rest: string)
    requires FieldsOk(strict, fs)
    ensures var s := PrintBlock(fs) + rest; s != "" && !IsBlank(s[0])
  {
    if fs != [] {
      assert (PrintBlock(fs) + rest)[0] == FieldLine(fs[0])[0] == fs[0].0[0];
    }
  }

  /** Header block round trip. */
  lemma HeaderRoundTrip(strict: bool, fs: seq<Field>, rest: string)
    requires FieldsOk(strict, fs)
    ensures ReadHeader(strict, PrintBlock(fs) + rest) == Block(HeaderOf(fs), rest)
  {
    BlockStart(strict, fs, rest);
    FieldsPrinted(strict, fs, rest, map[]);
  }

  /** Header fields each with a line end of its own, and the blank line. */
  function PrintEnded(fs: seq<Field>, lf: seq<bool>, last: bool): string
    requires |fs| == |lf|
  {
    if fs == [] then LineEnd(last)
    else FieldLine(fs[0]) + LineEnd(lf[0]) + PrintEnded(fs[1..], lf[1..], last)
  }

  /** The same with any mixture of line ends. */
  lemma EndedRoundTrip(strict: bool, fs: seq<Field>, lf: seq<bool>, last: bool, rest: string)
    requires FieldsOk(strict, fs) && |fs| == |lf|
    ensures ReadHeader(strict, PrintEnded(fs, lf, last) + rest) == Block(HeaderOf(fs), rest)
  {
    EndedStart(strict, fs, lf, last, rest);
    FieldsEnded(strict, fs, lf, last, rest, map[]);
  }

  lemma EndedStart(strict: bool, fs: seq<Field>, lf: seq<bool>, last: bool, rest: string)
    requires FieldsOk(strict, fs) && |fs| == |lf|
    ensures var s := PrintEnded(fs, lf, last) + rest; s != "" && !IsBlank(s[0])
  {
    if fs != [] {
      assert (PrintEnded(fs, lf, last) + rest)[0] == FieldLine(fs[0])[0] == fs[0].0[0];
    }
  }

  lemma {:induction false} FieldsEnded(strict: bool, fs: seq<Field>, lf: seq<bool>, last: bool, rest: string,
                                       m: Headers)
    requires FieldsOk(strict, fs) && |fs| == |lf|
    ensures Fields(strict, PrintEnded(fs, lf, last) + rest, m) == Block(AddAll(m, fs), rest)
    decreases |fs|
  {
    if fs == [] {
      ReadLineEnded("", last, rest);
      assert "" + LineEnd(last) + rest == LineEnd(last) + rest;
    } else {
      var tail := PrintEnded(fs[1..], lf[1..], last) + rest;
      var line := FieldLine(fs[0]);
      assert PrintEnded(fs, lf, last) + rest == line + LineEnd(lf[0]) + tail;
      EndedStart(strict, fs[1..], lf[1..], last, rest);
      FieldLineShape(fs[0]);
      ReadLineEnded(line, lf[0], tail);
      CutFieldLine(strict, fs[0]);
      NoFold(Trim(line), tail);
      FieldsStep(strict, line + LineEnd(lf[0]) + tail, m, line, tail, Trim(line), tail, Canonical(fs[0].0), fs[0].1);
      FieldsEnded(strict, fs[1..], lf[1..], last, rest, Add(m, Canonical(fs[0].0), fs[0].1));
    }
  }

  /** A printed field list with no blank line behind it reads as cut off. */
  lemma {:induction false} FieldsCut(strict: bool, fs: seq<Field>, m: Headers)
    requires FieldsOk(strict, fs)
    ensures Fields(strict, PrintFields(fs), m) == Failed(true, "")
    decreases |fs|
  {
    if fs != [] {
      var tail := PrintFields(fs[1..]);
      assert tail != "" ==> tail[0] == FieldLine(fs[1])[0] == fs[1].0[0];
      FieldPrinted(strict, fs[0], tail, m);
      FieldsCut(strict, fs[1..], Add(m, Canonical(fs[0].0), fs[0].1));
    }
  }

  // ---- looking up ------------------------------------------------------------------

  /** The value of the first field whose key has the canonical form of `key`. */
  function FirstValue(fs: seq<Field>, key: string): string {
    if fs == [] then ""
    else if Canonical(fs[0].0) == Canonical(key) then fs[0].1
    else FirstValue(fs[1..], key)
  }

  lemma {:induction false} GetAddAll(m: Headers, fs: seq<Field>, key: string)
    ensures Get(AddAll(m, fs), key)
         == if Canonical(key) in m && m[Canonical(key)] != [] then m[Canonical(key)][0]
            else FirstValue(fs, key)
    decreases |fs|
  {
    if fs != [] {
      GetAddAll(Add(m, Canonical(fs[0].0), fs[0].1), fs[1..], key);
    }
  }

  /** Header lookup is first-value lookup, in any letter case. */
  lemma GetFirst(fs: seq<Field>, key: string)
    ensures Get(HeaderOf(fs), key) == FirstValue(fs, key)
  {
    GetAddAll(map[], fs, key);
  }

  /** Keys differ in canonical form. */
  predicate DistinctKeys(fs: seq<Field>) {
    forall i, j :: 0 <= i < j < |fs| ==> Canonical(fs[i].0) != Canonical(fs[j].0)
  }

  lemma {:induction false} FirstValueAt(fs: seq<Field>, i: nat, key: string)
    requires DistinctKeys(fs) && i < |fs| && Canonical(fs[i].0) == Canonical(key)
    ensures FirstValue(fs, key) == fs[i].1
    decreases |fs|
  {
    if i > 0 {
      FirstValueAt(fs[1..], i - 1, key);
    }
  }

  lemma {:induction false} FirstValueAbsent(fs: seq<Field>, key: string)
    requires forall i :: 0 <= i < |fs| ==> Canonical(fs[i].0) != Canonical(key)
    ensures FirstValue(fs, key) == ""
    decreases |fs|
  {
    if fs != [] {
      FirstValueAbsent(fs[1..], key);
    }
  }

  /** Under distinct keys the header map is the field map, whatever the order. */
  lemma {:induction false} HeaderOfDistinct(fs: seq<Field>, m: Headers)
    requires DistinctKeys(fs)
    requires forall i :: 0 <= i < |fs| ==> Canonical(fs[i].0) !in m
    ensures forall k :: k in AddAll(m, fs) <==> k in m || HasKey(fs, k)
    ensures forall k :: k in m ==> AddAll(m, fs)[k] == m[k]
    ensures forall i :: 0 <= i < |fs| ==>
              HasKey(fs, Canonical(fs[i].0)) && AddAll(m, fs)[Canonical(fs[i].0)] == [fs[i].1]
    decreases |fs|
  {
    if fs != [] {
      var key, rest := Canonical(fs[0].0), fs[1..];
      var m' := Add(m, key, fs[0].1);
      HeaderOfDistinct(rest, m');
      HasKeyUncons(fs);
      assert m'[key] == [fs[0].1];
      forall i | 0 <= i < |fs|
        ensures HasKey(fs, Canonical(fs[i].0)) && AddAll(m, fs)[Canonical(fs[i].0)] == [fs[i].1]
      {
        assert i > 0 ==> fs[i] == rest[i - 1];
      }
    }
  }

  ghost predicate HasKey(fs: seq<Field>, k: string) {
    exists i :: 0 <= i < |fs| && Canonical(fs[i].0) == k
  }

  lemma HasKeyUncons(fs: seq<Field>)
    requires fs != []
    ensures forall k :: HasKey(fs, k) <==> Canonical(fs[0].0) == k || HasKey(fs[1..], k)
  {
    forall k | HasKey(fs[1..], k)
      ensures HasKey(fs, k)
    {
      var i :| 0 <= i < |fs[1..]| && Canonical(fs[1..][i].0) == k;
      assert fs[i + 1] == fs[1..][i];
    }
  }

  // ---- which keys and lines are accepted ---------------------------------------------

  /** A letter, a digit, a dash or an underscore. */
  predicate IsPlain(c: char) {
    'a' <= c <= 'z' || 'A' <= c <= 'Z' || '0' <= c <= '9' || c == '-' || c == '_'
  }

  /** Keys of plain characters with values of printable bytes, blanks inside included,
      are accepted. */
  lemma PlainFieldOk(key: string, value: string)
    requires key != "" && forall i :: 0 <= i < |key| ==> IsPlain(key[i])
    requires forall i :: 0 <= i < |value| ==> 32 <= value[i] as int < 127 || value[i] == '\t'
    requires NoEdge(value, BLANKS)
    ensures FieldOk(true, (key, value)) && IsTokens(key)
  {
  }

  /** Keys meet exactly if they are the same up to ASCII case. */
  lemma CanonicalExactly(j: string, k: string)
    requires IsTokens(j) && IsTokens(k)
    ensures Canonical(j) == Canonical(k) <==> SameLetters(j, k)
  {
    if SameLetters(j, k) {
      CanonicalSame(j, k);
    } else if Canonical(j) == Canonical(k) {
      CanonicalApart(j, k);
    }
  }

  lemma CanonicalSame(j: string, k: string)
    requires IsTokens(j) && IsTokens(k) && SameLetters(j, k)
    ensures Canonical(j) == Canonical(k)
  {
    forall i | 0 <= i < |j|
      ensures Canonical(j)[i] == Canonical(k)[i]
    {
      SameAt(j, k, i);
    }
    SameElements(Canonical(j), Canonical(k));
  }

  lemma SameElements<T>(a: seq<T>, b: seq<T>)
    requires |a| == |b| && forall i :: 0 <= i < |a| ==> a[i] == b[i]
    ensures a == b
  {
  }

  lemma SameAt(j: string, k: string, i: nat)
    requires IsTokens(j) && IsTokens(k) && SameLetters(j, k) && i < |j|
    ensures Canonical(j)[i] == Canonical(k)[i]
  {
    CanonicalAt(j, i);
    CanonicalAt(k, i);
    SameCase(j[i], k[i]);
    if i > 0 {
      SameCase(j[i - 1], k[i - 1]);
    }
  }

  lemma SameCase(c: char, d: char)
    requires SameLetter(c, d)
    ensures ToUpper(c) == ToUpper(d) && ToLower(c) == ToLower(d) && (c == '-' <==> d == '-')
  {
  }

  lemma CanonicalApart(j: string, k: string)
    requires IsTokens(j) && IsTokens(k) && Canonical(j) == Canonical(k)
    ensures SameLetters(j, k)
  {
    assert |j| == |Canonical(j)| == |Canonical(k)| == |k|;
    forall i | 0 <= i < |j|
      ensures SameLetter(j[i], k[i])
    {
      SameFromCanonical(j, k, i);
    }
  }

  lemma CanonicalAt(k: string, i: nat)
    requires IsTokens(k) && i < |k|
    ensures Canonical(k)[i] == if i == 0 || k[i - 1] == '-' then ToUpper(k[i]) else ToLower(k[i])
    ensures Canonical(k)[i] == '-' <==> k[i] == '-'
  {
  }

  lemma SameFromCanonical(j: string, k: string, i: nat)
    requires IsTokens(j) && IsTokens(k) && Canonical(j) == Canonical(k) && i < |j| == |k|
    ensures SameLetter(j[i], k[i])
  {
    CanonicalAt(j, i);
    CanonicalAt(k, i);
    if i > 0 {
      CanonicalAt(j, i - 1);
      CanonicalAt(k, i - 1);
    }
  }

  /** So a header is found in whatever case it is asked for. */
  lemma AnyCase(h: Headers, j: string, k: string)
    requires IsTokens(j) && SameLetters(j, k)
    ensures Get(h, j) == Get(h, k)
  {
    forall i | 0 <= i < |k|
      ensures IsToken(k[i])
    {
      assert SameLetter(j[i], k[i]);
    }
    CanonicalExactly(j, k);
  }

  /** A line without a colon is malformed, and ends there. */
  lemma NoColonRejected(strict: bool, line: string, tail: string, m: Headers)
    requires line != "" && OneLine(line) && ':' !in line
    ensures Fields(strict, line + "\r\n" + tail, m) == Failed(false, tail)
  {
    ReadLinePrinted(line, tail);
  }

  /** So is a block that opens with a blank. */
  lemma LeadingBlankRejected(strict: bool, line: string, tail: string)
    requires OneLine(line) && line != "" && (line[0] == ' ' || line[0] == '\t')
    ensures ReadHeader(strict, line + "\r\n" + tail) == Failed(false, tail)
  {
    ReadLinePrinted(line, tail);
  }

  /** textproto refuses a value with a control byte, and a key with one of the
      separators of RFC 5322 or RFC 7230 in it. */
  lemma BadByteRejected(key: string, value: string, tail: string, m: Headers)
    requires OneLine(key) && OneLine(value) && ':' !in key && NoEdge(key, BLANKS) && NoEdge(value, BLANKS)
    requires tail == "" || !IsBlank(tail[0])
    requires key != "" && value != ""
    requires (exists i :: 0 <= i < |value| && (value[i] as int < 32 || value[i] as int == 127) && value[i] != '\t')
          || (exists i :: 0 <= i < |key| && key[i] in "(),/;<=>?@[\\]{}\"")
    ensures Fields(true, key + ":" + value + "\r\n" + tail, m) == Failed(false, tail)
  {
    var line := key + ":" + value;
    ReadLinePrinted(line, tail);
    LineKeepsEdges(key, value);
    NoFold(line, tail);
    BadBytes(key, value);
    CutRefused(key, value);
    FieldRefused(true, line + "\r\n" + tail, m, line, tail, line, tail);
  }

  lemma LineKeepsEdges(key: string, value: string)
    requires OneLine(key) && OneLine(value) && key != "" && value != "" && NoEdge(key, BLANKS) && NoEdge(value, BLANKS)
    ensures var line := key + ":" + value; OneLine(line) && ':' in line && Trim(line) == line
  {
    var line := key + ":" + value;
    assert line[|key|] == ':' && line[0] == key[0] && line[|line| - 1] == value[|value| - 1];
    TrimIs("", line, "");
    assert "" + line + "" == line;
  }

  lemma CutRefused(key: string, value: string)
    requires ':' !in key && (!ValidKey(key) || !ValidValue(value))
    ensures ParseField(true, key + ":" + value) == None
  {
    var kv := key + ":" + value;
    assert kv[..|key|] == key && kv[|key|] == ':' && kv[|key| + 1..] == value;
    IndexOfAt(kv, ':', |key|);
  }

  /** A field line that does not parse. */
  lemma FieldRefused(strict: bool, s: string, m: Headers, text: string, rest: string, kv: string, rest': string)
    requires ReadLine(s) == Line(text, rest) && ':' in text && Continued(Trim(text), rest) == (kv, rest')
    requires ParseField(strict, kv) == None
    ensures Fields(strict, s, m) == Failed(false, rest')
  {
  }

  lemma BadBytes(key: string, value: string)
    requires (exists i :: 0 <= i < |value| && (value[i] as int < 32 || value[i] as int == 127) && value[i] != '\t')
          || (exists i :: 0 <= i < |key| && key[i] in "(),/;<=>?@[\\]{}\"")
    ensures !ValidKey(key) || !ValidValue(value)
  {
    if i :| 0 <= i < |value| && (value[i] as int < 32 || value[i] as int == 127) && value[i] != '\t' {
      assert !IsBlank(value[i]) && !IsVisible(value[i]);
    } else {
      var i :| 0 <= i < |key| && key[i] in "(),/;<=>?@[\\]{}\"";
      assert !IsToken(key[i]) && key[i] != ' ';
    }
  }
}
