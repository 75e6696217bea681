/** Byte strings: trimming, decimal numbers, percent-encoding, ASCII case.
    A byte is a char below 256. */
module Text {
  datatype Option<+T> = None | Some(value: T)

  // ---- searching and trimming ----------------------------------------------

  /** Position of the first `c`, or the length. */
  function IndexOf(s: string, c: char): (n: nat)
    ensures n <= |s| && c !in s[..n] && (n < |s| ==> s[n] == c)
    ensures n == |s| <==> c !in s
  {
    if s == "" then 0
    else if s[0] == c then 0
    else
      var n := 1 + IndexOf(s[1..], c);
      assert s[..n] == [s[0]] + s[1..][..n - 1];
      n
  }

  lemma IndexOfAt(s: string, c: char, n: nat)
    requires n < |s| && s[n] == c && c !in s[..n]
    ensures IndexOf(s, c) == n
  {
    NotBefore(s, c, n);
    NotBefore(s, c, IndexOf(s, c));
  }

  lemma NotBefore(s: string, c: char, n: nat)
    requires n <= |s| && c !in s[..n]
    ensures forall i :: 0 <= i < n ==> s[i] != c
  {
    assert forall i :: 0 <= i < n ==> s[..n][i] == s[i];
  }

  /** Space and tab. */
  predicate IsBlank(c: char) {
    c == ' ' || c == '\t'
  }

  function TrimLeft(s: string): string {
    if s != "" && IsBlank(s[0]) then TrimLeft(s[1..]) else s
  }

  function TrimRight(s: string): string {
    if s != "" && IsBlank(s[|s| - 1]) then TrimRight(s[..|s| - 1]) else s
  }

  function Trim(s: string): string {
    TrimRight(TrimLeft(s))
  }

  /** No blank at either edge. */
  predicate Trimmed(s: string) {
    s != "" ==> !IsBlank(s[0]) && !IsBlank(s[|s| - 1])
  }

  /** The ASCII white space of strings.TrimSpace. */
  predicate IsSpace(c: char) {
    c == ' ' || c == '\t' || c == '\n' || c == '\r' || c as int == 11 || c as int == 12
  }

  function TrimSpaceLeft(s: string): string {
    if s != "" && IsSpace(s[0]) then TrimSpaceLeft(s[1..]) else s
  }

  function TrimSpaceRight(s: string): (r: string)
    ensures r == "" || !IsSpace(r[|r| - 1])
  {
    if s != "" && IsSpace(s[|s| - 1]) then TrimSpaceRight(s[..|s| - 1]) else s
  }

  function TrimSpace(s: string): string {
    TrimSpaceRight(TrimSpaceLeft(s))
  }

  // ---- what trimming keeps ---------------------------------------------------

  /** Every character is one of `cs`. */
  predicate AllIn(s: string, cs: string) {
    forall i :: 0 <= i < |s| ==> s[i] in cs
  }

  /** Neither edge is one of `cs`. */
  predicate NoEdge(s: string, cs: string) {
    s != "" ==> s[0] !in cs && s[|s| - 1] !in cs
  }

  const BLANKS: string := " \t"
  const WHITE: string := " \t\n\r\U{00000B}\U{00000C}"

  lemma {:induction false} TrimSpaceLeftIs(pre: string, t: string)
    requires AllIn(pre, WHITE) && (t != "" ==> t[0] !in WHITE)
    ensures TrimSpaceLeft(pre + t) == t
  {
    if pre == "" {
      assert pre + t == t;
    } else {
      assert (pre + t)[1..] == pre[1..] + t && pre[0] in WHITE;
      TrimSpaceLeftIs(pre[1..], t);
    }
  }

  lemma {:induction false} TrimSpaceRightIs(t: string, post: string)
    requires AllIn(post, WHITE) && (t != "" ==> t[|t| - 1] !in WHITE)
    ensures TrimSpaceRight(t + post) == t
    decreases |post|
  {
    if post == "" {
      assert t + post == t;
    } else {
      var n := |post| - 1;
      assert (t + post)[..|t + post| - 1] == t + post[..n] && post[n] in WHITE;
      TrimSpaceRightIs(t, post[..n]);
    }
  }

  /** TrimSpace, exactly: whatever white space surrounds a text without a white edge,
      that text comes back. */
  lemma TrimSpaceIs(pre: string, t: string, post: string)
    requires AllIn(pre, WHITE) && AllIn(post, WHITE) && NoEdge(t, WHITE)
    ensures TrimSpace(pre + t + post) == t
  {
    if t == "" {
      assert pre + t + post == (pre + post) + "";
      TrimSpaceLeftIs(pre + post, "");
    } else {
      assert pre + t + post == pre + (t + post);
      TrimSpaceLeftIs(pre, t + post);
      TrimSpaceRightIs(t, post);
    }
  }

  /** And every string comes apart that way. */
  lemma TrimSpaceParts(s: string) returns (pre: string, post: string)
    ensures s == pre + TrimSpace(s) + post && AllIn(pre, WHITE) && AllIn(post, WHITE) && NoEdge(TrimSpace(s), WHITE)
  {
    pre := SpaceLeft(s);
    var t := TrimSpaceLeft(s);
    post := SpaceRight(t);
    var r := TrimSpace(s);
    assert t == r + post && s == pre + t;
    assert r != "" ==> r[0] == t[0];
  }

  lemma {:induction false} SpaceLeft(s: string) returns (pre: string)
    ensures s == pre + TrimSpaceLeft(s) && AllIn(pre, WHITE)
    ensures TrimSpaceLeft(s) != "" ==> TrimSpaceLeft(s)[0] !in WHITE
  {
    if s != "" && IsSpace(s[0]) {
      var more := SpaceLeft(s[1..]);
      pre := [s[0]] + more;
      assert s == [s[0]] + s[1..] && s[0] in WHITE;
    } else {
      pre := "";
      assert s != "" ==> s[0] !in WHITE;
    }
  }

  lemma {:induction false} SpaceRight(s: string) returns (post: string)
    ensures s == TrimSpaceRight(s) + post && AllIn(post, WHITE)
    ensures TrimSpaceRight(s) != "" ==> TrimSpaceRight(s)[|TrimSpaceRight(s)| - 1] !in WHITE
  {
    if s != "" && IsSpace(s[|s| - 1]) {
      var n := |s| - 1;
      var more := SpaceRight(s[..n]);
      post := more + [s[n]];
      assert s == s[..n] + [s[n]] && s[n] in WHITE;
    } else {
      post := "";
      assert s != "" ==> s[|s| - 1] !in WHITE;
    }
  }

  lemma {:induction false} TrimLeftIs(pre: string, t: string)
    requires AllIn(pre, BLANKS) && (t != "" ==> t[0] !in BLANKS)
    ensures TrimLeft(pre + t) == t
  {
    if pre == "" {
      assert pre + t == t;
    } else {
      assert (pre + t)[1..] == pre[1..] + t && pre[0] in BLANKS;
      TrimLeftIs(pre[1..], t);
    }
  }

  lemma {:induction false} TrimRightIs(t: string, post: string)
    requires AllIn(post, BLANKS) && (t != "" ==> t[|t| - 1] !in BLANKS)
    ensures TrimRight(t + post) == t
    decreases |post|
  {
    if post == "" {
      assert t + post == t;
    } else {
      var n := |post| - 1;
      assert (t + post)[..|t + post| - 1] == t + post[..n] && post[n] in BLANKS;
      TrimRightIs(t, post[..n]);
    }
  }

  /** The same for the blanks around a line. */
  lemma TrimIs(pre: string, t: string, post: string)
    requires AllIn(pre, BLANKS) && AllIn(post, BLANKS) && NoEdge(t, BLANKS)
    ensures Trim(pre + t + post) == t
  {
    if t == "" {
      assert pre + t + post == (pre + post) + "";
      TrimLeftIs(pre + post, "");
    } else {
      assert pre + t + post == pre + (t + post);
      TrimLeftIs(pre, t + post);
      TrimRightIs(t, post);
    }
  }

  predicate HasPrefix(s: string, p: string) {
    |p| <= |s| && s[..|p|] == p
  }

  // ---- decimal numbers -------------------------------------------------------

  predicate IsDigit(c: char) {
    '0' <= c <= '9'
  }

  function DigitChar(d: nat): (c: char)
    requires d < 10
    ensures IsDigit(c) && c as int == '0' as int + d
  {
    ('0' as int + d) as char
  }

  /** The decimal numeral of `n`. */
  function Decimal(n: nat): (s: string)
    ensures s != "" && forall i :: 0 <= i < |s| ==> IsDigit(s[i])
  {
    if n < 10 then [DigitChar(n)] else Decimal(n / 10) + [DigitChar(n % 10)]
  }

  /** The value of a string of digits. */
  function Value(s: string): nat
    requires forall i :: 0 <= i < |s| ==> IsDigit(s[i])
  {
    if s == "" then 0
    else
      assert IsDigit(s[|s| - 1]);
      Value(s[..|s| - 1]) * 10 + (s[|s| - 1] as int - '0' as int)
  }

  predicate AllDigits(s: string) {
    s != "" && forall i :: 0 <= i < |s| ==> IsDigit(s[i])
  }

  function ParseDecimal(s: string): Option<nat> {
    if AllDigits(s) then Some(Value(s)) else None
  }

  lemma {:induction false} DecimalRoundTrip(n: nat)
    ensures ParseDecimal(Decimal(n)) == Some(n)
  {
    var s := Decimal(n);
    assert Value(s) == Value(s[..|s| - 1]) * 10 + (s[|s| - 1] as int - '0' as int);
    if n >= 10 {
      DecimalRoundTrip(n / 10);
      assert s[..|s| - 1] == Decimal(n / 10) && s[|s| - 1] == DigitChar(n % 10);
    } else {
      assert s[..|s| - 1] == "" && Value("") == 0;
    }
  }

  const INT64_LIMIT: int := 0x8000_0000_0000_0000

  /** strconv.Atoi: an optional sign, digits, and a 64-bit result. */
  function Atoi(s: string): Option<int> {
    var signed := s != "" && (s[0] == '-' || s[0] == '+');
    match ParseDecimal(if signed then s[1..] else s)
    case None => None
    case Some(n) =>
      var sign := if signed && s[0] == '-' then -1 else 1;
      var v := sign * n;
      if -INT64_LIMIT <= v < INT64_LIMIT then Some(v) else None
  }

  /** What strconv.Atoi returns along with an error: the nearest bound for a number
      out of range, 0 for what is no number. */
  function AtoiOnError(s: string): int {
    var signed := s != "" && (s[0] == '-' || s[0] == '+');
    match ParseDecimal(if signed then s[1..] else s)
    case None => 0
    case Some(_) => if signed && s[0] == '-' then -INT64_LIMIT else INT64_LIMIT - 1
  }

  lemma AtoiDecimal(n: nat)
    requires n < INT64_LIMIT
    ensures Atoi(Decimal(n)) == Some(n)
  {
    DecimalRoundTrip(n);
    assert IsDigit(Decimal(n)[0]);
  }

  /** A sign is read, and what does not fit 64 bits is refused. */
  lemma AtoiSigned(n: nat, v: int)
    requires v + n == 0
    ensures Atoi("-" + Decimal(n)) == if n <= INT64_LIMIT then Some(v) else None
    ensures Atoi("+" + Decimal(n)) == if n < INT64_LIMIT then Some(n) else None
    ensures Atoi(Decimal(n)) == if n < INT64_LIMIT then Some(n) else None
  {
    DecimalRoundTrip(n);
    SignedIs('-', Decimal(n), n, v);
    SignedIs('+', Decimal(n), n, n);
    assert IsDigit(Decimal(n)[0]);
  }

  lemma SignedIs(sign: char, digits: string, n: nat, v: int)
    requires ParseDecimal(digits) == Some(n)
    requires (sign == '-' && v + n == 0) || (sign == '+' && v == n)
    ensures Atoi([sign] + digits) == if -INT64_LIMIT <= v < INT64_LIMIT then Some(v) else None
  {
    assert ([sign] + digits)[1..] == digits;
  }

  /** What comes along with the error then is the bound exceeded. */
  lemma NumberTooBig(n: nat)
    ensures n > 9223372036854775807 ==> Atoi(Decimal(n)) == None && AtoiOnError(Decimal(n)) == 9223372036854775807
    ensures n > 9223372036854775808 ==>
      Atoi("-" + Decimal(n)) == None && AtoiOnError("-" + Decimal(n)) == -9223372036854775808
  {
    DecimalRoundTrip(n);
    AtoiSigned(n, -(n as int));
    assert ("-" + Decimal(n))[1..] == Decimal(n);
    assert IsDigit(Decimal(n)[0]);
  }

  /** Nothing but a sign and digits is a number. */
  lemma AtoiDigits(s: string)
    requires Atoi(s).Some?
    ensures s != "" && exists i :: 0 <= i < |s| && '0' <= s[i] <= '9'
    ensures forall i :: 0 <= i < |s| ==> '0' <= s[i] <= '9' || (i == 0 && |s| > 1 && (s[0] == '-' || s[0] == '+'))
  {
    var digits := if s[0] == '-' || s[0] == '+' then s[1..] else s;
    assert AllDigits(digits);
    assert digits[0] == s[|s| - |digits|];
    assert forall i :: |s| - |digits| <= i < |s| ==> s[i] == digits[i - (|s| - |digits|)];
  }

  /** Numerals are decimal, most significant digit first. */
  lemma Numerals()
    ensures Decimal(0) == "0" && Decimal(64) == "64" && Decimal(1024) == "1024"
  {
    assert Decimal(6) == "6" && Decimal(1) == "1" && Decimal(10) == "10" && Decimal(102) == "102";
  }

  // ---- percent-encoding --------------------------------------------------------

  predicate IsByte(c: char) {
    c as int < 256
  }

  function HexValue(c: char): Option<nat> {
    if '0' <= c <= '9' then Some(c as int - '0' as int)
    else if 'a' <= c <= 'f' then Some(c as int - 'a' as int + 10)
    else if 'A' <= c <= 'F' then Some(c as int - 'A' as int + 10)
    else None
  }

  function HexDigit(d: nat, upper: bool): (c: char)
    requires d < 16
    ensures HexValue(c) == Some(d)
  {
    if d < 10 then ('0' as int + d) as char
    else if upper then ('A' as int + d - 10) as char
    else ('a' as int + d - 10) as char
  }

  /** url.QueryUnescape: `%XX` is a byte, `+` is a space, a malformed escape
      fails the whole string. */
  function Unescape(s: string): Option<string> {
    if s == "" then Some("")
    else if s[0] == '%' then
      if |s| < 3 || HexValue(s[1]).None? || HexValue(s[2]).None? then None
      else
        match Unescape(s[3..])
        case None => None
        case Some(t) => Some([(16 * HexValue(s[1]).value + HexValue(s[2]).value) as char] + t)
    else
      match Unescape(s[1..])
      case None => None
      case Some(t) => Some([if s[0] == '+' then ' ' else s[0]] + t)
  }

  /** A way to percent-encode: which bytes stand for themselves, whether a space
      may become `+`, and the case of the hex digits. */
  datatype Escaping = Escaping(keep: set<char>, plus: bool, upper: bool)

  /** A printable, non-blank byte. */
  predicate IsVisible(c: char) {
    ('!' <= c <= '~') || 128 <= c as int < 256
  }

  predicate ValidEscaping(e: Escaping) {
    forall c :: c in e.keep ==> IsVisible(c) && c != '%' && c != '+'
  }

  function EscapeByte(e: Escaping, c: char): string
    requires IsByte(c)
  {
    if c == ' ' && e.plus then "+"
    else if c in e.keep then [c]
    else ['%', HexDigit(c as int / 16, e.upper), HexDigit(c as int % 16, e.upper)]
  }

  /** The peer's encoder. */
  function Escape(e: Escaping, v: string): string
    requires forall i :: 0 <= i < |v| ==> IsByte(v[i])
  {
    if v == "" then "" else EscapeByte(e, v[0]) + Escape(e, v[1..])
  }

  lemma UnescapeUnit(e: Escaping, c: char, t: string)
    requires ValidEscaping(e) && IsByte(c)
    ensures Unescape(EscapeByte(e, c) + t)
         == match Unescape(t) case None => None case Some(u) => Some([c] + u)
  {
    var unit := EscapeByte(e, c);
    var s := unit + t;
    assert s[|unit|..] == t;
    if unit[0] == '%' {
      assert s[0] == '%' && s[1] == unit[1] && s[2] == unit[2];
      assert 16 * (c as int / 16) + c as int % 16 == c as int;
    }
  }

  /** Unescaping inverts every encoder, on arbitrary bytes. */
  lemma {:induction false} UnescapeEscape(e: Escaping, v: string)
    requires ValidEscaping(e)
    requires forall i :: 0 <= i < |v| ==> IsByte(v[i])
    ensures Unescape(Escape(e, v)) == Some(v)
  {
    if v != "" {
      UnescapeEscape(e, v[1..]);
      UnescapeUnit(e, v[0], Escape(e, v[1..]));
      assert v == [v[0]] + v[1..];
    }
  }

  /** What an encoder writes is printable and has no blank, whatever the bytes. */
  lemma {:induction false} EscapeVisible(e: Escaping, v: string)
    requires ValidEscaping(e)
    requires forall i :: 0 <= i < |v| ==> IsByte(v[i])
    ensures forall i :: 0 <= i < |Escape(e, v)| ==> IsVisible(Escape(e, v)[i])
    ensures Escape(e, v) == "" <==> v == ""
  {
    if v != "" {
      EscapeVisible(e, v[1..]);
    }
  }

  // ---- ASCII case --------------------------------------------------------------

  function ToUpper(c: char): char {
    if 'a' <= c <= 'z' then (c as int - 32) as char else c
  }

  function ToLower(c: char): char {
    if 'A' <= c <= 'Z' then (c as int + 32) as char else c
  }

  /** strings.EqualFold on ASCII. */
  predicate EqualFold(s: string, t: string) {
    |s| == |t| && forall i :: 0 <= i < |s| ==> ToUpper(s[i]) == ToUpper(t[i])
  }

  /** The same letter up to ASCII case, or the same byte. */
  predicate SameLetter(c: char, d: char) {
    || c == d
    || ('a' <= c <= 'z' && d as int == c as int - 32)
    || ('A' <= c <= 'Z' && d as int == c as int + 32)
  }

  predicate SameLetters(s: string, t: string) {
    |s| == |t| && forall i :: 0 <= i < |s| ==> SameLetter(s[i], t[i])
  }

  lemma FoldExactly(s: string, t: string)
    ensures EqualFold(s, t) <==> SameLetters(s, t)
  {
    if |s| == |t| {
      assert forall i :: 0 <= i < |s| ==> (ToUpper(s[i]) == ToUpper(t[i]) <==> SameLetter(s[i], t[i]));
    }
  }
}
