/** Log levels and log events (fslog.go). */
module Fslog {
  import opened Text
  import M = Mime
  import opened Events
  import F = Frames

  const LEVEL_INVALID: int := 64
  const LEVEL_DEBUG: int := 7
  const LEVEL_DISABLE: int := -1

  const NAMES: seq<string> :=
    ["DISABLE", "CONSOLE", "ALERT", "CRIT", "ERR", "WARNING", "NOTICE", "INFO", "DEBUG"]

  /** String of a level: names stop at DEBUG. */
  function Name(lv: int): string
    requires lv >= LEVEL_DISABLE
  {
    NAMES[(if lv > LEVEL_DEBUG then LEVEL_DEBUG else lv) + 1]
  }

  /** FslogString2Level: a number clipped to 0..63 (64 itself passes), or the first
      name that matches in any letter case, or INVALID. */
  method FslogString2Level(s: string) returns (lv: int)
    ensures LEVEL_DISABLE <= lv <= LEVEL_INVALID
    ensures Atoi(s).Some? ==>
      lv == (if Atoi(s).value > LEVEL_INVALID then LEVEL_INVALID - 1
             else if Atoi(s).value < 0 then 0
             else Atoi(s).value)
    ensures Atoi(s).None? && lv < LEVEL_INVALID ==>
      lv < LEVEL_DEBUG + 1 && EqualFold(Name(lv), s)
    ensures Atoi(s).None? && lv == LEVEL_INVALID ==>
      forall i :: 0 <= i < |NAMES| ==> !EqualFold(NAMES[i], s)
    ensures lv == Level(s)
  {
    var number := Atoi(s);
    if number.Some? {
      var x := number.value;
      if x > LEVEL_INVALID {
        return LEVEL_INVALID - 1;
      } else if x < 0 {
        return 0;
      } else {
        return x;
      }
    }
    lv := LEVEL_INVALID;
    var x := 0;
    while x < |NAMES|
      invariant 0 <= x <= |NAMES|
      invariant forall i :: 0 <= i < x ==> !EqualFold(NAMES[i], s)
      invariant lv == LEVEL_INVALID && Find(s, x) == Find(s, 0)
      decreases |NAMES| - x
    {
      if EqualFold(NAMES[x], s) {
        return x - 1;
      }
      x := x + 1;
    }
  }

  /** The level of the first matching name from position `x` on. */
  function Find(s: string, x: nat): int
    requires x <= |NAMES|
    decreases |NAMES| - x
  {
    if x == |NAMES| then LEVEL_INVALID
    else if EqualFold(NAMES[x], s) then x - 1
    else Find(s, x + 1)
  }

  /** The level of a string. */
  function Level(s: string): int {
    match Atoi(s)
    case Some(x) => if x > LEVEL_INVALID then LEVEL_INVALID - 1 else if x < 0 then 0 else x
    case None => Find(s, 0)
  }

  /** No two names match each other, and none is a number. */
  lemma NamesApart(i: nat, j: nat)
    requires i < |NAMES| && j < |NAMES|
    ensures EqualFold(NAMES[i], NAMES[j]) ==> i == j
    ensures Atoi(NAMES[i]) == None
  {
    assert NAMES[2][0] == 'A' && NAMES[6][0] == 'N' && NAMES[7][0] == 'I' && NAMES[8][0] == 'D' && NAMES[3][0] == 'C';
    assert !IsDigit(NAMES[i][1]) && !IsDigit(NAMES[i][0]);
    assert NAMES[1][1] == 'O' && NAMES[5][0] == 'W' && NAMES[0][0] == 'D' && NAMES[1][0] == 'C';
  }

  lemma {:induction false} FindName(i: nat, x: nat)
    requires x <= i < |NAMES|
    ensures Find(NAMES[i], x) == i - 1
    decreases i - x
  {
    if x < i {
      NamesApart(x, i);
      FindName(i, x + 1);
    }
  }

  /** Parsing the name of a level gives the level back, DEBUG for those above it. */
  lemma LevelRoundTrip(lv: int)
    requires lv >= LEVEL_DISABLE
    ensures Level(Name(lv)) == if lv > LEVEL_DEBUG then LEVEL_DEBUG else lv
  {
    var i := (if lv > LEVEL_DEBUG then LEVEL_DEBUG else lv) + 1;
    NamesApart(i, i);
    FindName(i, 0);
  }

  /** The levels by name. */
  lemma LevelNames()
    ensures Name(-1) == "DISABLE" && Name(0) == "CONSOLE" && Name(1) == "ALERT" && Name(2) == "CRIT" && Name(3) == "ERR"
    ensures Name(4) == "WARNING" && Name(5) == "NOTICE" && Name(6) == "INFO" && Name(7) == "DEBUG"
    ensures forall lv :: lv > 7 ==> Name(lv) == "DEBUG"
  {
  }

  /** A name is recognized in any letter case. */
  lemma LevelAnyCase(lv: int, s: string)
    requires lv >= -1 && SameLetters(Name(lv), s)
    ensures Level(s) == if lv > 7 then 7 else lv
  {
    var i := (if lv > LEVEL_DEBUG then LEVEL_DEBUG else lv) + 1;
    FoldExactly(NAMES[i], s);
    NoNumber(i, s);
    FindFolded(i, s, 0);
  }

  lemma NoNumber(i: nat, s: string)
    requires i < |NAMES| && SameLetters(NAMES[i], s)
    ensures Atoi(s) == None
  {
    assert NAMES[i][1] >= 'A' && |NAMES[i]| > 1;
    assert SameLetter(NAMES[i][1], s[1]);
    if Atoi(s).Some? {
      AtoiDigits(s);
    }
  }

  lemma {:induction false} FindFolded(i: nat, s: string, x: nat)
    requires x <= i < |NAMES| && EqualFold(NAMES[i], s)
    ensures Find(s, x) == i - 1
    decreases i - x
  {
    if x < i {
      if EqualFold(NAMES[x], s) {
        assert EqualFold(NAMES[x], NAMES[i]);
        NamesApart(x, i);
      }
      FindFolded(i, s, x + 1);
    }
  }

  /** A number is clipped, 64 itself excepted. */
  lemma LevelOfNumber(n: nat)
    requires n < INT64_LIMIT
    ensures Level(Decimal(n)) == if n <= 64 then n else 63
    ensures Level("-" + Decimal(n)) == 0
  {
    var v: int := -(n as int);
    AtoiSigned(n, v);
  }

  // ---- log events --------------------------------------------------------------------

  datatype Fslog = Fslog(content: string, file: string, userData: string, func: string, line: int, level: int)

  /** BadLine carries the fields returned along with the error. */
  datatype Conversion = Converted(fslog: Fslog) | NotALog | BadLine(fslog: Fslog)

  /** Event2Fslog, field by field. */
  method Event2Fslog(e: Event) returns (r: Conversion)
    ensures r == Convert(e)
  {
    if e.kind != Log {
      return NotALog;
    }
    var fslog := Fslog("", "", "", "", 0, 0);
    var level := FslogString2Level(e.Get("Log-Level"));
    fslog := fslog.(level := level);
    fslog := fslog.(content := GetTextBody(e).text);
    fslog := fslog.(file := e.Get("Log-File"));
    fslog := fslog.(func := e.Get("Log-Func"));
    fslog := fslog.(userData := e.Get("User-Data"));
    var line := Atoi(e.Get("Log-Line"));
    if line.None? {
      return BadLine(fslog.(line := AtoiOnError(e.Get("Log-Line"))));
    }
    return Converted(fslog.(line := line.value));
  }

  function Convert(e: Event): Conversion {
    if e.kind != Log then NotALog
    else
      var number := e.Get("Log-Line");
      var fields := Fslog(TrimSpace(e.rawBody), e.Get("Log-File"), e.Get("User-Data"), e.Get("Log-Func"),
                          AtoiOnError(number), Level(e.Get("Log-Level")));
      match Atoi(number)
      case None => BadLine(fields)
      case Some(n) => Converted(fields.(line := n))
  }

  /** A log line framed by the peer comes back whole: every field, the line number,
      and the level up to DEBUG. */
  lemma LogRoundTrip(f: F.Frame, lv: int, line: nat)
    requires F.WellFormed(f) && F.ContentOfFrame(f) == LogData
    requires lv >= LEVEL_DISABLE && M.FirstValue(f.fields, "Log-Level") == Name(lv)
    requires line < INT64_LIMIT && M.FirstValue(f.fields, "Log-Line") == Decimal(line)
    ensures F.Meaning(f).Received?
    ensures Convert(F.Meaning(f).event) == Converted(Fslog(
      TrimSpace(f.body), M.FirstValue(f.fields, "Log-File"), M.FirstValue(f.fields, "User-Data"),
      M.FirstValue(f.fields, "Log-Func"), line, if lv > LEVEL_DEBUG then LEVEL_DEBUG else lv))
  {
    LogMeans(f, "Log-Line");
    LogMeans(f, "Log-File");
    LogMeans(f, "User-Data");
    LogMeans(f, "Log-Func");
    LogMeans(f, "Log-Level");
    AtoiDecimal(line);
    LevelRoundTrip(lv);
  }

  lemma LogMeans(f: F.Frame, key: string)
    requires F.WellFormed(f) && F.ContentOfFrame(f) == LogData
    ensures F.Meaning(f).Received? && F.Meaning(f).event.kind == Log && F.Meaning(f).event.rawBody == f.body
    ensures F.Meaning(f).event.Get(key) == M.FirstValue(f.fields, key)
  {
    M.GetFirst(f.fields, "Content-Type");
    M.GetFirst(f.fields, key);
    DecodeLog(M.HeaderOf(f.fields), f.body);
    assert NO_HEADERS.Lookup(key) == "";
  }
}
