/** Connection options (option.go): each option assigns fields if its argument is in
    range; durations are in nanoseconds. */
module ConnectionOptions {
  import opened Redial

  const MILLISECOND: int := 1_000_000

  datatype Option =
    | WithAutoRedial
    | WithMaxRetries(n: int)
    | WithDialTimeout(t: int)
    | WithHeartBeat(t: int)
    | WithNetDelay(t: int)
    | WithSendReplyCap(n: int)

  predicate RetriesInRange(n: int) {
    0 < n <= 100
  }

  predicate CapInRange(n: int) {
    0 < n <= 500
  }

  /** Go's integer division, rounding toward zero. */
  function TruncDiv(a: int, b: int): int
    requires b > 0
  {
    if a >= 0 then a / b else -((-a) / b)
  }

  predicate DelayInRange(t: int) {
    TruncDiv(t, MILLISECOND) >= 100 && t as real / SECOND as real <= 10.0
  }

  // ---- the last option in range wins -----------------------------------------------

  function LastRetries(opts: seq<Option>): int {
    if opts == [] then -1
    else
      var last := opts[|opts| - 1];
      if last.WithMaxRetries? && RetriesInRange(last.n) then last.n else LastRetries(opts[..|opts| - 1])
  }

  function LastCap(opts: seq<Option>): int {
    if opts == [] then 20
    else
      var last := opts[|opts| - 1];
      if last.WithSendReplyCap? && CapInRange(last.n) then last.n else LastCap(opts[..|opts| - 1])
  }

  function LastDelay(opts: seq<Option>): int {
    if opts == [] then 2 * SECOND
    else
      var last := opts[|opts| - 1];
      if last.WithNetDelay? && DelayInRange(last.t) then last.t else LastDelay(opts[..|opts| - 1])
  }

  function LastHeartBeat(opts: seq<Option>): int {
    if opts == [] then 20 * SECOND
    else
      var last := opts[|opts| - 1];
      if last.WithHeartBeat? then last.t else LastHeartBeat(opts[..|opts| - 1])
  }

  function LastDialTimeout(opts: seq<Option>): int {
    if opts == [] then 3 * SECOND
    else
      var last := opts[|opts| - 1];
      if last.WithDialTimeout? then last.t else LastDialTimeout(opts[..|opts| - 1])
  }

  class Options {
    var autoRedial: bool
    var maxRetries: int
    var dialTimeout: int
    var heartbeat: int
    var netDelay: int
    var sendReplyCap: int

    predicate Reflects(opts: seq<Option>)
      reads this
    {
      && autoRedial == (WithAutoRedial in opts)
      && maxRetries == LastRetries(opts)
      && dialTimeout == LastDialTimeout(opts)
      && heartbeat == LastHeartBeat(opts)
      && netDelay == LastDelay(opts)
      && sendReplyCap == LastCap(opts)
    }

    /** newOptions: the defaults, then every option in order. */
    constructor (opts: seq<Option>)
      ensures Reflects(opts)
      ensures maxRetries == -1 || 1 <= maxRetries <= 100
      ensures 1 <= sendReplyCap <= 500
      ensures 100 * MILLISECOND <= netDelay <= 10 * SECOND
    {
      autoRedial, maxRetries := false, -1;
      dialTimeout, heartbeat, netDelay := 3 * SECOND, 20 * SECOND, 2 * SECOND;
      sendReplyCap := 20;
      new;
      Apply(opts);
      InRange(opts);
    }

    method Apply(opts: seq<Option>)
      requires Reflects([])
      modifies this
      ensures Reflects(opts)
    {
      assert opts[..0] == [];
      for i := 0 to |opts|
        invariant Reflects(opts[..i])
      {
        assert opts[..i + 1][..i] == opts[..i];
        match opts[i] {
          case WithAutoRedial =>
            autoRedial := true;
          case WithMaxRetries(n) =>
            if !(n <= 0 || n > 100) {
              maxRetries := n;
            }
          case WithDialTimeout(t) =>
            dialTimeout := t;
          case WithHeartBeat(t) =>
            heartbeat := t;
          case WithNetDelay(t) =>
            if TruncDiv(t, MILLISECOND) >= 100 && t as real / SECOND as real <= 10.0 {
              netDelay := t;
            }
          case WithSendReplyCap(n) =>
            if !(n <= 0 || n > 500) {
              sendReplyCap := n;
            }
        }
        assert opts[..i + 1] == opts[..i] + [opts[i]];
      }
      assert opts[..|opts|] == opts;
    }
  }

  /** Whatever the options, retries are unbounded or 1 to 100, the channels hold 1
      to 500, and the delay is 100 ms to 10 s. */
  lemma {:induction false} InRange(opts: seq<Option>)
    ensures LastRetries(opts) == -1 || 1 <= LastRetries(opts) <= 100
    ensures 1 <= LastCap(opts) <= 500
    ensures 100 * MILLISECOND <= LastDelay(opts) <= 10 * SECOND
  {
    if opts != [] {
      InRange(opts[..|opts| - 1]);
      var last := opts[|opts| - 1];
      if last.WithNetDelay? {
        DelayExactly(last.t);
      }
    }
  }

  /** The two conversions of the delay check say 100 ms to 10 s to the nanosecond. */
  lemma DelayExactly(t: int)
    ensures DelayInRange(t) <==> 100 * MILLISECOND <= t <= 10 * SECOND
  {
    if t as real / SECOND as real <= 10.0 {
      assert t as real <= 10.0 * SECOND as real;
    }
  }

  // ---- one option more ----------------------------------------------------------------

  /** The values without options. */
  lemma Defaults()
    ensures LastRetries([]) == -1 && LastCap([]) == 20
    ensures LastDelay([]) == 2_000_000_000 && LastHeartBeat([]) == 20_000_000_000
    ensures LastDialTimeout([]) == 3_000_000_000
  {
  }

  /** Each option sets its own value when its argument is in range, and nothing else. */
  lemma OneMore(opts: seq<Option>, o: Option)
    ensures LastRetries(opts + [o])
         == if o.WithMaxRetries? && 1 <= o.n <= 100 then o.n else LastRetries(opts)
    ensures LastCap(opts + [o]) == if o.WithSendReplyCap? && 1 <= o.n <= 500 then o.n else LastCap(opts)
    ensures LastDelay(opts + [o])
         == if o.WithNetDelay? && 100_000_000 <= o.t <= 10_000_000_000 then o.t else LastDelay(opts)
    ensures LastHeartBeat(opts + [o]) == if o.WithHeartBeat? then o.t else LastHeartBeat(opts)
    ensures LastDialTimeout(opts + [o]) == if o.WithDialTimeout? then o.t else LastDialTimeout(opts)
  {
    assert (opts + [o])[..|opts|] == opts;
    if o.WithNetDelay? {
      DelayExactly(o.t);
    }
  }
}
