/** The default redial strategy (redo.go) and the dial loop around it. */
module Redial {
  const SECOND: int := 1_000_000_000
  const CEILING: int := 64 * SECOND

  function Pow2(k: nat): nat {
    if k == 0 then 1 else 2 * Pow2(k - 1)
  }

  // ---- the strategy in closed form ------------------------------------------------

  /** The wait returned by call number `k`, counted from 0 since the last reset. */
  function Wait(k: nat): int {
    if k < 7 then Pow2(k) * SECOND else CEILING
  }

  /** The waits stored after `k` calls. */
  function Stored(k: nat): (ws: seq<int>)
    ensures |ws| == if k < 7 then k else 7
  {
    seq(if k < 7 then k else 7, i requires 0 <= i => Pow2(i) * SECOND)
  }

  /** The waits of calls number `k` to `k + n - 1`. */
  function Waits(k: nat, n: nat): (ws: seq<int>)
    ensures |ws| == n
  {
    seq(n, i requires 0 <= i => Wait(k + i))
  }

  function Sum(ws: seq<int>): int {
    if ws == [] then 0 else Sum(ws[..|ws| - 1]) + ws[|ws| - 1]
  }

  lemma WaitsSnoc(k: nat, n: nat)
    ensures Waits(k, n + 1) == Waits(k, n) + [Wait(k + n)]
  {
  }

  lemma SmallPowers()
    ensures Pow2(0) == 1 && Pow2(1) == 2 && Pow2(2) == 4 && Pow2(3) == 8
    ensures Pow2(4) == 16 && Pow2(5) == 32 && Pow2(6) == 64 && Pow2(7) == 128
  {
    assert Pow2(1) == 2 * Pow2(0) && Pow2(2) == 2 * Pow2(1) && Pow2(3) == 2 * Pow2(2) && Pow2(4) == 2 * Pow2(3);
    assert Pow2(5) == 2 * Pow2(4) && Pow2(6) == 2 * Pow2(5) && Pow2(7) == 2 * Pow2(6);
  }

  /** Every wait is a power of two seconds, none above the ceiling. */
  lemma WaitBounded(k: nat)
    ensures SECOND <= Wait(k) <= CEILING
    ensures k > 0 ==> Wait(k) == (if 2 * Wait(k - 1) <= CEILING then 2 * Wait(k - 1) else CEILING)
  {
    SmallPowers();
    assert k < 7 ==> k == 0 || k == 1 || k == 2 || k == 3 || k == 4 || k == 5 || k == 6;
  }

  /** Closed form of the total wait: 2^k - 1 seconds for k calls up to the
      ceiling, 127 + 64 (k - 7) beyond. */
  lemma {:induction false} TotalWait(k: nat)
    ensures Sum(Waits(0, k)) == (if k <= 7 then Pow2(k) - 1 else 127 + 64 * (k - 7)) * SECOND
  {
    if k == 0 {
      assert Waits(0, 0) == [];
    } else {
      TotalWait(k - 1);
      WaitsSnoc(0, k - 1);
      assert Waits(0, k)[..k - 1] == Waits(0, k - 1);
      SmallPowers();
    }
  }

  /** With at most 100 retries a redial that fails sleeps at most 6143 seconds, and
      with 100 exactly that long. */
  lemma BoundedRedialSleep(maxRetries: nat)
    requires maxRetries <= 100
    ensures Sum(Waits(0, maxRetries + 1)) <= 6143 * SECOND
    ensures Sum(Waits(0, maxRetries + 1)) == 6143 * SECOND <==> maxRetries == 100
  {
    TotalWait(maxRetries + 1);
    SmallPowers();
    if maxRetries + 1 <= 7 {
      PowMonotone(maxRetries + 1, 7);
    }
  }

  lemma {:induction false} PowMonotone(a: nat, b: nat)
    requires a <= b
    ensures Pow2(a) <= Pow2(b)
    decreases b - a
  {
    if a < b {
      PowMonotone(a + 1, b);
    }
  }

  // ---- the strategy as an object ----------------------------------------------------

  class DefaultRedoStrategy {
    var redoWaited: seq<int>

    constructor ()
      ensures redoWaited == Stored(0)
    {
      redoWaited := [];
    }

    /** 1, 2, 4, 8, 16, 32, 64, 64, 64, ... seconds; `k` is the number of calls
        since the last reset. */
    method NextRedoWait(ghost k: nat) returns (next: int)
      requires redoWaited == Stored(k)
      modifies this
      ensures next == Wait(k)
      ensures redoWaited == Stored(k + 1)
    {
      SmallPowers();
      if |redoWaited| == 0 {
        redoWaited := redoWaited + [SECOND];
        assert redoWaited == Stored(1);
        return SECOND;
      }
      var cur := redoWaited[|redoWaited| - 1];
      LastStored(k);
      if cur < CEILING {
        cur := cur * 2;
        redoWaited := redoWaited + [cur];
        assert redoWaited == Stored(k + 1);
      } else {
        cur := CEILING;
      }
      return cur;
    }

    method Reset()
      modifies this
      ensures redoWaited == Stored(0)
    {
      redoWaited := redoWaited[..0];
    }
  }

  /** The last wait stored, and when it has reached the ceiling. */
  lemma LastStored(k: nat)
    requires k > 0
    ensures Stored(k)[|Stored(k)| - 1] == Pow2(if k < 7 then k - 1 else 6) * SECOND
    ensures Stored(k)[|Stored(k)| - 1] < CEILING <==> k < 7
  {
    SmallPowers();
    assert k < 7 ==> k == 1 || k == 2 || k == 3 || k == 4 || k == 5 || k == 6;
  }
}
