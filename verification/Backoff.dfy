/** The reconnect loop of connect_parodus: exponential backoff that starts over
    once it has reached its ceiling. */
module Backoff {

  function Pow2(n: nat): (p: nat)
    ensures p >= 1
  {
    if n == 0 then 1 else 2 * Pow2(n - 1)
  }

  lemma {:induction false} Pow2Grows(a: nat, b: nat)
    requires a < b
    ensures Pow2(a) < Pow2(b)
    decreases b
  {
    if a < b - 1 {
      Pow2Grows(a, b - 1);
    }
  }

  /** The sleep after failure k, for a ceiling of 2^max - 1 seconds. */
  function Sleep(max: nat, k: nat): nat
    requires max >= 2
  {
    Pow2(2 + k % (max - 1)) - 1
  }

  function Total(sleeps: seq<nat>): nat {
    if sleeps == [] then 0 else Total(sleeps[..|sleeps| - 1]) + sleeps[|sleeps| - 1]
  }

  lemma MultipleGap(a: int, b: int, m: nat)
    requires a < b
    ensures a * m + m <= b * m
  {
    var d := b - a - 1;
    assert b * m == a * m + m + d * m;
    assert d * m >= 0;
  }

  lemma DivModUnique(n: nat, m: nat, q: int, r: nat)
    requires m > 0 && r < m && n == q * m + r
    ensures n / m == q && n % m == r
  {
    var p := n / m;
    assert n == p * m + n % m;
    if p < q {
      MultipleGap(p, q, m);
    } else if q < p {
      MultipleGap(q, p, m);
    }
  }

  lemma NextDivMod(n: nat, m: nat)
    requires m > 0
    ensures if n % m == m - 1 then (n + 1) / m == n / m + 1 && (n + 1) % m == 0
            else (n + 1) / m == n / m && (n + 1) % m == n % m + 1
  {
    var q, r := n / m, n % m;
    assert n == q * m + r;
    if r == m - 1 {
      assert (q + 1) * m == q * m + m;
      DivModUnique(n + 1, m, q + 1, 0);
    } else {
      DivModUnique(n + 1, m, q, r + 1);
    }
  }

  /** The loop of connect_parodus, watched for `turns` turns: it only ends with a
      success, so a run without one is described by all its beginnings. */
  method ConnectParodus(backoffMaxTime: nat, init: nat -> int, turns: nat)
    returns (connected: bool, sleeps: seq<nat>)
    requires backoffMaxTime >= 2
    ensures if connected then |sleeps| < turns && init(|sleeps|) == 0 else |sleeps| == turns
    ensures forall k :: 0 <= k < |sleeps| ==> init(k) != 0 && sleeps[k] == Sleep(backoffMaxTime, k)
  {
    var maxRetrySleep := Pow2(backoffMaxTime) - 1;
    var c, backoffRetryTime, attempt := 2, 0, 0;
    connected, sleeps := false, [];
    while attempt < turns
      invariant attempt == |sleeps| <= turns
      invariant forall k :: 0 <= k < |sleeps| ==> init(k) != 0 && sleeps[k] == Sleep(backoffMaxTime, k)
      invariant c == 2 + attempt % (backoffMaxTime - 1) <= backoffMaxTime
      invariant backoffRetryTime < maxRetrySleep
    {
      if backoffRetryTime < maxRetrySleep {
        backoffRetryTime := Pow2(c) - 1;
      }
      var ret := init(attempt);
      if ret == 0 {
        connected := true;
        return;
      }
      sleeps := sleeps + [backoffRetryTime];
      NextDivMod(attempt, backoffMaxTime - 1);
      if c < backoffMaxTime {
        Pow2Grows(c, backoffMaxTime);
      }
      c := c + 1;
      if backoffRetryTime == maxRetrySleep {
        c := 2;
        backoffRetryTime := 0;
        assert Pow2(2) == 4;
        if backoffMaxTime > 2 {
          Pow2Grows(2, backoffMaxTime);
        }
      }
      attempt := attempt + 1;
    }
  }

  /** The sleep of one full cycle. */
  function Cycle(max: nat): int {
    Pow2(max + 1) - 4 - (max - 1)
  }

  /** The sleep of q cycles and r further failures. */
  function Closed(max: nat, q: nat, r: nat): int {
    q * Cycle(max) + (Pow2(r + 2) - 4 - r)
  }

  lemma ClosedStep(max: nat, q: nat, r: nat)
    requires max >= 2
    ensures Closed(max, q, r) + (Pow2(r + 2) - 1) == Closed(max, q, r + 1)
    ensures Closed(max, q, max - 1) == Closed(max, q + 1, 0)
  {
    assert Pow2(r + 3) == 2 * Pow2(r + 2);
    assert Pow2(2) == 4;
    assert (q + 1) * Cycle(max) == q * Cycle(max) + Cycle(max);
  }

  /** The closed form of the time slept after n failures. */
  lemma {:induction false} TotalSleep(max: nat, sleeps: seq<nat>)
    requires max >= 2
    requires forall k :: 0 <= k < |sleeps| ==> sleeps[k] == Sleep(max, k)
    ensures Total(sleeps) == Closed(max, |sleeps| / (max - 1), |sleeps| % (max - 1))
    decreases |sleeps|
  {
    hide Closed, Pow2, Cycle;
    if sleeps != [] {
      var n := |sleeps| - 1;
      TotalSleep(max, sleeps[..n]);
      NextDivMod(n, max - 1);
      ClosedStep(max, n / (max - 1), n % (max - 1));
    } else {
      DivModUnique(0, max - 1, 0, 0);
      NothingSlept(max);
    }
  }

  lemma NothingSlept(max: nat)
    ensures Closed(max, 0, 0) == 0
  {
    assert Pow2(2) == 4;
  }

  /** Failure r of cycle q is slept 2^(r + 2) - 1 seconds: from three seconds on each
      sleep doubles the one before and a second more, up to the ceiling, and then it
      starts over. */
  lemma SleepInCycle(max: nat, q: nat, r: nat)
    requires max >= 2 && r < max - 1
    ensures q * (max - 1) + r >= 0
    ensures Sleep(max, q * (max - 1) + r) == Pow2(r + 2) - 1
    ensures Pow2(2) == 4 && Pow2(r + 3) == 2 * Pow2(r + 2)
  {
    SmallPowers();
    MulNonNegative(q, max - 1);
    DivModUnique(q * (max - 1) + r, max - 1, q, r);
  }

  lemma MulNonNegative(q: nat, m: nat)
    ensures q * m >= 0
  {
  }

  /** The deployed ceiling of 31 seconds: every sleep is 3, 7, 15 or 31, and four
      failures in a row cost 56 seconds. */
  lemma DeployedSchedule(sleeps: seq<nat>)
    requires forall k :: 0 <= k < |sleeps| ==> sleeps[k] == Sleep(5, k)
    ensures forall k :: 0 <= k < |sleeps| ==> sleeps[k] == [3, 7, 15, 31][k % 4]
    ensures Total(sleeps) == 56 * (|sleeps| / 4) + Pow2(|sleeps| % 4 + 2) - 4 - |sleeps| % 4
  {
    hide Pow2, Sleep, Total;
    TotalSleep(5, sleeps);
    SmallPowers();
    assert Cycle(5) == 56;
    forall k | 0 <= k < |sleeps| ensures sleeps[k] == [3, 7, 15, 31][k % 4] {
      DeployedSleep(k);
    }
  }

  lemma DeployedSleep(k: nat)
    ensures Sleep(5, k) == [3, 7, 15, 31][k % 4]
  {
    SmallPowers();
    var r := k % 4;
    assert r == 0 || r == 1 || r == 2 || r == 3;
  }

  lemma SmallPowers()
    ensures Pow2(2) == 4 && Pow2(3) == 8 && Pow2(4) == 16 && Pow2(5) == 32 && Pow2(6) == 64
  {
    assert Pow2(2) == 4 && Pow2(3) == 2 * Pow2(2) && Pow2(4) == 2 * Pow2(3);
  }
}
