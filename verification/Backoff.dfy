/** The retry backoff of queue.fail, as a schedule over a whole run. */
module BackoffSchedule {
  import opened Common
  import opened LeaseQueue
  import opened WorkerProtocol

  lemma {:induction false} Pow2Grows(a: nat, b: nat)
    requires a <= b
    ensures 1 <= Pow2(a) <= Pow2(b)
    decreases b
  {
    if a < b {
      Pow2Grows(a, b - 1);
    } else if a > 0 {
      Pow2Grows(a - 1, b - 1);
    }
  }

  lemma BackoffShape(a: int, b: int)
    requires a <= b
    ensures 30 <= Backoff(a) <= Backoff(b) <= 3600
    ensures Backoff(a) == 3600 <==> a >= 8
  {
    var x, y := if a - 1 < 0 then 0 else a - 1, if b - 1 < 0 then 0 else b - 1;
    Pow2Grows(x, y);
    assert Pow2(6) == 64 && Pow2(7) == 128;
    if a >= 8 { Pow2Grows(7, x); } else { Pow2Grows(x, 6); }
  }

  /** Half a minute after the first attempt, twice as long after each further one, and an hour from the eighth on. */
  lemma BackoffDoubles(a: int)
    ensures a <= 1 ==> Backoff(a) == 30
    ensures 1 <= a < 7 ==> Backoff(a + 1) == 2 * Backoff(a)
    ensures a >= 8 ==> Backoff(a) == 3600
  {
    BackoffShape(a, a);
    if 1 <= a < 7 {
      Pow2Grows(a, 6);
      assert Pow2(6) == 64;
    }
  }

  /** What n consecutive retries wait in all when no lease ever runs out. */
  function TotalBackoff(n: nat): int {
    if n == 0 then 0 else TotalBackoff(n - 1) + Backoff(n)
  }

  lemma {:induction false} TotalBackoffClosedForm(n: nat)
    ensures n <= 7 ==> TotalBackoff(n) == 30 * (Pow2(n) - 1)
    ensures n >= 7 ==> TotalBackoff(n) == 3810 + 3600 * (n - 7)
  {
    if n > 0 {
      TotalBackoffClosedForm(n - 1);
      BackoffShape(n, n);
      assert Pow2(7) == 128;
    }
  }

  /** One more retry, after at least as many attempts as there have been retries. */
  lemma RetryAdds(retries: nat, attempts: nat, waited: int)
    requires retries < attempts
    requires TotalBackoff(retries) <= waited <= 3600 * retries
    ensures TotalBackoff(retries + 1) <= waited + Backoff(attempts) <= 3600 * (retries + 1)
    ensures attempts == retries + 1 && waited == TotalBackoff(retries) ==>
      waited + Backoff(attempts) == TotalBackoff(retries + 1)
  {
    BackoffShape(retries + 1, attempts);
  }

  /**
    The time a job has been made to wait: exactly the schedule when no lease ran out, and otherwise
    at least the schedule and at most an hour a retry, because an expiry also counts as an attempt.
  */
  lemma {:induction false} WaitOverARun(ws: seq<World>, ss: seq<Step>, n: nat, j: nat)
    requires IsRun(ws, ss) && n <= |ss|
    ensures var retries := Retries(ws, ss, j, n);
      TotalBackoff(retries) <= Waited(ws, ss, j, n) <= 3600 * retries
    ensures Expiries(ws, ss, j, n) == 0 ==> Waited(ws, ss, j, n) == TotalBackoff(Retries(ws, ss, j, n))
  {
    if n > 0 {
      WaitOverARun(ws, ss, n - 1, j);
      if IsRetry(ws[n - 1], ss[n - 1], j) {
        AttemptAccounting(ws, ss, n - 1, j);
        RetryWaits(ws, ss, n, j);
        RetryAdds(Retries(ws, ss, j, n - 1), ws[n - 1].jobs[j].attempts, Waited(ws, ss, j, n - 1));
      }
    }
  }

  lemma RetryWaits(ws: seq<World>, ss: seq<Step>, n: nat, j: nat)
    requires IsRun(ws, ss) && 0 < n <= |ss| && IsRetry(ws[n - 1], ss[n - 1], j)
    ensures Waited(ws, ss, j, n) == Waited(ws, ss, j, n - 1) + Backoff(ws[n - 1].jobs[j].attempts)
  {
    assert ws[n] == Next(ws[n - 1], ss[n - 1]);
  }
}
