/**
  The claim / check / complete / fail protocol of worker_loop (bbpipeline/workers.py) over the job
  queue, for any number of worker processes interleaved with the API's cancel.

  A worker's long transaction is two steps: Check reads the row and its lease, and Complete writes
  the row later without looking again. Everything another process may do can happen in between.
*/
module WorkerProtocol {
  import opened Common
  import opened LeaseQueue

  /** Where a process stands in the body of worker_loop. */
  datatype Phase =
    | Idle
    | Claimed(job: nat)   // the claim transaction has committed
    | Working(job: nat)   // the row was running under this process's owner name
    | Raised(job: nat)    // the try block raised; the exception handler has not run yet

  /** Owner names come from configuration, so two processes may share one. */
  datatype Process = Process(owner: string, phase: Phase)

  datatype World = World(jobs: seq<Job>, processes: map<nat, Process>)

  datatype Step =
    | Submit(row: Job)
    | Expire(now: int)                                      // requeue_expired, the first half of claim
    | Claim(pid: nat, job: nat, leaseSeconds: int, now: int) // the second half
    | Check(pid: nat)
    | Raise(pid: nat)
    | Complete(pid: nat, now: int)
    | HandleFailure(pid: nat, now: int)
    | Cancel(job: nat, now: int)
    | Die(pid: nat)                                         // killed and restarted

  ghost predicate Enabled(w: World, s: Step) {
    match s
    case Submit(row) =>
      && row == NewJob(row.queue, row.kind, row.priority, row.maxAttempts, row.dedupeKey, row.runAfter, row.createdAt)
      && (row.dedupeKey.Some? ==> forall j <- w.jobs :: j.dedupeKey != row.dedupeKey)
    case Expire(_) => true
    case Claim(p, j, _, now) =>
      p in w.processes && w.processes[p].phase.Idle? && j < |w.jobs| && Claimable(w.jobs[j], now)
    case Check(p) => p in w.processes && w.processes[p].phase.Claimed? && w.processes[p].phase.job < |w.jobs|
    case Raise(p) => p in w.processes && (w.processes[p].phase.Claimed? || w.processes[p].phase.Working?)
    case Complete(p, _) => p in w.processes && w.processes[p].phase.Working? && w.processes[p].phase.job < |w.jobs|
    case HandleFailure(p, _) => p in w.processes && w.processes[p].phase.Raised? && w.processes[p].phase.job < |w.jobs|
    case Cancel(j, _) => j < |w.jobs|
    case Die(p) => p in w.processes
  }

  function At(w: World, p: nat, phase: Phase): World
    requires p in w.processes
  {
    w.(processes := w.processes[p := w.processes[p].(phase := phase)])
  }

  ghost function Next(w: World, s: Step): World
    requires Enabled(w, s)
  {
    match s
    case Submit(row) => w.(jobs := w.jobs + [row])
    case Expire(now) => w.(jobs := RequeueTable(w.jobs, now))
    case Claim(p, j, lease, now) =>
      At(w.(jobs := w.jobs[j := ClaimedBy(w.jobs[j], w.processes[p].owner, lease, now)]), p, Claimed(j))
    case Check(p) =>
      var j := w.processes[p].phase.job;
      var mine := w.jobs[j].status.Running? && w.jobs[j].leaseOwner == Some(w.processes[p].owner);
      At(w, p, if mine then Working(j) else Idle)
    case Raise(p) => At(w, p, Raised(w.processes[p].phase.job))
    case Complete(p, now) =>
      var j := w.processes[p].phase.job;
      At(w.(jobs := w.jobs[j := CompletedAt(w.jobs[j], now)]), p, Idle)
    case HandleFailure(p, now) =>
      var j := w.processes[p].phase.job;
      At(if w.jobs[j].status.Running? then w.(jobs := w.jobs[j := FailedAt(w.jobs[j], now)]) else w, p, Idle)
    case Cancel(j, now) => w.(jobs := w.jobs[j := CancelledAt(w.jobs[j], now)])
    case Die(p) => At(w, p, Idle)
  }

  ghost predicate Initial(w: World) {
    w.jobs == [] && forall p <- w.processes :: w.processes[p].phase.Idle?
  }

  /** Worlds ws[0], ws[1], ... with step ss[i] leading from ws[i] to ws[i + 1]. */
  ghost predicate IsRun(ws: seq<World>, ss: seq<Step>) {
    && |ws| == |ss| + 1
    && Initial(ws[0])
    && forall i | 0 <= i < |ss| :: Enabled(ws[i], ss[i]) && ws[i + 1] == Next(ws[i], ss[i])
  }

  /** A run goes on with any step that is enabled at its end. */
  lemma RunGoesOn(ws: seq<World>, ss: seq<Step>, s: Step)
    requires IsRun(ws, ss) && Enabled(ws[|ss|], s)
    ensures IsRun(ws + [Next(ws[|ss|], s)], ss + [s])
  {
  }

  /** The queue's claim is an expiry followed by one worker's claim, with nothing in between. */
  lemma ClaimIsTwoSteps(w: World, p: nat, j: nat, queues: seq<string>, locked: set<nat>, leaseSeconds: int, now: int)
    requires p in w.processes && w.processes[p].phase.Idle?
    requires var ready := RequeueTable(w.jobs, now); j < |ready| && Selectable(ready, queues, locked, now, j)
    ensures var ready := RequeueTable(w.jobs, now);
      && Enabled(w, Expire(now))
      && var mid := Next(w, Expire(now));
         && Enabled(mid, Claim(p, j, leaseSeconds, now))
         && var w' := Next(mid, Claim(p, j, leaseSeconds, now));
            && w'.jobs == ready[j := ClaimedBy(ready[j], w.processes[p].owner, leaseSeconds, now)]
            && w'.processes[p] == Process(w.processes[p].owner, Claimed(j))
  {
  }

  /** What each step of a worker does, in the columns it touches; every other row is as it was. */
  lemma WorkerSteps(w: World, s: Step)
    requires Enabled(w, s)
    ensures s.Check? ==>
      var (p, j) := (w.processes[s.pid], w.processes[s.pid].phase.job);
      && Next(w, s).jobs == w.jobs
      && Next(w, s).processes[s.pid].phase ==
         if w.jobs[j].status.Running? && w.jobs[j].leaseOwner == Some(p.owner) then Working(j) else Idle
    ensures s.Complete? ==>
      var j := w.processes[s.pid].phase.job;
      && OnlyRow(w.jobs, Next(w, s).jobs, j) && Next(w, s).jobs[j].status.Completed?
      && Next(w, s).processes[s.pid].phase.Idle?
    ensures s.HandleFailure? ==>
      var j := w.processes[s.pid].phase.job;
      && OnlyRow(w.jobs, Next(w, s).jobs, j) && Next(w, s).processes[s.pid].phase.Idle?
      && (w.jobs[j].status.Running? ==>
            (Next(w, s).jobs[j].status.Pending? <==> w.jobs[j].attempts < w.jobs[j].maxAttempts))
      && (w.jobs[j].status.Running? ==> Next(w, s).jobs[j].status.Pending? || Next(w, s).jobs[j].status.Failed?)
      && (!w.jobs[j].status.Running? ==> Next(w, s).jobs[j] == w.jobs[j])
    ensures forall q <- w.processes ::
      q in Next(w, s).processes && Next(w, s).processes[q].owner == w.processes[q].owner
  {
  }

  // ---------------------------------------------------------------- what happens to one job

  predicate IsClaim(s: Step, j: nat) {
    s.Claim? && s.job == j
  }

  predicate IsExpiry(w: World, s: Step, j: nat) {
    s.Expire? && j < |w.jobs| && LeaseExpired(w.jobs[j], s.now)
  }

  predicate IsFailure(w: World, s: Step, j: nat) {
    && s.HandleFailure? && s.pid in w.processes && w.processes[s.pid].phase == Raised(j)
    && j < |w.jobs| && w.jobs[j].status.Running?
  }

  predicate IsRetry(w: World, s: Step, j: nat) {
    IsFailure(w, s, j) && w.jobs[j].attempts < w.jobs[j].maxAttempts
  }

  ghost function Claims(ss: seq<Step>, j: nat, n: nat): nat
    requires n <= |ss|
  {
    if n == 0 then 0 else Claims(ss, j, n - 1) + if IsClaim(ss[n - 1], j) then 1 else 0
  }

  ghost function Expiries(ws: seq<World>, ss: seq<Step>, j: nat, n: nat): nat
    requires n <= |ss| < |ws|
  {
    if n == 0 then 0 else Expiries(ws, ss, j, n - 1) + if IsExpiry(ws[n - 1], ss[n - 1], j) then 1 else 0
  }

  ghost function Retries(ws: seq<World>, ss: seq<Step>, j: nat, n: nat): nat
    requires n <= |ss| < |ws|
  {
    if n == 0 then 0 else Retries(ws, ss, j, n - 1) + if IsRetry(ws[n - 1], ss[n - 1], j) then 1 else 0
  }

  /** The backoff the job was made to wait, summed over its retries. */
  ghost function Waited(ws: seq<World>, ss: seq<Step>, j: nat, n: nat): int
    requires n <= |ss| < |ws|
  {
    if n == 0 then 0
    else
      var earlier := Waited(ws, ss, j, n - 1);
      if IsRetry(ws[n - 1], ss[n - 1], j) && j < |ws[n].jobs|
      then earlier + (ws[n].jobs[j].runAfter - ss[n - 1].now)
      else earlier
  }

  // ---------------------------------------------------------------- every run

  /** Rows are never deleted, and what identifies a job never changes. */
  lemma {:induction false} JobsArePermanent(ws: seq<World>, ss: seq<Step>, i: nat, k: nat)
    requires IsRun(ws, ss) && i <= k <= |ss|
    ensures |ws[i].jobs| <= |ws[k].jobs|
    ensures forall j: nat | j < |ws[i].jobs| :: SameJob(ws[i].jobs[j], ws[k].jobs[j])
    decreases k
  {
    if i < k {
      JobsArePermanent(ws, ss, i, k - 1);
      assert ws[k] == Next(ws[k - 1], ss[k - 1]);
    }
  }

  /** A dedupe key, once used, names one job for the rest of the run. */
  lemma {:induction false} DedupeKeysArePermanent(ws: seq<World>, ss: seq<Step>, i: nat, k: nat, a: nat, b: nat)
    requires IsRun(ws, ss) && i <= k <= |ss|
    requires a < |ws[i].jobs| && b < |ws[k].jobs|
    requires ws[i].jobs[a].dedupeKey.Some? && ws[i].jobs[a].dedupeKey == ws[k].jobs[b].dedupeKey
    ensures a == b
  {
    JobsArePermanent(ws, ss, i, k);
    KeysStayUnique(ws, ss, k);
  }

  lemma {:induction false} KeysStayUnique(ws: seq<World>, ss: seq<Step>, n: nat)
    requires IsRun(ws, ss) && n <= |ss|
    ensures UniqueKeys(ws[n].jobs)
  {
    if n > 0 {
      KeysStayUnique(ws, ss, n - 1);
      assert ws[n] == Next(ws[n - 1], ss[n - 1]);
      if !ss[n - 1].Submit? {
        JobsArePermanent(ws, ss, n - 1, n);
      }
    }
  }

  predicate LeaseMatchesStatus(j: Job) {
    (j.status.Running? <==> j.leaseOwner.Some?) && (j.leaseOwner.Some? <==> j.leaseExpires.Some?)
  }

  lemma {:induction false} LeaseExactlyWhileRunning(ws: seq<World>, ss: seq<Step>, n: nat)
    requires IsRun(ws, ss) && n <= |ss|
    ensures forall j <- ws[n].jobs :: LeaseMatchesStatus(j)
  {
    if n > 0 {
      LeaseExactlyWhileRunning(ws, ss, n - 1);
      assert ws[n] == Next(ws[n - 1], ss[n - 1]);
      forall j: nat | j < |ws[n].jobs| ensures LeaseMatchesStatus(ws[n].jobs[j]) {
        if j < |ws[n - 1].jobs| {
          assert ws[n - 1].jobs[j] in ws[n - 1].jobs;
        }
      }
    }
  }

  /** Completed, failed and cancelled form a closed set, and no job in it is claimed again. */
  lemma {:induction false} TerminalIsForever(ws: seq<World>, ss: seq<Step>, i: nat, k: nat, j: nat)
    requires IsRun(ws, ss) && i <= k <= |ss|
    requires j < |ws[i].jobs| && Terminal(ws[i].jobs[j].status)
    ensures j < |ws[k].jobs| && Terminal(ws[k].jobs[j].status)
    ensures Claims(ss, j, k) == Claims(ss, j, i)
    decreases k
  {
    if i < k {
      TerminalIsForever(ws, ss, i, k - 1, j);
      assert ws[k] == Next(ws[k - 1], ss[k - 1]);
    }
  }

  /** The table after a claim never says Pending until an expiry or a retry says so. */
  lemma {:induction false} OnlyExpiryOrRetryReopens(ws: seq<World>, ss: seq<Step>, i: nat, k: nat, j: nat)
    requires IsRun(ws, ss) && i <= k <= |ss|
    requires j < |ws[i].jobs| && !ws[i].jobs[j].status.Pending?
    requires forall m | i <= m < k :: !IsExpiry(ws[m], ss[m], j) && !IsRetry(ws[m], ss[m], j)
    ensures j < |ws[k].jobs| && !ws[k].jobs[j].status.Pending?
    decreases k
  {
    if i < k {
      OnlyExpiryOrRetryReopens(ws, ss, i, k - 1, j);
      assert ws[k] == Next(ws[k - 1], ss[k - 1]);
    }
  }

  lemma ClaimsAreSeparated(ws: seq<World>, ss: seq<Step>, i: nat, k: nat, j: nat)
    requires IsRun(ws, ss) && i < k < |ss|
    requires IsClaim(ss[i], j) && IsClaim(ss[k], j)
    ensures exists m | i < m < k :: IsExpiry(ws[m], ss[m], j) || IsRetry(ws[m], ss[m], j)
  {
    assert Enabled(ws[k], ss[k]) && ws[i + 1] == Next(ws[i], ss[i]);
    if forall m | i < m < k :: !IsExpiry(ws[m], ss[m], j) && !IsRetry(ws[m], ss[m], j) {
      OnlyExpiryOrRetryReopens(ws, ss, i + 1, k, j);
    }
  }

  // ---------------------------------------------------------------- counting

  function AttemptLimit(j: Job): nat {
    if j.maxAttempts < 1 then 1 else j.maxAttempts
  }

  ghost predicate Balanced(row: Job, claims: nat, expiries: nat, retries: nat) {
    && row.attempts == claims
    && (row.status.Pending? ==> claims == retries + expiries)
    && (row.status.Running? ==> claims == retries + expiries + 1)
    && retries + expiries <= claims <= retries + expiries + 1
    && retries < AttemptLimit(row)
  }

  lemma {:induction false} AttemptAccounting(ws: seq<World>, ss: seq<Step>, n: nat, j: nat)
    requires IsRun(ws, ss) && n <= |ss|
    ensures j >= |ws[n].jobs| ==>
      Claims(ss, j, n) == 0 && Expiries(ws, ss, j, n) == 0 && Retries(ws, ss, j, n) == 0
    ensures j < |ws[n].jobs| ==>
      Balanced(ws[n].jobs[j], Claims(ss, j, n), Expiries(ws, ss, j, n), Retries(ws, ss, j, n))
  {
    if n > 0 {
      AttemptAccounting(ws, ss, n - 1, j);
      assert ws[n] == Next(ws[n - 1], ss[n - 1]);
    }
  }

  /** A job is claimed at most max(1, max_attempts) times, plus once for every lease that ran out. */
  lemma ClaimsAreBounded(ws: seq<World>, ss: seq<Step>, n: nat, j: nat)
    requires IsRun(ws, ss) && n <= |ss| && j < |ws[n].jobs|
    ensures Claims(ss, j, n) <= AttemptLimit(ws[n].jobs[j]) + Expiries(ws, ss, j, n)
  {
    AttemptAccounting(ws, ss, n, j);
  }

  lemma {:induction false} AttemptsNeverFall(ws: seq<World>, ss: seq<Step>, i: nat, k: nat, j: nat)
    requires IsRun(ws, ss) && i <= k <= |ss| && j < |ws[i].jobs|
    ensures j < |ws[k].jobs| && ws[i].jobs[j].attempts <= ws[k].jobs[j].attempts
    ensures AttemptLimit(ws[i].jobs[j]) == AttemptLimit(ws[k].jobs[j])
    decreases k
  {
    if i < k {
      AttemptsNeverFall(ws, ss, i, k - 1, j);
      assert ws[k] == Next(ws[k - 1], ss[k - 1]);
    }
  }

  /** A lease of the job ran out when all its attempts were used: the case that requeue_expired does not tell apart. */
  predicate LateExpiry(w: World, s: Step, j: nat) {
    IsExpiry(w, s, j) && w.jobs[j].attempts >= AttemptLimit(w.jobs[j])
  }

  /** A job that used its attempts up can only be waiting again because of a late expiry. */
  lemma {:induction false} WaitingAtTheLimit(ws: seq<World>, ss: seq<Step>, n: nat, j: nat) returns (i: nat)
    requires IsRun(ws, ss) && n <= |ss| && j < |ws[n].jobs|
    requires ws[n].jobs[j].status.Pending? && ws[n].jobs[j].attempts >= AttemptLimit(ws[n].jobs[j])
    ensures i < n && LateExpiry(ws[i], ss[i], j)
  {
    assert n > 0;
    assert ws[n] == Next(ws[n - 1], ss[n - 1]);
    if LateExpiry(ws[n - 1], ss[n - 1], j) {
      i := n - 1;
    } else {
      i := WaitingAtTheLimit(ws, ss, n - 1, j);
    }
  }

  lemma {:induction false} OverrunNeedsLateExpiry(ws: seq<World>, ss: seq<Step>, n: nat, j: nat)
    returns (i: nat, m: nat)
    requires IsRun(ws, ss) && n <= |ss| && j < |ws[n].jobs|
    requires ws[n].jobs[j].attempts > AttemptLimit(ws[n].jobs[j])
    ensures i < m < n && LateExpiry(ws[i], ss[i], j) && IsClaim(ss[m], j)
  {
    assert n > 0;
    assert Enabled(ws[n - 1], ss[n - 1]) && ws[n] == Next(ws[n - 1], ss[n - 1]);
    if ws[n - 1].jobs[j].attempts > AttemptLimit(ws[n - 1].jobs[j]) {
      i, m := OverrunNeedsLateExpiry(ws, ss, n - 1, j);
    } else {
      assert IsClaim(ss[n - 1], j);
      m := n - 1;
      i := WaitingAtTheLimit(ws, ss, n - 1, j);
    }
  }

  /**
    A job exceeds max(1, max_attempts) exactly when a lease of it ran out after its last allowed
    attempt and it was claimed again since.
  */
  lemma OverrunsTheLimitExactlyWhen(ws: seq<World>, ss: seq<Step>, n: nat, j: nat)
    requires IsRun(ws, ss) && n <= |ss| && j < |ws[n].jobs|
    ensures ws[n].jobs[j].attempts > AttemptLimit(ws[n].jobs[j]) <==>
      exists i, m | 0 <= i < m < n :: LateExpiry(ws[i], ss[i], j) && IsClaim(ss[m], j)
  {
    if ws[n].jobs[j].attempts > AttemptLimit(ws[n].jobs[j]) {
      var i, m := OverrunNeedsLateExpiry(ws, ss, n, j);
    }
    if i, m :| 0 <= i < m < n && LateExpiry(ws[i], ss[i], j) && IsClaim(ss[m], j) {
      assert Enabled(ws[m], ss[m]) && ws[m + 1] == Next(ws[m], ss[m]);
      AttemptsNeverFall(ws, ss, i, m, j);
      AttemptsNeverFall(ws, ss, m + 1, n, j);
    }
  }

  /** And this happens: one allowed attempt, a worker that dies, and two claims. */
  lemma ExpiriesOutrunTheLimit()
    ensures exists ws: seq<World>, ss: seq<Step> ::
      IsRun(ws, ss) && |ws[|ss|].jobs| == 1 && ws[|ss|].jobs[0].attempts > AttemptLimit(ws[|ss|].jobs[0])
  {
    var queued := NewJob("scan", "bbot", 0, 1, None, 0, 0);
    var first := ClaimedBy(queued, "w", 60, 0);
    var reopened := Requeued(first, 61);
    var second := ClaimedBy(reopened, "w", 60, 61);
    var idle, busy := map[0 := Process("w", Idle)], map[0 := Process("w", Claimed(0))];
    var w0, w1, w2 := World([], idle), World([queued], idle), World([first], busy);
    var w3, w4, w5 := World([first], idle), World([reopened], idle), World([second], busy);
    var s0, s1, s2, s3, s4 := Submit(queued), Claim(0, 0, 60, 0), Die(0), Expire(61), Claim(0, 0, 60, 61);
    assert Next(w0, s0) == w1;
    assert Next(w1, s1) == w2 by { assert w1.jobs[0 := first] == [first]; }
    assert Next(w2, s2) == w3;
    assert Next(w3, s3) == w4 by { assert RequeueTable([first], 61) == [reopened]; }
    assert Next(w4, s4) == w5 by { assert w4.jobs[0 := second] == [second]; }
    var ws, ss := [w0, w1, w2, w3, w4, w5], [s0, s1, s2, s3, s4];
    assert IsRun(ws, ss);
    assert ws[|ss|].jobs[0].attempts == 2;
  }

  /** How much processing a job may still cost while no lease of it runs out. */
  function Measure(row: Job): int {
    if Terminal(row.status) then 0
    else 2 * (AttemptLimit(row) - row.attempts) + if row.status.Running? then 2 else 1
  }

  lemma MeasureDecreases(ws: seq<World>, ss: seq<Step>, n: nat, j: nat)
    requires IsRun(ws, ss) && n < |ss| && j < |ws[n].jobs|
    requires Expiries(ws, ss, j, n + 1) == 0
    ensures 0 <= Measure(ws[n + 1].jobs[j]) <= Measure(ws[n].jobs[j]) <= 2 * AttemptLimit(ws[n].jobs[j]) + 1
    ensures Measure(ws[n + 1].jobs[j]) == Measure(ws[n].jobs[j]) ==>
      ws[n + 1].jobs[j] == ws[n].jobs[j] || Terminal(ws[n].jobs[j].status)
  {
    AttemptAccounting(ws, ss, n, j);
    AttemptAccounting(ws, ss, n + 1, j);
    assert ws[n + 1] == Next(ws[n], ss[n]);
  }

  // ---------------------------------------------------------------- who works on a job

  predicate Engaged(w: World, p: nat, j: nat) {
    p in w.processes && !w.processes[p].phase.Idle? && w.processes[p].phase.job == j
  }

  /** At most one process holds the job, and it holds it under its own lease or the API cancelled it. */
  ghost predicate Exclusive(w: World, j: nat) {
    && (forall p, q | Engaged(w, p, j) && Engaged(w, q, j) :: p == q)
    && (forall p | Engaged(w, p, j) ::
          && j < |w.jobs|
          && (|| (w.jobs[j].status.Running? && w.jobs[j].leaseOwner == Some(w.processes[p].owner))
              || w.jobs[j].status.Cancelled?))
  }

  /** Mutual exclusion: while no lease of the job has run out, no two processes are engaged with it. */
  lemma {:induction false} ExclusiveUntilExpiry(ws: seq<World>, ss: seq<Step>, n: nat, j: nat)
    requires IsRun(ws, ss) && n <= |ss|
    requires Expiries(ws, ss, j, n) == 0
    ensures Exclusive(ws[n], j)
  {
    if n > 0 {
      ExclusiveUntilExpiry(ws, ss, n - 1, j);
      var w, s, w' := ws[n - 1], ss[n - 1], ws[n];
      assert w' == Next(w, s);
      assert forall p | Engaged(w', p, j) :: Engaged(w, p, j) || (s.Claim? && s.pid == p && s.job == j);
      if (s.Complete? || s.HandleFailure?) && w.processes[s.pid].phase.job == j {
        assert Engaged(w, s.pid, j);
      }
    }
  }

  /** So the blind write of a completion then lands on its own running row, or on a cancelled one. */
  lemma CompletionLandsOnOwnLease(ws: seq<World>, ss: seq<Step>, n: nat)
    requires IsRun(ws, ss) && n < |ss| && ss[n].Complete?
    requires Expiries(ws, ss, ws[n].processes[ss[n].pid].phase.job, n) == 0
    ensures var me := ws[n].processes[ss[n].pid];
      var row := ws[n].jobs[me.phase.job];
      row.leaseOwner == Some(me.owner) || row.status.Cancelled?
  {
    assert Enabled(ws[n], ss[n]);
    var j := ws[n].processes[ss[n].pid].phase.job;
    ExclusiveUntilExpiry(ws, ss, n, j);
    assert Engaged(ws[n], ss[n].pid, j);
  }

  /** Cancelled is not final, and exactly one kind of step undoes it: a completion that was already past its check. */
  lemma CancelUndoneOnlyByLateCompletion(w: World, s: Step, j: nat)
    requires Enabled(w, s) && j < |w.jobs| && w.jobs[j].status.Cancelled?
    ensures !Next(w, s).jobs[j].status.Cancelled? <==>
      s.Complete? && w.processes[s.pid].phase == Working(j)
    ensures !Next(w, s).jobs[j].status.Cancelled? ==> Next(w, s).jobs[j].status.Completed?
  {
  }

  // ---------------------------------------------------------------- writes without the lease

  /** The job that a completing or failure-handling process is about to write. */
  function Written(w: World, s: Step): nat
    requires Enabled(w, s) && (s.Complete? || s.HandleFailure?)
  {
    w.processes[s.pid].phase.job
  }

  predicate LeasedToAnother(w: World, p: nat, j: nat)
    requires p in w.processes && j < |w.jobs|
  {
    w.jobs[j].leaseOwner.Some? && w.jobs[j].leaseOwner != Some(w.processes[p].owner)
  }

  /**
    A completion or a failure handler changes a row that is leased to somebody else exactly when the
    row is running under another owner's name, the test that only the check before the processing
    makes. Some lease of the job has run out before.
  */
  lemma WritesAnothersLeaseExactlyWhen(ws: seq<World>, ss: seq<Step>, n: nat)
    requires IsRun(ws, ss) && n < |ss| && (ss[n].Complete? || ss[n].HandleFailure?)
    ensures Enabled(ws[n], ss[n])
    ensures var j := Written(ws[n], ss[n]);
      && (LeasedToAnother(ws[n], ss[n].pid, j) && ws[n + 1].jobs[j] != ws[n].jobs[j] <==>
            ws[n].jobs[j].status.Running? && ws[n].jobs[j].leaseOwner != Some(ws[n].processes[ss[n].pid].owner))
      && (LeasedToAnother(ws[n], ss[n].pid, j) ==>
            Expiries(ws, ss, j, n) >= 1 && ws[n + 1].jobs[j].leaseOwner.None?)
  {
    assert Enabled(ws[n], ss[n]) && ws[n + 1] == Next(ws[n], ss[n]);
    var j := Written(ws[n], ss[n]);
    LeaseExactlyWhileRunning(ws, ss, n);
    assert LeaseMatchesStatus(ws[n].jobs[j]);
    if Expiries(ws, ss, j, n) == 0 {
      ExclusiveUntilExpiry(ws, ss, n, j);
      assert Engaged(ws[n], ss[n].pid, j);
    }
  }

  /** Two workers a and b; a claims and checks the job, its lease runs out, b claims and checks it. */
  ghost function Overlap(): (seq<World>, seq<Step>) {
    var row0 := NewJob("scan", "bbot", 0, 3, None, 0, 0);
    var row1 := ClaimedBy(row0, "a", 60, 0);
    var row2 := Requeued(row1, 61);
    var row3 := ClaimedBy(row2, "b", 60, 61);
    var a, b := Process("a", Idle), Process("b", Idle);
    var a1, a2 := Process("a", Claimed(0)), Process("a", Working(0));
    ([World([], map[0 := a, 1 := b]), World([row0], map[0 := a, 1 := b]),
      World([row1], map[0 := a1, 1 := b]), World([row1], map[0 := a2, 1 := b]), World([row2], map[0 := a2, 1 := b]),
      World([row3], map[0 := a2, 1 := Process("b", Claimed(0))]),
      World([row3], map[0 := a2, 1 := Process("b", Working(0))])],
     [Submit(row0), Claim(0, 0, 60, 0), Check(0), Expire(61), Claim(1, 0, 60, 61), Check(1)])
  }

  /** A second worker at work under its own lease while the first still believes it has the job. */
  predicate Overlapping(w: World) {
    && |w.jobs| == 1 && w.jobs[0].status.Running? && w.jobs[0].leaseOwner == Some("b")
    && 0 in w.processes && w.processes[0] == Process("a", Working(0))
    && 1 in w.processes && w.processes[1] == Process("b", Working(0))
  }

  lemma OverlapIsARun()
    ensures var (ws, ss) := Overlap(); IsRun(ws, ss) && |ss| == 6 && Overlapping(ws[6])
  {
    var (ws, ss) := Overlap();
    assert ws[1] == Next(ws[0], ss[0]);
    assert ws[2] == Next(ws[1], ss[1]) by { assert ws[1].jobs[0 := ws[2].jobs[0]] == ws[2].jobs; }
    assert ws[3] == Next(ws[2], ss[2]);
    assert ws[4] == Next(ws[3], ss[3]) by { assert RequeueTable(ws[3].jobs, 61) == ws[4].jobs; }
    assert ws[5] == Next(ws[4], ss[4]) by { assert ws[4].jobs[0 := ws[5].jobs[0]] == ws[5].jobs; }
    assert ws[6] == Next(ws[5], ss[5]);
  }

  /** One expiry is enough to break exclusion: two processes past their checks on the same row. */
  lemma ExclusionEndsWithAnExpiry()
    ensures var (ws, ss) := Overlap(); IsRun(ws, ss) && Overlapping(ws[|ss|]) && Expiries(ws, ss, 0, |ss|) == 1
  {
    OverlapIsARun();
    var (ws, ss) := Overlap();
    ExpiryCount(ws, ss);
  }

  lemma ExpiryCount(ws: seq<World>, ss: seq<Step>)
    requires |ss| == 6 && |ws| == 7
    requires forall i | 0 <= i < 6 :: IsExpiry(ws[i], ss[i], 0) <==> i == 3
    ensures Expiries(ws, ss, 0, 6) == 1
  {
    assert Expiries(ws, ss, 0, 1) == 0;
    assert Expiries(ws, ss, 0, 2) == 0;
    assert Expiries(ws, ss, 0, 3) == 0;
    assert Expiries(ws, ss, 0, 4) == 1;
    assert Expiries(ws, ss, 0, 5) == 1;
  }

  /** Then the first worker's failure handler takes the row away from the second, which is at work on it. */
  lemma StaleHandlerFailsAnotherLease()
    ensures exists ws: seq<World>, ss: seq<Step> ::
      && IsRun(ws, ss) && |ss| == 8 && ss[7].HandleFailure? && ss[7].pid == 0
      && |ws[7].jobs| == |ws[8].jobs| == 1 && ws[7].jobs[0].leaseOwner == Some("b")
      && 0 in ws[7].processes && LeasedToAnother(ws[7], 0, 0)
      && ws[8].jobs[0].status.Pending? && ws[8].jobs[0].leaseOwner.None?
      && 1 in ws[8].processes && ws[8].processes[1] == Process("b", Working(0))
  {
    OverlapIsARun();
    var (ws, ss) := Overlap();
    RunGoesOn(ws, ss, Raise(0));
    var ws7, ss7 := ws + [Next(ws[6], Raise(0))], ss + [Raise(0)];
    assert ws7[7].jobs == ws[6].jobs;
    RunGoesOn(ws7, ss7, HandleFailure(0, 62));
    var ws8, ss8 := ws7 + [Next(ws7[7], HandleFailure(0, 62))], ss7 + [HandleFailure(0, 62)];
    assert IsRun(ws8, ss8) && ss8[7].HandleFailure?;
  }

  /** Or its late completion completes it. */
  lemma StaleCompletionTakesAnotherLease()
    ensures exists ws: seq<World>, ss: seq<Step> ::
      && IsRun(ws, ss) && |ss| == 7 && ss[6].Complete? && ss[6].pid == 0
      && |ws[6].jobs| == |ws[7].jobs| == 1 && ws[6].jobs[0].leaseOwner == Some("b")
      && 0 in ws[6].processes && LeasedToAnother(ws[6], 0, 0)
      && ws[7].jobs[0].status.Completed? && ws[7].jobs[0].leaseOwner.None?
      && 1 in ws[7].processes && ws[7].processes[1] == Process("b", Working(0))
  {
    OverlapIsARun();
    var (ws, ss) := Overlap();
    RunGoesOn(ws, ss, Complete(0, 62));
    var ws7, ss7 := ws + [Next(ws[6], Complete(0, 62))], ss + [Complete(0, 62)];
    assert IsRun(ws7, ss7) && ss7[6].Complete?;
  }

  /** A cancelled job that ends completed: the worker was past its check when the API cancelled. */
  lemma CancelledJobCompletes()
    ensures exists ws: seq<World>, ss: seq<Step> ::
      && IsRun(ws, ss) && |ss| == 5 && |ws[4].jobs| == |ws[5].jobs| == 1
      && ss[3].Cancel? && ws[4].jobs[0].status.Cancelled? && ws[5].jobs[0].status.Completed?
  {
    OverlapIsARun();
    var (overlap, steps) := Overlap();
    var ws, ss := overlap[..4], steps[..3];
    assert IsRun(ws, ss);
    RunGoesOn(ws, ss, Cancel(0, 5));
    var ws4, ss4 := ws + [Next(ws[3], Cancel(0, 5))], ss + [Cancel(0, 5)];
    RunGoesOn(ws4, ss4, Complete(0, 6));
    var ws5, ss5 := ws4 + [Next(ws4[4], Complete(0, 6))], ss4 + [Complete(0, 6)];
    assert IsRun(ws5, ss5) && ss5[3].Cancel? && ws5[4] == ws4[4];
  }
}
