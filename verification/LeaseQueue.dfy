/** The durable job queue (bbpipeline/queue.py): rows, leases, retries and dedupe keys. */
module LeaseQueue {
  import opened Common

  datatype Status = Pending | Running | Completed | Failed | Cancelled

  predicate Terminal(s: Status) {
    s.Completed? || s.Failed? || s.Cancelled?
  }

  /** One row of the jobs table; the row's index in the table is its id. */
  datatype Job = Job(
    queue: string,
    kind: string,
    priority: int,
    maxAttempts: int,
    dedupeKey: Option<string>,
    createdAt: int,
    status: Status,
    attempts: nat,
    runAfter: int,
    leaseOwner: Option<string>,
    leaseExpires: Option<int>,
    completedAt: Option<int>)

  function NewJob(queue: string, kind: string, priority: int, maxAttempts: int, dedupeKey: Option<string>,
          runAfter: int, now: int): Job {
    Job(queue, kind, priority, maxAttempts, dedupeKey, now, Pending, 0, runAfter, None, None, None)
  }

  // ---------------------------------------------------------------- row updates

  predicate LeaseExpired(j: Job, now: int) {
    j.status.Running? && j.leaseExpires.Some? && j.leaseExpires.value < now
  }

  /** What identifies a job and what it may still cost: everything but its status, lease, schedule and completion. */
  ghost predicate SameJob(a: Job, b: Job) {
    && a.queue == b.queue && a.kind == b.kind && a.priority == b.priority
    && a.maxAttempts == b.maxAttempts && a.dedupeKey == b.dedupeKey && a.createdAt == b.createdAt
  }

  /** No worker can claim the row at any time, and no lease of it can run out. */
  ghost predicate OutOfPlay(j: Job) {
    forall t :: !Claimable(j, t) && !LeaseExpired(j, t)
  }

  /** Every row but one is as it was. */
  ghost predicate OnlyRow(before: seq<Job>, after: seq<Job>, id: nat) {
    |after| == |before| && forall i: nat | i < |before| && i != id :: after[i] == before[i]
  }

  function Requeued(j: Job, now: int): Job {
    if LeaseExpired(j, now)
    then j.(status := Pending, leaseOwner := None, leaseExpires := None, runAfter := now)
    else j
  }

  predicate Claimable(j: Job, now: int) {
    && j.status.Pending?
    && j.runAfter <= now
    && (j.leaseExpires.None? || j.leaseExpires.value < now)
  }

  function ClaimedBy(j: Job, owner: string, leaseSeconds: int, now: int): Job {
    j.(status := Running, attempts := j.attempts + 1, leaseOwner := Some(owner),
       leaseExpires := Some(now + leaseSeconds))
  }

  function CompletedAt(j: Job, now: int): Job {
    j.(status := Completed, leaseOwner := None, leaseExpires := None, completedAt := Some(now))
  }

  /** Retry delay after the given number of attempts, in seconds. */
  function Backoff(attempts: int): int {
    var delay := 30 * Pow2(if attempts - 1 < 0 then 0 else attempts - 1);
    if delay < 3600 then delay else 3600
  }

  function FailedAt(j: Job, now: int): Job {
    var released := j.(leaseOwner := None, leaseExpires := None);
    if j.attempts < j.maxAttempts
    then released.(status := Pending, runAfter := now + Backoff(j.attempts))
    else released.(status := Failed, completedAt := Some(now))
  }

  function CancelledAt(j: Job, now: int): Job {
    if Terminal(j.status) then j
    else j.(status := Cancelled, leaseOwner := None, leaseExpires := None, completedAt := Some(now))
  }

  // ---------------------------------------------------------------- table queries

  function FindKey(jobs: seq<Job>, key: string): Option<nat> {
    if jobs == [] then None
    else if jobs[|jobs| - 1].dedupeKey == Some(key) then Some(|jobs| - 1)
    else FindKey(jobs[..|jobs| - 1], key)
  }

  function RequeueTable(jobs: seq<Job>, now: int): (r: seq<Job>)
    ensures |r| == |jobs|
  {
    seq(|jobs|, i requires 0 <= i < |jobs| => Requeued(jobs[i], now))
  }

  function CountExpired(jobs: seq<Job>, now: int): nat {
    if jobs == [] then 0
    else CountExpired(jobs[..|jobs| - 1], now) + if LeaseExpired(jobs[|jobs| - 1], now) then 1 else 0
  }

  /** What a claim may take: a ready row of one of the worker's queues that no other transaction has locked. */
  predicate Selectable(jobs: seq<Job>, queues: seq<string>, locked: set<nat>, now: int, i: nat)
    requires i < |jobs|
  {
    jobs[i].queue in queues && i !in locked && Claimable(jobs[i], now)
  }

  /** ORDER BY priority DESC, created_at ASC. */
  predicate Precedes(a: Job, b: Job) {
    a.priority > b.priority || (a.priority == b.priority && a.createdAt < b.createdAt)
  }

  function SelectNext(jobs: seq<Job>, queues: seq<string>, locked: set<nat>, now: int, n: nat): Option<nat>
    requires n <= |jobs|
  {
    if n == 0 then None
    else
      var best := SelectNext(jobs, queues, locked, now, n - 1);
      if !Selectable(jobs, queues, locked, now, n - 1) then best
      else if best.Some? && best.value < |jobs| && !Precedes(jobs[n - 1], jobs[best.value]) then best
      else Some(n - 1)
  }

  // ---------------------------------------------------------------- the queue

  ghost predicate UniqueKeys(jobs: seq<Job>) {
    forall i, j | 0 <= i < j < |jobs| && jobs[i].dedupeKey.Some? :: jobs[i].dedupeKey != jobs[j].dedupeKey
  }

  datatype QueueError = IntegrityError

  class JobQueue {
    var jobs: seq<Job>

    constructor ()
      ensures jobs == []
    {
      jobs := [];
    }

    /** A non-empty dedupe key that is already taken returns the row holding it and inserts nothing. */
    method Enqueue(queue: string, kind: string, priority: int, maxAttempts: int, runAfter: Option<int>,
            dedupeKey: Option<string>, now: int)
      returns (r: Result<nat, QueueError>)
      requires UniqueKeys(jobs)
      modifies this
      ensures UniqueKeys(jobs)
      ensures old(jobs) <= jobs
      ensures r.Ok? ==> r.value < |jobs| && (dedupeKey.Some? ==> jobs[r.value].dedupeKey == dedupeKey)
      ensures r.Ok? <==> dedupeKey != Some("") || forall j <- old(jobs) :: j.dedupeKey != dedupeKey
      ensures jobs != old(jobs) <==> dedupeKey.None? || forall j <- old(jobs) :: j.dedupeKey != dedupeKey
      ensures jobs != old(jobs) ==>
        && r == Ok(|old(jobs)|) && |jobs| == |old(jobs)| + 1
        && var row := jobs[|old(jobs)|];
           && row.queue == queue && row.kind == kind && row.priority == priority && row.maxAttempts == maxAttempts
           && row.dedupeKey == dedupeKey && row.createdAt == now
           && row.runAfter == (if runAfter.Some? then runAfter.value else now)
           && row.status.Pending? && row.attempts == 0
           && row.leaseOwner.None? && row.leaseExpires.None? && row.completedAt.None?
    {
      var job := NewJob(queue, kind, priority, maxAttempts, dedupeKey,
                        if runAfter.Some? then runAfter.value else now, now);
      if dedupeKey.Some? {
        FindKeyCorrect(jobs, dedupeKey.value);
        var existing := FindKey(jobs, dedupeKey.value);
        if existing.Some? {
          if dedupeKey.value == "" {
            return Err(IntegrityError);
          }
          return Ok(existing.value);
        }
      }
      r := Ok(|jobs|);
      jobs := jobs + [job];
    }

    /** A row changes exactly when its lease has run out; it is then ready at once, and no lease in the table has. */
    method RequeueExpired(now: int) returns (count: nat)
      modifies this
      ensures |jobs| == |old(jobs)|
      ensures forall i: nat | i < |jobs| ::
        jobs[i] != old(jobs)[i] <==>
          var was := old(jobs)[i];
          was.status.Running? && was.leaseExpires.Some? && was.leaseExpires.value < now
      ensures forall i: nat | i < |jobs| && jobs[i] != old(jobs)[i] ::
        && SameJob(jobs[i], old(jobs)[i]) && jobs[i].attempts == old(jobs)[i].attempts
        && jobs[i].completedAt == old(jobs)[i].completedAt
        && jobs[i].leaseOwner.None? && jobs[i].leaseExpires.None?
        && forall t :: Claimable(jobs[i], t) <==> now <= t
      ensures forall j <- jobs :: !LeaseExpired(j, now)
      ensures count == |set i: nat | i < |jobs| && jobs[i] != old(jobs)[i]|
    {
      ghost var before := jobs;
      count := CountExpired(jobs, now);
      jobs := RequeueTable(jobs, now);
      CountExpiredIsChangedRows(before, now);
      assert ChangedRows(before, now) == set i: nat | i < |jobs| && jobs[i] != before[i];
    }

    /**
      Once expired leases are returned, takes a ready row of the worker's queues that nobody has locked:
      none of them has a higher priority, and none of the same priority is older.
    */
    method Claim(queues: seq<string>, owner: string, leaseSeconds: int, locked: set<nat>, now: int)
      returns (claimed: Option<nat>)
      modifies this
      ensures claimed.None? ==>
        && jobs == RequeueTable(old(jobs), now)
        && forall i: nat | i < |jobs| ::
             !(jobs[i].queue in queues && i !in locked && jobs[i].status.Pending? && jobs[i].runAfter <= now
               && (jobs[i].leaseExpires.None? || jobs[i].leaseExpires.value < now))
      ensures claimed.Some? ==>
        var ready, c := RequeueTable(old(jobs), now), claimed.value;
        && c < |ready| && ready[c].queue in queues && c !in locked
        && ready[c].status.Pending? && ready[c].runAfter <= now
        && (ready[c].leaseExpires.None? || ready[c].leaseExpires.value < now)
        && (forall i: nat | i < |ready| ::
              && ready[i].queue in queues && i !in locked && ready[i].status.Pending? && ready[i].runAfter <= now
              && (ready[i].leaseExpires.None? || ready[i].leaseExpires.value < now)
              ==>
              || ready[i].priority < ready[c].priority
              || (ready[i].priority == ready[c].priority && ready[i].createdAt >= ready[c].createdAt))
        && OnlyRow(ready, jobs, c) && SameJob(jobs[c], ready[c])
        && jobs[c].status.Running? && jobs[c].attempts == ready[c].attempts + 1
        && jobs[c].leaseOwner == Some(owner) && jobs[c].leaseExpires == Some(now + leaseSeconds)
        && jobs[c].runAfter == ready[c].runAfter && jobs[c].completedAt == ready[c].completedAt
    {
      ghost var before := jobs;
      var _ := RequeueExpired(now);
      RequeuedRowByRow(before, jobs, now);
      SelectNextCorrect(jobs, queues, locked, now, |jobs|);
      claimed := SelectNext(jobs, queues, locked, now, |jobs|);
      SelectableMeaning(jobs, queues, locked, now);
      if claimed.Some? {
        jobs := jobs[claimed.value := ClaimedBy(jobs[claimed.value], owner, leaseSeconds, now)];
      }
    }

    /** Whatever the row was before, it is now completed and out of play. */
    method Complete(id: nat, now: int)
      requires id < |jobs|
      modifies this
      ensures OnlyRow(old(jobs), jobs, id)
      ensures SameJob(jobs[id], old(jobs)[id])
      ensures jobs[id].attempts == old(jobs)[id].attempts && jobs[id].runAfter == old(jobs)[id].runAfter
      ensures jobs[id].status.Completed? && jobs[id].completedAt == Some(now)
      ensures jobs[id].leaseOwner.None? && jobs[id].leaseExpires.None? && OutOfPlay(jobs[id])
    {
      jobs := jobs[id := CompletedAt(jobs[id], now)];
    }

    /** Gives the lease up; the job waits out its delay while it has attempts left, and fails otherwise. */
    method Fail(id: nat, now: int)
      requires id < |jobs|
      modifies this
      ensures OnlyRow(old(jobs), jobs, id)
      ensures SameJob(jobs[id], old(jobs)[id]) && jobs[id].attempts == old(jobs)[id].attempts
      ensures jobs[id].leaseOwner.None? && jobs[id].leaseExpires.None?
      ensures
        var was, row := old(jobs)[id], jobs[id];
        if was.attempts < was.maxAttempts
        then row.status.Pending? && row.runAfter == now + Backoff(was.attempts) && row.completedAt == was.completedAt
        else row.status.Failed? && row.runAfter == was.runAfter && row.completedAt == Some(now)
    {
      var job := jobs[id].(leaseOwner := None, leaseExpires := None);
      if job.attempts < job.maxAttempts {
        var delay := Backoff(job.attempts);
        job := job.(status := Pending, runAfter := now + delay);
      } else {
        job := job.(status := Failed, completedAt := Some(now));
      }
      jobs := jobs[id := job];
    }

    /**
      A finished job keeps its result; any other is cancelled. Either way it is out of play, and
      cancelling is idempotent.
    */
    method Cancel(id: nat, now: int)
      requires id < |jobs|
      modifies this
      ensures OnlyRow(old(jobs), jobs, id)
      ensures jobs[id] == old(jobs)[id] <==> Terminal(old(jobs)[id].status)
      ensures !Terminal(old(jobs)[id].status) ==>
        && SameJob(jobs[id], old(jobs)[id])
        && jobs[id].attempts == old(jobs)[id].attempts && jobs[id].runAfter == old(jobs)[id].runAfter
        && jobs[id].status.Cancelled? && jobs[id].completedAt == Some(now)
        && jobs[id].leaseOwner.None? && jobs[id].leaseExpires.None?
      ensures Terminal(jobs[id].status) && OutOfPlay(jobs[id])
    {
      if Terminal(jobs[id].status) {
        return;
      }
      jobs := jobs[id := CancelledAt(jobs[id], now)];
    }
  }

  /** The expiry update, told row by row, is the table that the claim goes on from. */
  lemma RequeuedRowByRow(before: seq<Job>, after: seq<Job>, now: int)
    requires |after| == |before|
    requires forall i: nat | i < |after| :: after[i] != before[i] <==> LeaseExpired(before[i], now)
    requires forall i: nat | i < |after| && after[i] != before[i] ::
      && SameJob(after[i], before[i]) && after[i].attempts == before[i].attempts
      && after[i].completedAt == before[i].completedAt
      && after[i].leaseOwner.None? && after[i].leaseExpires.None?
      && forall t :: Claimable(after[i], t) <==> now <= t
    ensures after == RequeueTable(before, now)
  {
    forall i: nat | i < |after| ensures after[i] == Requeued(before[i], now) {
      if after[i] != before[i] {
        assert Claimable(after[i], now) && !Claimable(after[i], now - 1);
        assert Claimable(after[i], after[i].runAfter);
      }
    }
  }

  lemma {:induction false} FindKeyCorrect(jobs: seq<Job>, key: string)
    ensures FindKey(jobs, key).None? <==> forall j <- jobs :: j.dedupeKey != Some(key)
    ensures FindKey(jobs, key).Some? ==>
      var i := FindKey(jobs, key).value; i < |jobs| && jobs[i].dedupeKey == Some(key)
  {
    if jobs != [] {
      FindKeyCorrect(jobs[..|jobs| - 1], key);
      assert jobs == jobs[..|jobs| - 1] + [jobs[|jobs| - 1]];
    }
  }

  lemma SelectableMeaning(jobs: seq<Job>, queues: seq<string>, locked: set<nat>, now: int)
    ensures forall i: nat | i < |jobs| ::
      (jobs[i].queue in queues && i !in locked && jobs[i].status.Pending? && jobs[i].runAfter <= now
       && (jobs[i].leaseExpires.None? || jobs[i].leaseExpires.value < now))
      <==> Selectable(jobs, queues, locked, now, i)
  {
  }

  lemma {:induction false} SelectNextCorrect(jobs: seq<Job>, queues: seq<string>, locked: set<nat>, now: int, n: nat)
    requires n <= |jobs|
    ensures var best := SelectNext(jobs, queues, locked, now, n);
      if best.None? then forall i: nat | i < n :: !Selectable(jobs, queues, locked, now, i)
      else
        && best.value < n
        && Selectable(jobs, queues, locked, now, best.value)
        && forall i: nat | i < n && Selectable(jobs, queues, locked, now, i) ::
             !Precedes(jobs[i], jobs[best.value])
  {
    if n > 0 {
      SelectNextCorrect(jobs, queues, locked, now, n - 1);
    }
  }

  function ChangedRows(jobs: seq<Job>, now: int): set<nat> {
    set i: nat | i < |jobs| && RequeueTable(jobs, now)[i] != jobs[i]
  }

  lemma OneMoreRow(jobs: seq<Job>, now: int)
    requires jobs != []
    ensures var n := |jobs| - 1;
      && n !in ChangedRows(jobs[..n], now)
      && ChangedRows(jobs, now) == ChangedRows(jobs[..n], now) + if LeaseExpired(jobs[n], now) then {n} else {}
  {
  }

  /** The update count is the number of rows the update really changed. */
  lemma {:induction false} CountExpiredIsChangedRows(jobs: seq<Job>, now: int)
    ensures CountExpired(jobs, now) == |ChangedRows(jobs, now)|
  {
    if jobs == [] {
      assert ChangedRows(jobs, now) == {};
    } else {
      CountExpiredIsChangedRows(jobs[..|jobs| - 1], now);
      OneMoreRow(jobs, now);
    }
  }
}
