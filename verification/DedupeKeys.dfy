/**
  The dedupe keys as the text that the queue stores (bbpipeline/scheduler.py, events.py, workflow.py):
  parts joined by colons, and no two jobs of the model share one.
*/
module DedupeKeys {
  import opened Common
  import Events
  import Findings
  import Scheduler

  function Joined(parts: seq<string>): string {
    if parts == [] then ""
    else if |parts| == 1 then parts[0]
    else parts[0] + ":" + Joined(parts[1..])
  }

  predicate Plain(s: string) {
    ':' !in s
  }

  /** Every part but the last is free of colons. */
  predicate Readable(parts: seq<string>) {
    parts != [] && forall i | 0 <= i < |parts| - 1 :: Plain(parts[i])
  }

  lemma FirstColonSplits(a: string, b: string, s: string, t: string)
    requires Plain(a) && Plain(b) && a + ":" + s == b + ":" + t
    ensures a == b && s == t
  {
    var left, right := a + ":" + s, b + ":" + t;
    assert forall i | 0 <= i < |a| :: a[i] in a && left[i] == a[i] && left[i] != ':';
    assert forall i | 0 <= i < |b| :: b[i] in b && right[i] == b[i] && right[i] != ':';
    assert left[|a|] == ':' && right[|b|] == ':';
    assert |a| == |b|;
    assert a == left[..|a|] && b == right[..|b|];
    assert s == left[|a| + 1..] && t == right[|b| + 1..];
  }

  /** A joined key can be read back. */
  lemma {:induction false} JoinedIsInjective(a: seq<string>, b: seq<string>)
    requires Readable(a) && Readable(b) && |a| == |b| && Joined(a) == Joined(b)
    ensures a == b
  {
    if |a| > 1 {
      FirstColonSplits(a[0], b[0], Joined(a[1..]), Joined(b[1..]));
      JoinedIsInjective(a[1..], b[1..]);
      assert a == [a[0]] + a[1..] && b == [b[0]] + b[1..];
    }
  }

  lemma FirstPartIsFixed(a: seq<string>, b: seq<string>)
    requires Readable(a) && Readable(b) && |a| > 1 && |b| > 1 && Joined(a) == Joined(b)
    ensures a[0] == b[0] && Joined(a[1..]) == Joined(b[1..])
  {
    FirstColonSplits(a[0], b[0], Joined(a[1..]), Joined(b[1..]));
  }

  // ---------------------------------------------------------------- the keys of the model as text

  /** How row ids and instants are written; both forms are injective, ids without colons. */
  datatype Writers = Writers(eventId: Events.EventId -> string, findingId: nat -> string, instant: int -> string)

  ghost predicate Faithful(w: Writers) {
    && (forall a, b :: w.eventId(a) == w.eventId(b) ==> a == b)
    && (forall a, b :: w.findingId(a) == w.findingId(b) ==> a == b)
    && (forall a, b :: w.instant(a) == w.instant(b) ==> a == b)
    && (forall a :: Plain(w.eventId(a)))
    && (forall a :: Plain(w.findingId(a)))
  }

  datatype Key =
    | Scheduled(job: Scheduler.JobKey)
    | Planner(event: Events.EventId, payloadHash: string, provider: string)
    | Verify(finding: nat)
    | Critic(criticized: nat, criticProvider: string)

  function Parts(w: Writers, k: Key): seq<string> {
    match k
    case Scheduled(JobKey(program, kind, None, stamp)) => ["schedule", program, kind, w.instant(stamp)]
    case Scheduled(JobKey(program, kind, Some(repository), stamp)) =>
      ["schedule", program, kind, repository, w.instant(stamp)]
    case Planner(event, payloadHash, provider) => ["planner", w.eventId(event), payloadHash, provider]
    case Verify(finding) => ["verify", w.findingId(finding)]
    case Critic(finding, provider) => ["critic", w.findingId(finding), provider]
  }

  function Text(w: Writers, k: Key): string {
    Joined(Parts(w, k))
  }

  /** No colons in ids, hashes and repositories, and a repository exactly in the key of a repository scan. */
  predicate WellFormed(k: Key) {
    match k
    case Scheduled(job) =>
      && Plain(job.program) && Plain(job.kind)
      && (job.repository.Some? ==> Plain(job.repository.value))
      && (job.repository.Some? <==> job.kind == "gitleaks")
    case Planner(_, payloadHash, _) => Plain(payloadHash)
    case _ => true
  }

  lemma PartsAreReadable(w: Writers, k: Key)
    requires Faithful(w) && WellFormed(k)
    ensures Readable(Parts(w, k)) && |Parts(w, k)| > 1
  {
  }

  /** Two keys of different kinds never meet: their texts begin differently. */
  lemma KindsNeverMeet(w: Writers, a: Key, b: Key)
    requires Faithful(w) && WellFormed(a) && WellFormed(b) && Text(w, a) == Text(w, b)
    ensures Parts(w, a)[0] == Parts(w, b)[0] && |Parts(w, a)| == |Parts(w, b)|
  {
    var p, q := Parts(w, a), Parts(w, b);
    PartsAreReadable(w, a);
    PartsAreReadable(w, b);
    FirstPartIsFixed(p, q);
    assert p[0][0] == q[0][0];
    if a.Scheduled? {
      FirstPartIsFixed(p[1..], q[1..]);
      FirstPartIsFixed(p[2..], q[2..]);
    }
  }

  /** The queue tells two jobs apart exactly when the model does. */
  lemma TextsAreDistinct(w: Writers, a: Key, b: Key)
    requires Faithful(w) && WellFormed(a) && WellFormed(b)
    ensures Text(w, a) == Text(w, b) <==> a == b
  {
    if Text(w, a) == Text(w, b) {
      KindsNeverMeet(w, a, b);
      PartsAreReadable(w, a);
      PartsAreReadable(w, b);
      JoinedIsInjective(Parts(w, a), Parts(w, b));
      SameParts(w, a, b);
    }
  }

  lemma SameParts(w: Writers, a: Key, b: Key)
    requires Faithful(w) && Parts(w, a) == Parts(w, b)
    ensures a == b
  {
    var p, q := Parts(w, a), Parts(w, b);
    assert p[0][0] == q[0][0];
    assert p[1] == q[1] && p[|p| - 1] == q[|q| - 1];
    if |p| > 3 {
      assert p[2] == q[2] && p[3] == q[3];
    }
  }
}
