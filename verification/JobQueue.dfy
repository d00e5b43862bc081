/**
 The leased job queue (app/repositories/job_repo.py) and the worker steps on it. Jobs are kept in
 creation order, and claims are serialised. Key-blocks and status updates name a job and no owner,
 so anyone may make them at any time, as the in-process jobs do.
 */
module JobQueue {
  import opened Wrappers

  type JobId = nat

  datatype Status = Queued | Running | Succeeded | Failed | Cancelled | Retrying

  datatype Job = Job(
    id: JobId,
    jobType: string,
    status: Status,
    leaseOwner: Option<string>,
    leaseExpires: Option<int>,
    heartbeat: Option<int>,
    attempts: nat,
    error: string
  )

  type Jobs = seq<Job>

  /** Types a worker asks for; none given means any. */
  predicate Wanted(j: Job, types: seq<string>) { types == [] || j.jobType in types }

  /** Waiting for a worker, with no lease in force. */
  predicate Eligible(j: Job, types: seq<string>, now: int) {
    && (j.status.Queued? || j.status.Retrying?)
    && (j.leaseExpires.None? || j.leaseExpires.value <= now)
    && Wanted(j, types)
  }

  /** Index of the oldest eligible job, `|jobs|` when there is none. */
  function Oldest(jobs: Jobs, types: seq<string>, now: int): (i: nat)
    ensures i <= |jobs|
    ensures i < |jobs| ==> Eligible(jobs[i], types, now)
    ensures forall k :: 0 <= k < i ==> !Eligible(jobs[k], types, now)
  {
    if jobs == [] then 0
    else if Eligible(jobs[0], types, now) then 0
    else
      assert forall k :: 0 < k < |jobs| ==> jobs[k] == jobs[1..][k - 1];
      1 + Oldest(jobs[1..], types, now)
  }

  function Leased(j: Job, worker: string, lease: int, now: int): Job {
    j.(status := Running, leaseOwner := Some(worker), leaseExpires := Some(now + lease), heartbeat := Some(now),
       attempts := j.attempts + 1)
  }

  function Claim(jobs: Jobs, worker: string, types: seq<string>, lease: int, now: int): (Jobs, Option<JobId>) {
    var i := Oldest(jobs, types, now);
    if i == |jobs| then (jobs, None) else (jobs[i := Leased(jobs[i], worker, lease, now)], Some(jobs[i].id))
  }

  predicate Holds(j: Job, worker: string) { j.status.Running? && j.leaseOwner == Some(worker) }

  function Heartbeat(jobs: Jobs, i: nat, worker: string, lease: int, now: int): (Jobs, bool)
    requires i < |jobs|
  {
    if Holds(jobs[i], worker)
    then (jobs[i := jobs[i].(heartbeat := Some(now), leaseExpires := Some(now + lease))], true)
    else (jobs, false)
  }

  /** No key for an encrypted job: hand it back for a later retry. */
  function KeyBlock(jobs: Jobs, i: nat): Jobs
    requires i < |jobs|
  {
    jobs[i := jobs[i].(status := Retrying, leaseOwner := None, leaseExpires := None, error := "encryption_key_missing")]
  }

  function SetStatus(jobs: Jobs, i: nat, status: Status): Jobs
    requires i < |jobs|
  {
    jobs[i := jobs[i].(status := status)]
  }

  function NewJob(id: JobId, jobType: string): Job { Job(id, jobType, Queued, None, None, None, 0, "") }

  datatype Event =
    | Create(id: JobId, jobType: string)
    | ClaimBy(worker: string, types: seq<string>, lease: int, now: int)
    | Beat(index: nat, worker: string, lease: int, now: int)
    | Block(index: nat)
    | Update(index: nat, status: Status)

  predicate Enabled(jobs: Jobs, ev: Event) {
    match ev
    case Create(id, _) => forall i :: 0 <= i < |jobs| ==> jobs[i].id != id
    case ClaimBy(_, _, _, _) => true
    case Beat(i, _, _, _) => i < |jobs|
    case Block(i) => i < |jobs|
    case Update(i, _) => i < |jobs|
  }

  function Step(jobs: Jobs, ev: Event): Jobs
    requires Enabled(jobs, ev)
  {
    match ev
    case Create(id, jobType) => jobs + [NewJob(id, jobType)]
    case ClaimBy(worker, types, lease, now) => Claim(jobs, worker, types, lease, now).0
    case Beat(i, worker, lease, now) => Heartbeat(jobs, i, worker, lease, now).0
    case Block(i) => KeyBlock(jobs, i)
    case Update(i, status) => SetStatus(jobs, i, status)
  }

  predicate Legal(jobs: Jobs, run: seq<Event>)
    decreases |run|
  {
    run == [] || (Enabled(jobs, run[0]) && Legal(Step(jobs, run[0]), run[1..]))
  }

  function Run(jobs: Jobs, run: seq<Event>): Jobs
    requires Legal(jobs, run)
    decreases |run|
  {
    if run == [] then jobs else Run(Step(jobs, run[0]), run[1..])
  }

  /** The event hands job `i` to a worker. */
  predicate Grants(jobs: Jobs, ev: Event, i: nat) {
    ev.ClaimBy? && i < |jobs| && Oldest(jobs, ev.types, ev.now) == i
  }

  /** How many times a run hands out job `i`. */
  function Grantings(jobs: Jobs, run: seq<Event>, i: nat): nat
    requires Legal(jobs, run)
    decreases |run|
  {
    if run == [] then 0
    else (if Grants(jobs, run[0], i) then 1 else 0) + Grantings(Step(jobs, run[0]), run[1..], i)
  }

  /** The status an event writes to job `i` other than by a claim. */
  function Written(ev: Event, i: nat): Option<Status> {
    if ev.Block? && ev.index == i then Some(Retrying)
    else if ev.Update? && ev.index == i then Some(ev.status)
    else None
  }

  /** The event takes job `i` out of the running state: a key-block, or an update to any other status. */
  predicate Releases(ev: Event, i: nat) { Written(ev, i).Some? && Written(ev, i) != Some(Running) }

  predicate ReleasedIn(run: seq<Event>, i: nat) { exists k :: 0 <= k < |run| && Releases(run[k], i) }

  /** The last status a run writes to job `i` other than by a claim. */
  function LastWritten(run: seq<Event>, i: nat): Option<Status> {
    if run == [] then None
    else
      var later := LastWritten(run[1..], i);
      if later.Some? then later else Written(run[0], i)
  }

  // ---- Claims ---------------------------------------------------------------------------------

  /** A claim takes the oldest eligible job and touches no other; without one it changes nothing. */
  lemma ClaimTakesOldest(jobs: Jobs, worker: string, types: seq<string>, lease: int, now: int)
    ensures var (jobs', got) := Claim(jobs, worker, types, lease, now);
            && |jobs'| == |jobs|
            && (got.None? <==> forall i :: 0 <= i < |jobs| ==> !Eligible(jobs[i], types, now))
            && (got.None? ==> jobs' == jobs)
            && (got.Some? ==> exists i ::
                  && 0 <= i < |jobs| && jobs[i].id == got.value && Eligible(jobs[i], types, now)
                  && (forall k :: 0 <= k < i ==> !Eligible(jobs[k], types, now))
                  && Holds(jobs'[i], worker) && jobs'[i].attempts == jobs[i].attempts + 1
                  && jobs'[i].leaseExpires == Some(now + lease) && jobs'[i].heartbeat == Some(now)
                  && (forall k :: 0 <= k < |jobs| && k != i ==> jobs'[k] == jobs[k]))
  {
  }

  lemma StepOnRunningJob(jobs: Jobs, ev: Event, i: nat)
    requires Enabled(jobs, ev) && i < |jobs| && jobs[i].status.Running? && !Releases(ev, i)
    ensures i < |Step(jobs, ev)| && Step(jobs, ev)[i].status.Running?
    ensures Step(jobs, ev)[i].leaseOwner == jobs[i].leaseOwner && !Grants(jobs, ev, i)
  {
  }

  /**
   Exclusive ownership: once a job is running, then until somebody blocks it or updates it to another
   status no claim by anyone hands it out and its owner does not change, under any interleaving of
   claims, heartbeats, key-blocks and status updates, by whomever, and under any clock.
   */
  lemma {:induction false} HeldUntilReleased(jobs: Jobs, run: seq<Event>, i: nat)
    requires Legal(jobs, run) && i < |jobs| && jobs[i].status.Running?
    requires !ReleasedIn(run, i)
    ensures i < |Run(jobs, run)| && Run(jobs, run)[i].status.Running?
    ensures Run(jobs, run)[i].leaseOwner == jobs[i].leaseOwner
    ensures Grantings(jobs, run, i) == 0
    decreases |run|
  {
    if run != [] {
      StepOnRunningJob(jobs, run[0], i);
      forall k | 0 <= k < |run| - 1 ensures run[1..][k] == run[k + 1] {}
      HeldUntilReleased(Step(jobs, run[0]), run[1..], i);
    }
  }

  // ---- Expired leases -------------------------------------------------------------------------

  lemma {:induction false} LegalPrefix(jobs: Jobs, run: seq<Event>, k: nat)
    requires Legal(jobs, run) && k <= |run|
    ensures Legal(jobs, run[..k])
    ensures k < |run| ==> Enabled(Run(jobs, run[..k]), run[k])
    decreases k
  {
    if k > 0 {
      LegalPrefix(Step(jobs, run[0]), run[1..], k - 1);
      assert run[..k][1..] == run[1..][..k - 1] && run[1..][..k - 1] == run[1..k];
    }
  }

  /**
   Time alone never frees a job: whatever the lease says, no claim at any clock hands a running job
   out, and when a run does hand it out, a release of it comes before.
   */
  lemma {:induction false} GrantNeedsRelease(jobs: Jobs, run: seq<Event>, i: nat, k: nat)
    requires Legal(jobs, run) && i < |jobs| && jobs[i].status.Running? && k < |run|
    ensures Legal(jobs, run[..k])
    ensures Grants(Run(jobs, run[..k]), run[k], i) ==> exists m :: 0 <= m < k && Releases(run[m], i)
  {
    LegalPrefix(jobs, run, k);
    if Grants(Run(jobs, run[..k]), run[k], i) {
      if !ReleasedIn(run[..k], i) { HeldUntilReleased(jobs, run[..k], i); }
      var m :| 0 <= m < k && Releases(run[..k][m], i);
      assert Releases(run[m], i);
    }
  }

  lemma {:induction false} StatusIsLastWritten(jobs: Jobs, run: seq<Event>, i: nat)
    requires Legal(jobs, run) && i < |jobs| && Grantings(jobs, run, i) == 0
    ensures i < |Run(jobs, run)|
    ensures Run(jobs, run)[i].status == match LastWritten(run, i) case Some(s) => s case None => jobs[i].status
    decreases |run|
  {
    if run != [] { StatusIsLastWritten(Step(jobs, run[0]), run[1..], i); }
  }

  /**
   When a running job becomes claimable again: some claim, of some types at some clock, would accept
   it if and only if the last block or update of it made it wait. Its lease only decides from when.
   */
  lemma ReclaimableIffPutBack(jobs: Jobs, run: seq<Event>, i: nat)
    requires Legal(jobs, run) && i < |jobs| && jobs[i].status.Running? && Grantings(jobs, run, i) == 0
    ensures i < |Run(jobs, run)|
    ensures (exists types, now :: Eligible(Run(jobs, run)[i], types, now)) <==>
            LastWritten(run, i) in {Some(Queued), Some(Retrying)}
  {
    StatusIsLastWritten(jobs, run, i);
    var j := Run(jobs, run)[i];
    if LastWritten(run, i) in {Some(Queued), Some(Retrying)} {
      assert Eligible(j, [], if j.leaseExpires.Some? then j.leaseExpires.value else 0);
    }
  }

  /** A worker dies holding the only job: long after its lease ran out a second worker still gets nothing. */
  lemma DeadWorkerKeepsJob(id: JobId, jobType: string, dead: string, other: string)
    ensures var run := [Create(id, jobType), ClaimBy(dead, [], 120, 0)];
            && Legal([], run)
            && var jobs := Run([], run);
               |jobs| == 1 && Holds(jobs[0], dead) && jobs[0].leaseExpires == Some(120)
               && Claim(jobs, other, [], 120, 1_000_000) == (jobs, None)
  {
    var run := [Create(id, jobType), ClaimBy(dead, [], 120, 0)];
    var queued := [NewJob(id, jobType)];
    var held := [Leased(queued[0], dead, 120, 0)];
    assert run[1..] == [ClaimBy(dead, [], 120, 0)] && run[1..][1..] == [];
    assert Step([], run[0]) == queued;
    assert Oldest(queued, [], 0) == 0;
    assert Step(queued, run[1]) == held;
    assert Run([], run) == Run(queued, run[1..]) == Run(held, []) == held;
  }

  /** The attempt counter of a job is exactly the number of claims granted for it. */
  lemma {:induction false} AttemptsCountGrants(jobs: Jobs, run: seq<Event>, i: nat)
    requires Legal(jobs, run) && i < |jobs|
    ensures i < |Run(jobs, run)| && Run(jobs, run)[i].attempts == jobs[i].attempts + Grantings(jobs, run, i)
    decreases |run|
  {
    if run != [] { AttemptsCountGrants(Step(jobs, run[0]), run[1..], i); }
  }

  // ---- Leases ---------------------------------------------------------------------------------

  /** When a lease held by `owner` ends after a run in which job `i` stays running: the last own heartbeat decides. */
  function LeaseEnd(run: seq<Event>, i: nat, owner: Option<string>, end: Option<int>): Option<int> {
    if run == [] then end
    else
      var ev := run[|run| - 1];
      if ev.Beat? && ev.index == i && Some(ev.worker) == owner then Some(ev.now + ev.lease)
      else LeaseEnd(run[..|run| - 1], i, owner, end)
  }

  /** A heartbeat succeeds exactly for the owner of a running job, and then extends exactly that lease. */
  lemma HeartbeatIff(jobs: Jobs, i: nat, worker: string, lease: int, now: int)
    requires i < |jobs|
    ensures var (jobs', ok) := Heartbeat(jobs, i, worker, lease, now);
            && (ok <==> jobs[i].status == Running && jobs[i].leaseOwner == Some(worker))
            && |jobs'| == |jobs| && (forall k :: 0 <= k < |jobs| && k != i ==> jobs'[k] == jobs[k])
            && jobs'[i].leaseExpires == (if ok then Some(now + lease) else jobs[i].leaseExpires)
            && jobs'[i].heartbeat == (if ok then Some(now) else jobs[i].heartbeat)
            && jobs'[i].status == jobs[i].status && jobs'[i].leaseOwner == jobs[i].leaseOwner
  {
  }

  lemma {:induction false} RunLast(jobs: Jobs, run: seq<Event>)
    requires Legal(jobs, run) && run != []
    ensures Legal(jobs, run[..|run| - 1])
    ensures Enabled(Run(jobs, run[..|run| - 1]), run[|run| - 1])
    ensures Run(jobs, run) == Step(Run(jobs, run[..|run| - 1]), run[|run| - 1])
    decreases |run|
  {
    var n := |run| - 1;
    if n > 0 {
      var rest := run[1..];
      RunLast(Step(jobs, run[0]), rest);
      assert rest[..n - 1] == run[..n][1..] && rest[n - 1] == run[n];
    }
  }

  /** While a job stays running its lease ends as its claim and its owner's heartbeats say, whatever others send. */
  lemma {:induction false} LeaseFollowsHeartbeats(jobs: Jobs, run: seq<Event>, i: nat)
    requires Legal(jobs, run) && i < |jobs| && jobs[i].status.Running? && !ReleasedIn(run, i)
    ensures i < |Run(jobs, run)|
    ensures Run(jobs, run)[i].leaseExpires == LeaseEnd(run, i, jobs[i].leaseOwner, jobs[i].leaseExpires)
    decreases |run|
  {
    if run != [] {
      var n := |run| - 1;
      var pre, ev := run[..n], run[n];
      RunLast(jobs, run);
      forall k | 0 <= k < n ensures !Releases(pre[k], i) { assert pre[k] == run[k]; }
      LeaseFollowsHeartbeats(jobs, pre, i);
      HeldUntilReleased(jobs, pre, i);
      assert !Releases(ev, i);
      StepOnRunningJob(Run(jobs, pre), ev, i);
    }
  }

  /**
   A job put back by a status update waits for the end of its lease; one blocked on its key is claimable
   at once. Either way only for a worker that asks for its type, or for any.
   */
  lemma PutBackIsClaimableFrom(jobs: Jobs, i: nat, status: Status, types: seq<string>, now: int)
    requires i < |jobs| && (status.Queued? || status.Retrying?)
    ensures Eligible(SetStatus(jobs, i, status)[i], types, now) <==>
            && (types == [] || jobs[i].jobType in types)
            && (jobs[i].leaseExpires.Some? ==> jobs[i].leaseExpires.value <= now)
    ensures Eligible(KeyBlock(jobs, i)[i], types, now) <==> types == [] || jobs[i].jobType in types
  {
  }

  // ---- Draining -------------------------------------------------------------------------------

  /** Ids of the eligible jobs, oldest first. */
  function EligibleIds(jobs: Jobs, types: seq<string>, now: int): seq<JobId> {
    if jobs == [] then []
    else (if Eligible(jobs[0], types, now) then [jobs[0].id] else []) + EligibleIds(jobs[1..], types, now)
  }

  /** Claim `n` times in a row and collect what is handed out. */
  function Drain(jobs: Jobs, worker: string, types: seq<string>, lease: int, now: int, n: nat): seq<JobId>
    decreases n
  {
    if n == 0 then []
    else
      var (jobs', got) := Claim(jobs, worker, types, lease, now);
      (if got.Some? then [got.value] else []) + Drain(jobs', worker, types, lease, now, n - 1)
  }

  lemma {:induction false} ClaimPopsEligible(jobs: Jobs, worker: string, types: seq<string>, lease: int, now: int)
    ensures var (jobs', got) := Claim(jobs, worker, types, lease, now);
            EligibleIds(jobs, types, now) == (if got.Some? then [got.value] else []) + EligibleIds(jobs', types, now)
    decreases |jobs|
  {
    if jobs != [] {
      var (jobs', got) := Claim(jobs, worker, types, lease, now);
      if Eligible(jobs[0], types, now) {
        assert jobs'[1..] == jobs[1..];
      } else {
        var (rest', _) := Claim(jobs[1..], worker, types, lease, now);
        ClaimPopsEligible(jobs[1..], worker, types, lease, now);
        assert jobs'[1..] == rest' && jobs'[0] == jobs[0];
      }
    }
  }

  /** Draining without requeues hands out every eligible job exactly once, in creation order, then nothing. */
  lemma {:induction false} DrainIsCreationOrder(jobs: Jobs, worker: string, types: seq<string>, lease: int,
                                                now: int, n: nat)
    ensures var all := EligibleIds(jobs, types, now);
            Drain(jobs, worker, types, lease, now, n) == if n < |all| then all[..n] else all
    decreases n
  {
    if n > 0 {
      var (jobs', got) := Claim(jobs, worker, types, lease, now);
      ClaimPopsEligible(jobs, worker, types, lease, now);
      DrainIsCreationOrder(jobs', worker, types, lease, now, n - 1);
      if got.None? {
        NoneEligible(jobs, types, now);
        NoneEligible(jobs', types, now);
      }
    }
  }

  lemma {:induction false} NoneEligible(jobs: Jobs, types: seq<string>, now: int)
    requires forall i :: 0 <= i < |jobs| ==> !Eligible(jobs[i], types, now)
    ensures EligibleIds(jobs, types, now) == []
    decreases |jobs|
  {
    if jobs != [] { NoneEligible(jobs[1..], types, now); }
  }

  // ---- The repository as an object ------------------------------------------------------------

  class JobRepository {
    var jobs: Jobs

    constructor ()
      ensures jobs == []
    {
      jobs := [];
    }

    method CreateJob(id: JobId, jobType: string)
      modifies this
      ensures jobs == old(jobs) + [NewJob(id, jobType)]
    {
      jobs := jobs + [Job(id, jobType, Queued, None, None, None, 0, "")];
    }

    method ClaimNext(worker: string, types: seq<string>, lease: int, now: int) returns (got: Option<JobId>)
      modifies this
      ensures (jobs, got) == Claim(old(jobs), worker, types, lease, now)
    {
      var i := 0;
      while i < |jobs|
        invariant i <= |jobs|
        invariant forall k :: 0 <= k < i ==> !Eligible(jobs[k], types, now)
      {
        var j := jobs[i];
        if (j.status.Queued? || j.status.Retrying?) && (j.leaseExpires.None? || j.leaseExpires.value <= now) {
          if types == [] || j.jobType in types { break; }
        }
        i := i + 1;
      }
      if i == |jobs| { return None; }
      var job := jobs[i];
      job := job.(leaseOwner := Some(worker), leaseExpires := Some(now + lease), heartbeat := Some(now));
      job := job.(attempts := job.attempts + 1);
      job := job.(status := Running);
      jobs := jobs[i := job];
      return Some(job.id);
    }

    method BeatJob(i: nat, worker: string, lease: int, now: int) returns (ok: bool)
      requires i < |jobs|
      modifies this
      ensures (jobs, ok) == Heartbeat(old(jobs), i, worker, lease, now)
    {
      if jobs[i].leaseOwner != Some(worker) || jobs[i].status != Running { return false; }
      jobs := jobs[i := jobs[i].(heartbeat := Some(now), leaseExpires := Some(now + lease))];
      return true;
    }

    method MarkRetryableKeyBlock(i: nat)
      requires i < |jobs|
      modifies this
      ensures jobs == KeyBlock(old(jobs), i)
    {
      jobs := jobs[i := jobs[i].(status := Retrying)];
      jobs := jobs[i := jobs[i].(error := "encryption_key_missing")];
      jobs := jobs[i := jobs[i].(leaseOwner := None, leaseExpires := None)];
    }

    method UpdateStatus(i: nat, status: Status)
      requires i < |jobs|
      modifies this
      ensures jobs == SetStatus(old(jobs), i, status)
    {
      jobs := jobs[i := jobs[i].(status := status)];
    }
  }
}
