/** The jobs table and its statements (internal/jobs/queue.go): enqueue, claim, complete, fail with
    backoff, reap. Times are nanoseconds. */
module JobQueue {
  import opened Wrappers
  import Backoff

  datatype Status = Pending | Running | Completed | Dead

  datatype Job = Job(
    jobType: string,
    status: Status,
    attempts: nat,
    maxAttempts: int,
    lastError: Option<string>,
    runAt: int,
    startedAt: Option<int>,
    completedAt: Option<int>)

  /** What a worker holds after claiming: the id, and the counts as of its own claim. */
  datatype Claimed = Claimed(id: nat, attempts: nat, maxAttempts: int)

  type Jobs = map<nat, Job>

  const STALE_TIMEOUT := 600 * Backoff.SECOND

  predicate Final(s: Status) {
    s == Completed || s == Dead
  }

  function NewJob(jobType: string, maxAttempts: int, runAt: int): Job {
    Job(jobType, Pending, 0, if maxAttempts <= 0 then 3 else maxAttempts, None, runAt, None, None)
  }

  predicate Claimable(jobs: Jobs, id: nat, now: int) {
    id in jobs && jobs[id].status == Pending && jobs[id].runAt <= now
  }

  /** A claimable row that no other transaction has locked: FOR UPDATE SKIP LOCKED. */
  predicate Free(jobs: Jobs, id: nat, now: int, locked: set<nat>) {
    Claimable(jobs, id, now) && id !in locked
  }

  function AfterClaim(job: Job, now: int): Job {
    job.(status := Running, startedAt := Some(now), attempts := job.attempts + 1)
  }

  /** UPDATE ... WHERE id: no status check, and nothing to update if the row is gone. */
  function AfterComplete(jobs: Jobs, claim: Claimed, now: int): Jobs {
    if claim.id in jobs then jobs[claim.id := jobs[claim.id].(status := Completed, completedAt := Some(now))]
    else jobs
  }

  function AfterFail(jobs: Jobs, claim: Claimed, error: string, now: int, retryAt: int): Jobs {
    if claim.id !in jobs then jobs
    else if claim.attempts >= claim.maxAttempts then
      jobs[claim.id := jobs[claim.id].(status := Dead, lastError := Some(error), completedAt := Some(now))]
    else
      jobs[claim.id := jobs[claim.id].(status := Pending, lastError := Some(error), runAt := retryAt)]
  }

  predicate Stale(job: Job, now: int) {
    job.status == Running && job.startedAt.Some? && job.startedAt.value < now - STALE_TIMEOUT
  }

  function AfterReap(jobs: Jobs, now: int): Jobs {
    map id | id in jobs ::
      if Stale(jobs[id], now) then jobs[id].(status := Pending, lastError := Some("stale: exceeded timeout"))
      else jobs[id]
  }

  /** What the reaper may do to one row. */
  ghost predicate Reaped(before: Job, after: Job, now: int) {
    if before.status == Running && before.startedAt.Some? && now - before.startedAt.value > STALE_TIMEOUT then
      && after.status == Pending && after.lastError == Some("stale: exceeded timeout")
      && after.(status := before.status, lastError := before.lastError) == before
    else after == before
  }

  /** Those row changes are the table that the workers' runs step to. */
  lemma {:induction false} ReapedIsAfterReap(before: Jobs, after: Jobs, now: int)
    ensures after == AfterReap(before, now) <==>
            after.Keys == before.Keys && forall id :: id in before ==> Reaped(before[id], after[id], now)
  {
    var reaped := AfterReap(before, now);
    if after.Keys == before.Keys && forall id :: id in before ==> Reaped(before[id], after[id], now) {
      assert forall id :: id in before ==> after[id] == reaped[id];
    }
  }

  /** What a claim does to its row. */
  ghost predicate ClaimedRow(before: Job, after: Job, now: int) {
    && after.status == Running && after.attempts == before.attempts + 1 && after.startedAt == Some(now)
    && after.jobType == before.jobType && after.maxAttempts == before.maxAttempts && after.runAt == before.runAt
    && after.lastError == before.lastError && after.completedAt == before.completedAt
  }

  ghost predicate CompletedRow(before: Job, after: Job, now: int) {
    && after.status == Completed && after.completedAt == Some(now)
    && after.jobType == before.jobType && after.attempts == before.attempts && after.maxAttempts == before.maxAttempts
    && after.runAt == before.runAt && after.lastError == before.lastError && after.startedAt == before.startedAt
  }

  /** What a failure does to its row: the error is kept; the last allowed attempt ends the job now, an earlier
      one makes it pending again, to be retried at the given time. */
  ghost predicate FailedRow(before: Job, after: Job, last: bool, error: string, now: int, retryAt: int) {
    && after.lastError == Some(error)
    && after.jobType == before.jobType && after.attempts == before.attempts && after.maxAttempts == before.maxAttempts
    && after.startedAt == before.startedAt
    && (last ==> after.status == Dead && after.completedAt == Some(now) && after.runAt == before.runAt)
    && (!last ==> after.status == Pending && after.completedAt == before.completedAt && after.runAt == retryAt)
  }

  ghost predicate OthersStay(before: Jobs, after: Jobs, id: nat) {
    after.Keys == before.Keys && forall other :: other in before && other != id ==> after[other] == before[other]
  }

  /** The three single-row statements, row by row; on a row that is gone they do nothing. */
  lemma {:induction false} StatementsByRow(jobs: Jobs, job: Job, claim: Claimed, error: string, now: int, retryAt: int)
    ensures ClaimedRow(job, AfterClaim(job, now), now)
    ensures OthersStay(jobs, AfterComplete(jobs, claim, now), claim.id)
    ensures claim.id in jobs ==> CompletedRow(jobs[claim.id], AfterComplete(jobs, claim, now)[claim.id], now)
    ensures OthersStay(jobs, AfterFail(jobs, claim, error, now, retryAt), claim.id)
    ensures claim.id in jobs ==>
      FailedRow(jobs[claim.id], AfterFail(jobs, claim, error, now, retryAt)[claim.id],
        claim.attempts >= claim.maxAttempts, error, now, retryAt)
  {
  }

  datatype HandlerResult = Unregistered | Succeeds | Fails(error: string)

  /** One job went through one attempt and no other row changed. */
  ghost predicate Processed(before: Jobs, after: Jobs, id: nat, result: HandlerResult)
    requires id in before
  {
    && after.Keys == before.Keys
    && (forall other :: other in before && other != id ==> after[other] == before[other])
    && after[id].attempts == before[id].attempts + 1
    && after[id].status == (if result.Succeeds? then Completed
                            else if after[id].attempts >= after[id].maxAttempts then Dead else Pending)
  }

  class Queue {
    var jobs: Jobs
    var nextId: nat

    ghost predicate Valid()
      reads this
    {
      forall id :: id in jobs ==> id < nextId
    }

    constructor ()
      ensures Valid() && jobs == map[]
    {
      jobs, nextId := map[], 0;
    }

    method Enqueue(jobType: string, maxAttempts: int, runAt: Option<int>, now: int) returns (id: Option<nat>)
      requires Valid()
      modifies this
      ensures Valid()
      ensures jobType == "" ==> id == None && jobs == old(jobs)
      ensures jobType != "" ==>
        && id.Some? && id.value !in old(jobs)
        && jobs == old(jobs)[id.value := NewJob(jobType, maxAttempts, if runAt.Some? then runAt.value else now)]
    {
      if jobType == "" {
        return None;
      }
      id := Some(nextId);
      jobs := jobs[nextId := NewJob(jobType, maxAttempts, if runAt.Some? then runAt.value else now)];
      nextId := nextId + 1;
    }

    /** Claims the ready job with the earliest run_at among those that are not locked; None exactly when
        there is none. */
    method Claim(now: int, locked: set<nat>) returns (claim: Option<Claimed>)
      requires Valid()
      modifies this
      ensures Valid()
      ensures claim.None? ==> jobs == old(jobs) && forall id :: !Free(old(jobs), id, now, locked)
      ensures claim.Some? ==>
        var c := claim.value;
        && Free(old(jobs), c.id, now, locked)
        && (forall id :: Free(old(jobs), id, now, locked) ==> old(jobs)[c.id].runAt <= old(jobs)[id].runAt)
        && jobs == old(jobs)[c.id := AfterClaim(old(jobs)[c.id], now)]
        && c == Claimed(c.id, old(jobs)[c.id].attempts + 1, old(jobs)[c.id].maxAttempts)
    {
      var ready := set id | id in jobs && Free(jobs, id, now, locked);
      if ready == {} {
        assert forall id :: Free(jobs, id, now, locked) ==> id in ready;
        return None;
      }
      ghost var earliest := Earliest(jobs, ready);
      assert earliest in ready;
      var id :| id in ready && forall other :: other in ready ==> jobs[id].runAt <= jobs[other].runAt;
      assert forall other :: Free(jobs, other, now, locked) ==> other in ready;
      claim := Some(Claimed(id, jobs[id].attempts + 1, jobs[id].maxAttempts));
      jobs := jobs[id := AfterClaim(jobs[id], now)];
    }

    method CompleteJob(claim: Claimed, now: int)
      requires Valid()
      modifies this`jobs
      ensures Valid() && jobs == AfterComplete(old(jobs), claim, now)
    {
      if claim.id in jobs {
        jobs := jobs[claim.id := jobs[claim.id].(status := Completed, completedAt := Some(now))];
      }
    }

    method FailJob(claim: Claimed, error: string, now: int, platform: int)
      requires Valid()
      modifies this`jobs
      ensures Valid() && jobs == AfterFail(old(jobs), claim, error, now,
        now + Backoff.Delay(claim.attempts, platform))
    {
      if claim.attempts >= claim.maxAttempts {
        if claim.id in jobs {
          jobs := jobs[claim.id :=
            jobs[claim.id].(status := Dead, lastError := Some(error), completedAt := Some(now))];
        }
        return;
      }
      var delay := Backoff.Delay(claim.attempts, platform);
      if claim.id in jobs {
        jobs := jobs[claim.id :=
          jobs[claim.id].(status := Pending, lastError := Some(error), runAt := now + delay)];
      }
    }

    /** Jobs running since before the timeout go back to pending with their counts, schedule and start
        time kept; every other row, and the set of rows, stays. */
    method Reap(now: int)
      requires Valid()
      modifies this`jobs
      ensures Valid() && jobs.Keys == old(jobs).Keys
      ensures forall id :: id in old(jobs) ==> Reaped(old(jobs)[id], jobs[id], now)
    {
      jobs := AfterReap(jobs, now);
    }

    /** Claim, run the handler, then complete or fail, with no other worker in between. */
    method ProcessOne(now: int, locked: set<nat>, result: HandlerResult, done: int, platform: int) returns (processed: bool)
      requires Valid()
      modifies this
      ensures Valid()
      ensures !processed ==> jobs == old(jobs)
      ensures !processed ==> forall id :: !Free(old(jobs), id, now, locked)
      ensures processed ==> exists id :: Free(old(jobs), id, now, locked) && Processed(old(jobs), jobs, id, result)
    {
      var claim := Claim(now, locked);
      if claim.None? {
        return false;
      }
      match result {
        case Unregistered => FailJob(claim.value, "no handler registered", done, platform);
        case Fails(error) => FailJob(claim.value, error, done, platform);
        case Succeeds => CompleteJob(claim.value, done);
      }
      assert Processed(old(jobs), jobs, claim.value.id, result);
      return true;
    }
  }

  /** Some ready job has the earliest run_at. */
  lemma {:induction false} Earliest(jobs: Jobs, ready: set<nat>) returns (best: nat)
    requires ready != {} && ready <= jobs.Keys
    ensures best in ready && forall other :: other in ready ==> jobs[best].runAt <= jobs[other].runAt
    decreases |ready|
  {
    best :| best in ready;
    var rest := ready - {best};
    assert forall other :: other in ready ==> other == best || other in rest;
    if rest != {} {
      var y := Earliest(jobs, rest);
      if jobs[y].runAt < jobs[best].runAt {
        best := y;
      }
    } else {
      assert ready == {best};
    }
  }
}
