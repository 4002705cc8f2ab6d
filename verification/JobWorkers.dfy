/** Every interleaving of enqueues, claims, late finishes, lost workers and reaps. */
module JobWorkers {
  import opened Wrappers
  import opened JobQueue

  /** The table, what each worker holds, and three counters per job that only the proof reads. */
  datatype World = World(
    jobs: Jobs,
    workers: map<nat, Claimed>,
    claims: map<nat, nat>,
    retries: map<nat, nat>,
    reaps: map<nat, nat>)

  const START := World(map[], map[], map[], map[], map[])

  datatype Move =
    | Enqueue(id: nat, jobType: string, maxAttempts: int, runAt: int)
    | Claim(worker: nat, job: nat, now: int)
    | Complete(worker: nat, now: int)
    | Fail(worker: nat, error: string, now: int, retryAt: int)
    | Lose(worker: nat)
    | Reap(now: int)

  function Count(m: map<nat, nat>, id: nat): nat {
    if id in m then m[id] else 0
  }

  function Bump(m: map<nat, nat>, id: nat): map<nat, nat> {
    m[id := Count(m, id) + 1]
  }

  /** One statement of one participant; a move that is not possible changes nothing. Any ready job can
      be claimed, which covers rows that SKIP LOCKED passes over. */
  function Step(w: World, m: Move): World {
    match m
    case Enqueue(id, jobType, maxAttempts, runAt) =>
      if id in w.jobs || jobType == "" then w
      else w.(jobs := w.jobs[id := NewJob(jobType, maxAttempts, runAt)])
    case Claim(worker, id, now) =>
      if worker in w.workers || !Claimable(w.jobs, id, now) then w
      else
        var job := AfterClaim(w.jobs[id], now);
        w.(jobs := w.jobs[id := job],
           workers := w.workers[worker := Claimed(id, job.attempts, job.maxAttempts)],
           claims := Bump(w.claims, id))
    case Complete(worker, now) =>
      if worker !in w.workers then w
      else w.(jobs := AfterComplete(w.jobs, w.workers[worker], now), workers := w.workers - {worker})
    case Fail(worker, error, now, retryAt) =>
      if worker !in w.workers then w
      else
        var c := w.workers[worker];
        w.(jobs := AfterFail(w.jobs, c, error, now, retryAt),
           workers := w.workers - {worker},
           retries := if c.attempts < c.maxAttempts then Bump(w.retries, c.id) else w.retries)
    case Lose(worker) => w.(workers := w.workers - {worker})
    case Reap(now) =>
      w.(jobs := AfterReap(w.jobs, now),
         reaps := map id | id in w.jobs :: Count(w.reaps, id) + (if Stale(w.jobs[id], now) then 1 else 0))
  }

  function Run(w: World, moves: seq<Move>): World {
    if |moves| == 0 then w else Step(Run(w, moves[..|moves| - 1]), moves[|moves| - 1])
  }

  // ---- The counting invariant ----

  predicate Holds(w: World, worker: nat, id: nat) {
    worker in w.workers && w.workers[worker].id == id
  }

  /** The workers whose failure would still send the job back to pending. */
  function Retriers(w: World, id: nat): set<nat> {
    set x | x in w.workers && w.workers[x].id == id && w.workers[x].attempts < w.workers[x].maxAttempts
  }

  /** A worker's copy of the counts is from a claim that really happened. */
  ghost predicate HoldersOk(w: World, id: nat)
    requires id in w.jobs
  {
    forall x :: Holds(w, x, id) ==>
      w.workers[x].maxAttempts == w.jobs[id].maxAttempts && 1 <= w.workers[x].attempts <= w.jobs[id].attempts
  }

  /** Each claim uses up one visit to pending, and visits come from the enqueue, from reaps, and from
      failures of the first max - 1 claims. */
  ghost predicate Counted(w: World, id: nat)
    requires id in w.jobs
  {
    var job := w.jobs[id];
    && job.maxAttempts >= 1
    && job.attempts == Count(w.claims, id)
    && job.attempts + (if job.status == Pending then 1 else 0) <= 1 + Count(w.retries, id) + Count(w.reaps, id)
    && Count(w.retries, id) + |Retriers(w, id)| <= job.attempts
    && Count(w.retries, id) + |Retriers(w, id)| <= job.maxAttempts - 1
  }

  /** As long as a job was never reaped, its only holder is the worker of its latest claim. */
  ghost predicate SoleHolder(w: World, id: nat)
    requires id in w.jobs
  {
    Count(w.reaps, id) == 0 ==>
      forall x :: Holds(w, x, id) ==>
        && w.jobs[id].status == Running
        && w.workers[x].attempts == w.jobs[id].attempts
        && forall y :: Holds(w, y, id) ==> y == x
  }

  ghost predicate Untouched(w: World, id: nat) {
    && Count(w.claims, id) == Count(w.retries, id) == Count(w.reaps, id) == 0
    && forall x :: !Holds(w, x, id)
  }

  ghost predicate JobInv(w: World, id: nat) {
    if id in w.jobs then HoldersOk(w, id) && Counted(w, id) && SoleHolder(w, id) else Untouched(w, id)
  }

  /** A move that is not about this job: same row, same holders, same counters. */
  ghost predicate SameFor(w: World, w': World, id: nat) {
    && (id in w.jobs <==> id in w'.jobs)
    && (id in w.jobs ==> w'.jobs[id] == w.jobs[id])
    && (forall x :: Holds(w', x, id) <==> Holds(w, x, id))
    && (forall x :: Holds(w, x, id) ==> w'.workers[x] == w.workers[x])
    && Count(w'.claims, id) == Count(w.claims, id)
    && Count(w'.retries, id) == Count(w.retries, id)
    && Count(w'.reaps, id) == Count(w.reaps, id)
  }

  lemma {:induction false} SameKeepsInv(w: World, w': World, id: nat)
    requires JobInv(w, id) && SameFor(w, w', id)
    ensures JobInv(w', id)
  {
    forall x ensures x in Retriers(w', id) <==> x in Retriers(w, id) {
      assert Holds(w', x, id) <==> Holds(w, x, id);
    }
    assert Retriers(w', id) == Retriers(w, id);
  }

  lemma {:induction false} EnqueueKeepsInv(w: World, m: Move, id: nat)
    requires JobInv(w, id) && m.Enqueue?
    ensures JobInv(Step(w, m), id)
  {
    var w' := Step(w, m);
    if id in w.jobs || id !in w'.jobs {
      SameKeepsInv(w, w', id);
    } else {
      assert forall x :: Holds(w', x, id) ==> Holds(w, x, id);
      forall x ensures x !in Retriers(w', id) {
        assert !Holds(w, x, id);
      }
      assert Retriers(w', id) == {};
    }
  }

  lemma {:induction false} ClaimKeepsInv(w: World, m: Move, id: nat)
    requires JobInv(w, id) && m.Claim?
    ensures JobInv(Step(w, m), id)
  {
    var w' := Step(w, m);
    if w' == w || id != m.job {
      SameKeepsInv(w, w', id);
    } else {
      ClaimCounts(w, m);
      assert forall x :: Holds(w', x, id) ==> x == m.worker || Holds(w, x, id);
      assert forall x :: Holds(w, x, id) ==> w'.workers[x] == w.workers[x];
    }
  }

  /** A successful claim adds its worker to the retriers if its attempt is not the last one allowed. */
  lemma {:induction false} ClaimCounts(w: World, m: Move)
    requires m.Claim? && m.worker !in w.workers && Claimable(w.jobs, m.job, m.now)
    ensures var w', id := Step(w, m), m.job;
            && |Retriers(w', id)| ==
                 |Retriers(w, id)| + (if w.jobs[id].attempts + 1 < w.jobs[id].maxAttempts then 1 else 0)
            && Count(w'.claims, id) == Count(w.claims, id) + 1
  {
    var w' := Step(w, m);
    var c := w'.workers[m.worker];
    assert Retriers(w', m.job) == Retriers(w, m.job) + (if c.attempts < c.maxAttempts then {m.worker} else {});
  }

  /** Releasing a worker that holds the job takes it out of the job's holders and retriers. */
  lemma {:induction false} ReleasedHolder(w: World, w': World, worker: nat, id: nat)
    requires worker in w.workers && w'.workers == w.workers - {worker} && Holds(w, worker, id)
    ensures forall x :: Holds(w', x, id) <==> Holds(w, x, id) && x != worker
    ensures |Retriers(w', id)| == |Retriers(w, id)| -
              (if w.workers[worker].attempts < w.workers[worker].maxAttempts then 1 else 0)
  {
    assert Retriers(w', id) == Retriers(w, id) - {worker};
  }

  /** A worker lets go of the job: if it goes back to pending that way, the worker was a retrier. */
  lemma {:induction false} ReleasedKeepsInv(w: World, w': World, worker: nat, id: nat, retried: bool)
    requires JobInv(w, id) && id in w.jobs && id in w'.jobs && Holds(w, worker, id)
    requires w'.workers == w.workers - {worker} && w'.claims == w.claims && w'.reaps == w.reaps
    requires w'.jobs[id].attempts == w.jobs[id].attempts && w'.jobs[id].maxAttempts == w.jobs[id].maxAttempts
    requires Count(w'.retries, id) == Count(w.retries, id) + (if retried then 1 else 0)
    requires retried ==> w.workers[worker].attempts < w.workers[worker].maxAttempts
    requires w'.jobs[id].status == Pending ==> retried || w.jobs[id].status == Pending
    ensures JobInv(w', id)
  {
    ReleasedHolder(w, w', worker, id);
    assert forall x :: Holds(w', x, id) ==> w'.workers[x] == w.workers[x];
  }

  lemma {:induction false} ReleaseKeepsInv(w: World, m: Move, id: nat)
    requires JobInv(w, id) && (m.Complete? || m.Lose?)
    ensures JobInv(Step(w, m), id)
  {
    var w' := Step(w, m);
    if Holds(w, m.worker, id) {
      ReleasedKeepsInv(w, w', m.worker, id, false);
    } else {
      SameKeepsInv(w, w', id);
    }
  }

  lemma {:induction false} FailKeepsInv(w: World, m: Move, id: nat)
    requires JobInv(w, id) && m.Fail?
    ensures JobInv(Step(w, m), id)
  {
    var w' := Step(w, m);
    if Holds(w, m.worker, id) {
      var c := w.workers[m.worker];
      ReleasedKeepsInv(w, w', m.worker, id, c.attempts < c.maxAttempts);
    } else {
      SameKeepsInv(w, w', id);
    }
  }

  lemma {:induction false} ReapKeepsInv(w: World, m: Move, id: nat)
    requires JobInv(w, id) && m.Reap?
    ensures JobInv(Step(w, m), id)
  {
    var w' := Step(w, m);
    if id in w.jobs && Stale(w.jobs[id], m.now) {
      assert Retriers(w', id) == Retriers(w, id);
    } else {
      SameKeepsInv(w, w', id);
    }
  }

  lemma {:induction false} StepKeepsInv(w: World, m: Move, id: nat)
    requires JobInv(w, id)
    ensures JobInv(Step(w, m), id)
  {
    match m
    case Enqueue(_, _, _, _) => EnqueueKeepsInv(w, m, id);
    case Claim(_, _, _) => ClaimKeepsInv(w, m, id);
    case Complete(_, _) => ReleaseKeepsInv(w, m, id);
    case Fail(_, _, _, _) => FailKeepsInv(w, m, id);
    case Lose(_) => ReleaseKeepsInv(w, m, id);
    case Reap(_) => ReapKeepsInv(w, m, id);
  }

  lemma {:induction false} EveryRunKeepsInv(moves: seq<Move>, id: nat)
    ensures JobInv(Run(START, moves), id)
  {
    if |moves| > 0 {
      EveryRunKeepsInv(moves[..|moves| - 1], id);
      StepKeepsInv(Run(START, moves[..|moves| - 1]), moves[|moves| - 1], id);
    }
  }

  /** In every interleaving a job's attempts is the number of times it was claimed, and that never
      exceeds its maximum plus the number of times it was reaped. */
  lemma {:induction false} AttemptsBounded(moves: seq<Move>, id: nat)
    requires id in Run(START, moves).jobs
    ensures var w := Run(START, moves);
            w.jobs[id].attempts == Count(w.claims, id) <= w.jobs[id].maxAttempts + Count(w.reaps, id)
  {
    EveryRunKeepsInv(moves, id);
  }

  /** A job never reaped is held by at most one worker, and only while it is running. */
  lemma {:induction false} AtMostOneHolder(moves: seq<Move>, id: nat, x: nat, y: nat)
    requires var w := Run(START, moves);
             Count(w.reaps, id) == 0 && Holds(w, x, id) && Holds(w, y, id)
    ensures x == y && id in Run(START, moves).jobs && Run(START, moves).jobs[id].status == Running
  {
    EveryRunKeepsInv(moves, id);
  }

  // ---- Final states ----

  /** Finished, and no worker left that could write to the row. */
  ghost predicate Settled(w: World, id: nat) {
    id in w.jobs && Final(w.jobs[id].status) && forall x :: !Holds(w, x, id)
  }

  lemma {:induction false} SettledStays(w: World, m: Move, id: nat)
    requires Settled(w, id)
    ensures Settled(Step(w, m), id) && Step(w, m).jobs[id] == w.jobs[id]
  {
    var w' := Step(w, m);
    assert m.Fail? || m.Complete? ==> !Holds(w, m.worker, id);
    assert forall x :: Holds(w', x, id) ==> Holds(w, x, id) || (m.Claim? && m.job == id);
  }

  /** Completed and dead are final for a job that was never reaped: its row never changes again,
      whatever happens later. */
  lemma {:induction false} FinalForever(moves: seq<Move>, n: nat, id: nat)
    requires n <= |moves|
    requires var w := Run(START, moves[..n]);
             id in w.jobs && Final(w.jobs[id].status) && Count(w.reaps, id) == 0
    ensures Settled(Run(START, moves), id) && Run(START, moves).jobs[id] == Run(START, moves[..n]).jobs[id]
    decreases |moves|
  {
    if n == |moves| {
      assert moves[..n] == moves;
      EveryRunKeepsInv(moves, id);
    } else {
      var k := |moves| - 1;
      assert moves[..k][..n] == moves[..n];
      FinalForever(moves[..k], n, id);
      SettledStays(Run(START, moves[..k]), moves[k], id);
    }
  }

  /** In any state, a finished job can still change its status exactly when some worker holds it from
      a claim that was reaped under it. */
  lemma {:induction false} FinalCanChangeIff(w: World, id: nat)
    requires JobInv(w, id) && id in w.jobs && Final(w.jobs[id].status)
    ensures (exists m :: Step(w, m).jobs[id].status != w.jobs[id].status) <==> exists x :: Holds(w, x, id)
  {
    if x :| Holds(w, x, id) {
      var m := if w.jobs[id].status == Completed then Fail(x, "late", 0, 0) else Complete(x, 0);
      assert Step(w, m).jobs[id].status != w.jobs[id].status;
    } else {
      forall m ensures Step(w, m).jobs[id].status == w.jobs[id].status {
        SettledStays(w, m, id);
      }
    }
  }

  // ---- Progress ----

  /** An upper bound on the status changes a job has left while it is not reaped. */
  function Energy(job: Job): int {
    if Final(job.status) then 0
    else 2 * (job.maxAttempts - job.attempts) + (if job.status == Running then 1 else 0)
  }

  lemma {:induction false} ReleaseCostsEnergy(w: World, m: Move, id: nat)
    requires JobInv(w, id) && id in w.jobs && Count(w.reaps, id) == 0 && (m.Fail? || m.Complete?)
    ensures var w' := Step(w, m);
            w'.jobs[id] == w.jobs[id] || Energy(w'.jobs[id]) < Energy(w.jobs[id])
  {
    if Holds(w, m.worker, id) {
      assert w.jobs[id].status == Running;
    }
  }

  lemma {:induction false} EnergyNotNegative(w: World, id: nat)
    requires JobInv(w, id) && id in w.jobs && Count(w.reaps, id) == 0
    ensures Energy(w.jobs[id]) >= 0
  {
  }

  lemma {:induction false} ChangeCostsEnergy(w: World, m: Move, id: nat)
    requires JobInv(w, id) && id in w.jobs && Count(Step(w, m).reaps, id) == 0
    ensures var w' := Step(w, m);
            && Count(w.reaps, id) == 0 && 0 <= Energy(w'.jobs[id]) <= Energy(w.jobs[id])
            && (w'.jobs[id].status != w.jobs[id].status ==> Energy(w'.jobs[id]) < Energy(w.jobs[id]))
  {
    StepKeepsInv(w, m, id);
    MaxAttemptsFixed(w, m, id);
    EnergyNotNegative(Step(w, m), id);
    if m.Fail? || m.Complete? {
      ReleaseCostsEnergy(w, m, id);
    }
  }

  /** How often the job's status changes during the run, not counting its creation. */
  function Changes(moves: seq<Move>, id: nat): nat {
    if |moves| == 0 then 0
    else
      var n := |moves| - 1;
      var w := Run(START, moves[..n]);
      var w' := Run(START, moves);
      Changes(moves[..n], id)
        + (if id in w.jobs && id in w'.jobs && w'.jobs[id].status != w.jobs[id].status then 1 else 0)
  }

  lemma {:induction false} ChangesSnoc(moves: seq<Move>, id: nat)
    requires |moves| > 0
    ensures var n := |moves| - 1;
            var w := Run(START, moves[..n]);
            var w' := Step(w, moves[n]);
            && Run(START, moves) == w'
            && Changes(moves, id) == Changes(moves[..n], id)
                 + (if id in w.jobs && id in w'.jobs && w'.jobs[id].status != w.jobs[id].status then 1 else 0)
  {
  }

  lemma {:induction false} CreatedWithFullEnergy(w: World, m: Move, id: nat)
    requires id !in w.jobs && id in Step(w, m).jobs
    ensures Energy(Step(w, m).jobs[id]) == 2 * Step(w, m).jobs[id].maxAttempts
  {
  }

  lemma {:induction false} MaxAttemptsFixed(w: World, m: Move, id: nat)
    requires id in w.jobs
    ensures id in Step(w, m).jobs && Step(w, m).jobs[id].maxAttempts == w.jobs[id].maxAttempts
    ensures Count(Step(w, m).reaps, id) >= Count(w.reaps, id)
  {
  }

  ghost predicate WithinBudget(moves: seq<Move>, id: nat) {
    var w := Run(START, moves);
    if id in w.jobs then Changes(moves, id) + Energy(w.jobs[id]) <= 2 * w.jobs[id].maxAttempts
    else Changes(moves, id) == 0
  }

  lemma {:induction false} BudgetKept(moves: seq<Move>, id: nat)
    requires Count(Run(START, moves).reaps, id) == 0
    ensures WithinBudget(moves, id)
  {
    if |moves| > 0 {
      var n := |moves| - 1;
      var w := Run(START, moves[..n]);
      EveryRunKeepsInv(moves[..n], id);
      ChangesSnoc(moves, id);
      if id in w.jobs {
        MaxAttemptsFixed(w, moves[n], id);
        ChangeCostsEnergy(w, moves[n], id);
      } else if id in Step(w, moves[n]).jobs {
        CreatedWithFullEnergy(w, moves[n], id);
      }
      BudgetKept(moves[..n], id);
    }
  }

  /** A job that is never reaped changes status at most twice per allowed attempt. */
  lemma {:induction false} ChangesBounded(moves: seq<Move>, id: nat)
    requires var w := Run(START, moves); id in w.jobs && Count(w.reaps, id) == 0
    ensures Changes(moves, id) <= 2 * Run(START, moves).jobs[id].maxAttempts
  {
    BudgetKept(moves, id);
    EveryRunKeepsInv(moves, id);
  }

  // ---- Nobody starts early ----

  /** The worker fails an attempt of the job that is not the last one allowed. */
  predicate Retries(w: World, m: Move, id: nat) {
    m.Fail? && Holds(w, m.worker, id) && w.workers[m.worker].attempts < w.workers[m.worker].maxAttempts
  }

  predicate Creates(w: World, m: Move, id: nat) {
    m.Enqueue? && m.id == id && m.jobType != "" && id !in w.jobs
  }

  /** When the job is due: the time given when it was enqueued, or by the last failure that is retried. */
  function Due(moves: seq<Move>, id: nat): int {
    if |moves| == 0 then 0
    else
      var n := |moves| - 1;
      var w, m := Run(START, moves[..n]), moves[n];
      if Creates(w, m, id) then m.runAt
      else if Retries(w, m, id) then m.retryAt
      else Due(moves[..n], id)
  }

  lemma {:induction false} StepKeepsSchedule(w: World, m: Move, w': World, id: nat)
    requires w' == Step(w, m)
    ensures id in w'.jobs <==> id in w.jobs || Creates(w, m, id)
    ensures Creates(w, m, id) ==> w'.jobs[id].runAt == m.runAt
    ensures id in w.jobs && Retries(w, m, id) ==> w'.jobs[id].runAt == m.retryAt
    ensures id in w.jobs && !Retries(w, m, id) ==> w'.jobs[id].runAt == w.jobs[id].runAt
  {
  }

  lemma {:induction false} ScheduledAsDue(moves: seq<Move>, id: nat)
    ensures id in Run(START, moves).jobs ==> Run(START, moves).jobs[id].runAt == Due(moves, id)
  {
    if |moves| > 0 {
      var n := |moves| - 1;
      ScheduledAsDue(moves[..n], id);
      StepKeepsSchedule(Run(START, moves[..n]), moves[n], Run(START, moves), id);
    }
  }

  lemma {:induction false} ClaimTakes(w: World, worker: nat, id: nat, now: int)
    ensures Holds(Step(w, Claim(worker, id, now)), worker, id) <==>
            Holds(w, worker, id) || (worker !in w.workers && Claimable(w.jobs, id, now))
  {
  }

  /** In every interleaving an idle worker gets a job exactly if the job is pending and due: not before the time
      it was enqueued for, nor before the time its last failure set for the retry, whatever reaps, late finishes
      and other workers did in between. */
  lemma {:induction false} ClaimedExactlyWhenDue(moves: seq<Move>, worker: nat, id: nat, now: int)
    requires worker !in Run(START, moves).workers
    ensures var w := Run(START, moves);
            Holds(Run(START, moves + [Claim(worker, id, now)]), worker, id) <==>
            id in w.jobs && w.jobs[id].status == Status.Pending && Due(moves, id) <= now
  {
    var w := Run(START, moves);
    Push(moves, Claim(worker, id, now));
    ClaimTakes(w, worker, id, now);
    ScheduledAsDue(moves, id);
  }

  // ---- What reaping breaks ----

  lemma {:induction false} Push(moves: seq<Move>, m: Move)
    ensures Run(START, moves + [m]) == Step(Run(START, moves), m)
  {
  }

  /** A slow worker claims a job and is reaped. */
  const REAPED: seq<Move> := [Enqueue(0, "email", 2, 0)] + [Claim(1, 0, 0)] + [Reap(STALE_TIMEOUT + 1)]

  /** A second worker takes over and completes the job. */
  const COMPLETED: seq<Move> := REAPED + [Claim(2, 0, STALE_TIMEOUT + 2)] + [Complete(2, STALE_TIMEOUT + 3)]

  /** The first one fails late. */
  const LATE_FAILURE: seq<Move> := COMPLETED + [Fail(1, "timeout", STALE_TIMEOUT + 4, 0)]

  lemma AfterReaping()
    ensures var w := Run(START, REAPED);
            && 0 in w.jobs && Claimable(w.jobs, 0, STALE_TIMEOUT + 2) && Count(w.reaps, 0) == 1
            && w.jobs[0].attempts == 1 && w.jobs[0].maxAttempts == 2
            && w.workers == map[1 := Claimed(0, 1, 2)]
  {
    var enqueue, claim := Enqueue(0, "email", 2, 0), Claim(1, 0, 0);
    assert Run(START, []) == START && [] + [enqueue] == [enqueue];
    Push([], enqueue);
    assert Run(START, [enqueue]).jobs == map[0 := NewJob("email", 2, 0)];
    Push([enqueue], claim);
    var w := Run(START, [enqueue] + [claim]);
    assert w.jobs == map[0 := AfterClaim(NewJob("email", 2, 0), 0)] && w.workers == map[1 := Claimed(0, 1, 2)];
    Push([enqueue] + [claim], Reap(STALE_TIMEOUT + 1));
  }

  lemma AfterCompletion()
    ensures var w := Run(START, COMPLETED);
            && 0 in w.jobs && w.jobs[0].status == Status.Completed && Count(w.reaps, 0) == 1
            && w.workers == map[1 := Claimed(0, 1, 2)]
  {
    AfterReaping();
    var claim := Claim(2, 0, STALE_TIMEOUT + 2);
    Push(REAPED, claim);
    var w := Run(START, REAPED + [claim]);
    assert 0 in w.jobs && w.workers == map[1 := Claimed(0, 1, 2), 2 := Claimed(0, 2, 2)];
    Push(REAPED + [claim], Complete(2, STALE_TIMEOUT + 3));
  }

  /** The completed job is pending again: without the status check, completed is not final once a
      job was reaped. */
  lemma LateFailureUndoesCompletion()
    ensures var done, after := Run(START, COMPLETED), Run(START, LATE_FAILURE);
            && 0 in done.jobs && done.jobs[0].status == Status.Completed && Count(done.reaps, 0) == 1
            && 0 in after.jobs && after.jobs[0].status == Status.Pending
  {
    AfterCompletion();
    Push(COMPLETED, Fail(1, "timeout", STALE_TIMEOUT + 4, 0));
  }
}
