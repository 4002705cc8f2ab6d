/** Retries and batches: a key is applied at most once, resubmitting an applied batch replays it, and
    a batch is its actions one after the other. */
module CompReplay {
  import opened Wrappers
  import opened AttemptStore
  import opened CompActions
  import opened CompHistory

  // ---- Exactly once ----

  lemma {:induction false} PerformKeepsKeysUnique(s: Store, comp: Competition, registration: string, now: int, item: Item)
    requires UniqueKeys(s.log)
    ensures var s' := Perform(s, comp, registration, now, item).0;
            UniqueKeys(s'.log) && s.log <= s'.log
  {
    var a := AttemptId(registration, item.action.problem);
    var target := TargetState(s, a, item);
    if target.To? {
      WriteFrame(s, WriteFor(s, a, item, target.state));
    }
  }

  /** Every applied reply to a keyed action is the reply its key will get from then on. */
  lemma {:induction false} AppliedIsLogged(s: Store, comp: Competition, registration: string, now: int, item: Item)
    requires UniqueKeys(s.log) && item.action.key.Some?
    ensures var (s', o) := Perform(s, comp, registration, now, item);
            o.Applied? ==> Replay(s'.log, item.action) == Some(Applied(o.key, o.problem, o.state, true))
  {
  }

  lemma {:induction false} ReplayIsStable(log: seq<LogEntry>, later: seq<LogEntry>, action: Action)
    requires log <= later && UniqueKeys(later) && Replay(log, action).Some?
    ensures Replay(later, action) == Replay(log, action)
  {
  }

  /** The same actions again; whatever fails or has changed meanwhile, the key lookups succeed. */
  ghost predicate Retries(items: seq<Item>, again: seq<Item>) {
    && |again| == |items|
    && forall i :: 0 <= i < |items| ==> again[i].action == items[i].action && !again[i].faults.keyLookup
  }

  ghost predicate AllKeyedAndApplied(items: seq<Item>, outcomes: seq<Outcome>)
    requires |outcomes| == |items|
  {
    forall i :: 0 <= i < |items| ==> items[i].action.key.Some? && outcomes[i].Applied?
  }

  function AsReplayed(o: Outcome): Outcome {
    if o.Applied? then o.(replayed := true) else o
  }

  ghost predicate AllReplayable(log: seq<LogEntry>, items: seq<Item>, outcomes: seq<Outcome>)
    requires |outcomes| == |items|
  {
    forall i :: 0 <= i < |items| ==> Replay(log, items[i].action) == Some(AsReplayed(outcomes[i]))
  }

  lemma {:induction false} AppliedBatchIsReplayable(s: Store, comp: Competition, registration: string, now: int,
      items: seq<Item>)
    requires UniqueKeys(s.log)
    requires AllKeyedAndApplied(items, Batch(s, comp, registration, now, items).1)
    ensures var (s', outcomes) := Batch(s, comp, registration, now, items);
            UniqueKeys(s'.log) && AllReplayable(s'.log, items, outcomes)
  {
    if |items| > 0 {
      var n := |items| - 1;
      var (s1, outcomes1) := Batch(s, comp, registration, now, items[..n]);
      var (s2, outcomes2) := Batch(s, comp, registration, now, items);
      assert outcomes2[..n] == outcomes1;
      assert forall i :: 0 <= i < n ==> outcomes2[i] == outcomes1[i] && items[..n][i] == items[i];
      AppliedBatchIsReplayable(s, comp, registration, now, items[..n]);
      PerformKeepsKeysUnique(s1, comp, registration, now, items[n]);
      AppliedIsLogged(s1, comp, registration, now, items[n]);
      forall i | 0 <= i < n
        ensures Replay(s2.log, items[i].action) == Some(AsReplayed(outcomes2[i]))
      {
        assert Replay(s1.log, items[..n][i].action) == Some(AsReplayed(outcomes1[i]));
        ReplayIsStable(s1.log, s2.log, items[i].action);
      }
    }
  }

  lemma {:induction false} ReplayableBatchReplays(s: Store, comp: Competition, registration: string, now: int,
      items: seq<Item>, outcomes: seq<Outcome>)
    requires |outcomes| == |items| && AllReplayable(s.log, items, outcomes)
    requires forall i :: 0 <= i < |items| ==> !items[i].faults.keyLookup
    ensures var (s', again) := Batch(s, comp, registration, now, items);
            s' == s && forall i :: 0 <= i < |items| ==> again[i] == AsReplayed(outcomes[i])
  {
    if |items| > 0 {
      var n := |items| - 1;
      ReplayableBatchReplays(s, comp, registration, now, items[..n], outcomes[..n]);
      assert Replay(s.log, items[n].action) == Some(AsReplayed(outcomes[n]));
    }
  }

  /** Resubmitting a batch that was keyed and fully applied: at any later point of any history, for
      any competition data (so also once the events have closed), nothing changes and every action
      gets the state it got the first time. */
  lemma {:induction false} ResubmitReplays(s: Store, comp: Competition, registration: string, now: int, items: seq<Item>,
      later: Store, comp': Competition, registration': string, now': int, again: seq<Item>)
    requires UniqueKeys(s.log)
    requires AllKeyedAndApplied(items, Batch(s, comp, registration, now, items).1)
    requires Batch(s, comp, registration, now, items).0.log <= later.log && UniqueKeys(later.log)
    requires Retries(items, again)
    ensures var first := Batch(s, comp, registration, now, items).1;
            var (s', second) := Batch(later, comp', registration', now', again);
            && s' == later
            && forall i :: 0 <= i < |items| ==> second[i] == AsReplayed(first[i])
  {
    AppliedBatchIsReplayable(s, comp, registration, now, items);
    var (s1, first) := Batch(s, comp, registration, now, items);
    forall i | 0 <= i < |again|
      ensures Replay(later.log, again[i].action) == Some(AsReplayed(first[i]))
    {
      assert Replay(s1.log, items[i].action) == Some(AsReplayed(first[i]));
      ReplayIsStable(s1.log, later.log, items[i].action);
    }
    ReplayableBatchReplays(later, comp', registration', now', again, first);
  }

  // ---- A batch is its actions one by one ----

  function Climbs(comp: Competition, registration: string, now: int, items: seq<Item>): (r: seq<Step>)
    ensures |r| == |items|
  {
    seq(|items|, i requires 0 <= i < |items| => Climb(comp, registration, now, items[i]))
  }

  /** Submitting two batches one after the other is submitting their concatenation. */
  lemma {:induction false} BatchSplits(s: Store, comp: Competition, registration: string, now: int,
      first: seq<Item>, second: seq<Item>)
    ensures var (s1, o1) := Batch(s, comp, registration, now, first);
            var (s2, o2) := Batch(s1, comp, registration, now, second);
            Batch(s, comp, registration, now, first + second) == (s2, o1 + o2)
    decreases |second|
  {
    var all := first + second;
    if |second| == 0 {
      assert all == first;
      assert Batch(s, comp, registration, now, first).1 + [] == Batch(s, comp, registration, now, first).1;
    } else {
      var n := |second| - 1;
      assert all[..|all| - 1] == first + second[..n] && all[|all| - 1] == second[n];
      BatchSplits(s, comp, registration, now, first, second[..n]);
      var (s1, o1) := Batch(s, comp, registration, now, first);
      var (sn, on) := Batch(s1, comp, registration, now, second[..n]);
      var (s2, o) := Perform(sn, comp, registration, now, second[n]);
      assert (o1 + on) + [o] == o1 + (on + [o]);
    }
  }

  lemma {:induction false} BatchIsRun(s: Store, comp: Competition, registration: string, now: int, items: seq<Item>)
    ensures Batch(s, comp, registration, now, items).0 == Run(s, Climbs(comp, registration, now, items))
  {
    if |items| > 0 {
      var n := |items| - 1;
      assert Climbs(comp, registration, now, items)[..n] == Climbs(comp, registration, now, items[..n]);
      BatchIsRun(s, comp, registration, now, items[..n]);
    }
  }

  lemma {:induction false} ListSizes(outcomes: seq<Outcome>)
    ensures |AppliedOf(outcomes)| + |RejectedOf(outcomes)| == |outcomes|
  {
    if |outcomes| > 0 {
      ListSizes(outcomes[..|outcomes| - 1]);
    }
  }

  lemma {:induction false} ListsExtend(outcomes: seq<Outcome>, i: nat)
    requires i <= |outcomes|
    ensures AppliedOf(outcomes[..i]) <= AppliedOf(outcomes)
    ensures RejectedOf(outcomes[..i]) <= RejectedOf(outcomes)
    decreases |outcomes|
  {
    if i < |outcomes| {
      var n := |outcomes| - 1;
      ListsExtend(outcomes[..n], i);
      assert outcomes[..n][..i] == outcomes[..i];
    } else {
      assert outcomes[..i] == outcomes;
    }
  }

  /** The two response lists partition the batch in order: item i sits in its list right after the
      earlier items of its kind, and (ListSizes) the lists hold nothing else. */
  lemma {:induction false} ListsPartition(outcomes: seq<Outcome>, i: nat)
    requires i < |outcomes|
    ensures if outcomes[i].Applied?
            then AppliedOf(outcomes[..i]) + [outcomes[i]] <= AppliedOf(outcomes)
            else RejectedOf(outcomes[..i]) + [outcomes[i]] <= RejectedOf(outcomes)
  {
    var before := outcomes[..i];
    ListsExtend(outcomes, i + 1);
    assert outcomes[..i + 1] == before + [outcomes[i]];
    OutcomesSnoc(before, outcomes[i]);
  }

  /** Each item answers for itself: the outcome names its key and problem, a rejection or a replay
      leaves the store alone, and anything else adds exactly one entry, under its key. */
  lemma {:induction false} OutcomeMatchesEffect(s: Store, comp: Competition, registration: string, now: int, item: Item)
    ensures var (s', o) := Perform(s, comp, registration, now, item);
            && o.key == item.action.key && o.problem == item.action.problem
            && (o.Rejected? || o.replayed ==> s' == s)
            && (o.Applied? && !o.replayed ==>
                  && |s'.log| == |s.log| + 1 && s'.log[..|s.log|] == s.log
                  && s'.log[|s.log|].key == item.action.key
                  && ToApi(item.action.problem, s'.log[|s.log|].after) == o.state
                  && s'.rows[AttemptId(registration, item.action.problem)] == s'.log[|s.log|].after)
  {
  }

  // ---- What the response's state section shows ----

  /** An outcome of the batch that moved the row of a problem. */
  predicate Moves(outcomes: seq<Outcome>, i: int, problem: string) {
    0 <= i < |outcomes| && outcomes[i].Applied? && !outcomes[i].replayed && outcomes[i].problem == problem
  }

  lemma {:induction false} RowAfterItem(s: Store, comp: Competition, registration: string, now: int, item: Item, problem: string)
    ensures var (s', o) := Perform(s, comp, registration, now, item);
            var a := AttemptId(registration, problem);
            ToApi(problem, Current(s', a)) ==
              if o.Applied? && !o.replayed && o.problem == problem then o.state else ToApi(problem, Current(s, a))
  {
    PerformWrites(s, comp, registration, now, item);
    OutcomeMatchesEffect(s, comp, registration, now, item);
  }

  /** The state that the last moving outcome for the problem reported, or the one given. */
  function LastState(outcomes: seq<Outcome>, problem: string, start: ApiState): ApiState {
    if |outcomes| == 0 then start
    else if Moves(outcomes, |outcomes| - 1, problem) then outcomes[|outcomes| - 1].state
    else LastState(outcomes[..|outcomes| - 1], problem, start)
  }

  lemma {:induction false} LastStateIsLast(outcomes: seq<Outcome>, problem: string, start: ApiState, i: nat)
    requires Moves(outcomes, i, problem) && forall j :: j > i ==> !Moves(outcomes, j, problem)
    ensures LastState(outcomes, problem, start) == outcomes[i].state
  {
    var n := |outcomes| - 1;
    if i < n {
      assert !Moves(outcomes, n, problem);
      forall j | j > i ensures !Moves(outcomes[..n], j, problem) {
        assert !Moves(outcomes, j, problem);
      }
      LastStateIsLast(outcomes[..n], problem, start, i);
    }
  }

  lemma {:induction false} RowAfterBatch(s: Store, comp: Competition, registration: string, now: int,
      items: seq<Item>, problem: string)
    ensures var (s', outcomes) := Batch(s, comp, registration, now, items);
            var a := AttemptId(registration, problem);
            ToApi(problem, Current(s', a)) == LastState(outcomes, problem, ToApi(problem, Current(s, a)))
  {
    if |items| > 0 {
      var n := |items| - 1;
      var (s1, before) := Batch(s, comp, registration, now, items[..n]);
      var o := Perform(s1, comp, registration, now, items[n]).1;
      RowAfterBatch(s, comp, registration, now, items[..n], problem);
      RowAfterItem(s1, comp, registration, now, items[n], problem);
      assert (before + [o])[..n] == before;
    }
  }

  /** The state reported for a problem after a batch is the one that its last applied action reported,
      replays apart. */
  lemma {:induction false} SnapshotIsLastApplied(s: Store, comp: Competition, registration: string, now: int, items: seq<Item>,
      problem: string, i: nat)
    requires var outcomes := Batch(s, comp, registration, now, items).1;
             Moves(outcomes, i, problem) && forall j :: j > i ==> !Moves(outcomes, j, problem)
    ensures var (s', outcomes) := Batch(s, comp, registration, now, items);
            Snapshot(s', registration, {problem})[problem] == outcomes[i].state
  {
    var (s', outcomes) := Batch(s, comp, registration, now, items);
    RowAfterBatch(s, comp, registration, now, items, problem);
    LastStateIsLast(outcomes, problem, ToApi(problem, Current(s, AttemptId(registration, problem))), i);
    assert problem in Snapshot(s', registration, {problem});
  }

  // ---- Why an action is rejected ----

  /** Without database faults, the reason tells which check failed, in the order of the checks. */
  lemma {:induction false} RejectedBecause(s: Store, comp: Competition, registration: string, now: int, item: Item)
    requires Chained(s) && TimeOrdered(s.log) && item.faults == NO_FAULTS
    requires Perform(s, comp, registration, now, item).1.Rejected?
    ensures var reason := Perform(s, comp, registration, now, item).1.reason;
            var p := item.action.problem;
            && (reason == UnknownProblem <==> p !in comp.eventOf)
            && (reason == WrongCompetition <==> p in comp.eventOf && comp.eventOf[p] !in comp.endsAt)
            && (reason == EventClosed <==>
                  p in comp.eventOf && comp.eventOf[p] in comp.endsAt && now > comp.endsAt[comp.eventOf[p]])
            && (reason == NoHistory <==> ClosedReason(comp, now, p).None? && item.action.kind == Undo)
            && (reason == NoHistory ==> AttemptId(registration, p) !in s.rows)
            && (reason == ServerError <==> ClosedReason(comp, now, p).None? && item.action.kind.Other?)
  {
    assert ChainedAt(s, AttemptId(registration, item.action.problem));
    if item.action.kind == Undo {
      UndoTarget(s, AttemptId(registration, item.action.problem), item);
    }
  }
}
