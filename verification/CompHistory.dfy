/** Theorems over whole sequential runs of climber actions and staff overrides: the log of every
    attempt is a chain, undo inverts the last change, and which snapshots are well formed. */
module CompHistory {
  import opened Wrappers
  import opened AttemptStore
  import opened CompActions

  datatype Step =
    | Climb(comp: Competition, registration: string, now: int, item: Item)
    | Override(attempt: AttemptId, body: OverrideBody, writeFails: bool, at: int)

  function StepAt(step: Step): int {
    if step.Climb? then step.item.at else step.at
  }

  function Next(s: Store, step: Step): Store {
    match step
    case Climb(comp, registration, now, item) => Perform(s, comp, registration, now, item).0
    case Override(a, body, writeFails, at) => OverrideStep(s, a, body, writeFails, at)
  }

  function Run(s: Store, steps: seq<Step>): Store {
    if |steps| == 0 then s else Next(Run(s, steps[..|steps| - 1]), steps[|steps| - 1])
  }

  /** The database clock does not run backwards. */
  ghost predicate ClockForward(steps: seq<Step>) {
    forall i, j :: 0 <= i < j < |steps| ==> StepAt(steps[i]) <= StepAt(steps[j])
  }

  /** The entries of one attempt, in id order. */
  function History(log: seq<LogEntry>, a: AttemptId): (r: seq<LogEntry>)
    ensures forall e :: e in r ==> e in log && e.attempt == a
  {
    if |log| == 0 then [] else
      var n := |log| - 1;
      History(log[..n], a) + (if log[n].attempt == a then [log[n]] else [])
  }

  /** Starts from the zero state, and every After is the next Before. */
  ghost predicate IsChain(h: seq<LogEntry>) {
    && (|h| > 0 ==> h[0].before == ZERO_STATE)
    && forall i :: 0 < i < |h| ==> h[i].before == h[i - 1].after
  }

  /** One attempt's history is a chain that ends in its current row; no history means no row. */
  ghost predicate ChainedAt(s: Store, a: AttemptId) {
    var h := History(s.log, a);
    && IsChain(h)
    && (a in s.rows <==> |h| > 0)
    && (a in s.rows ==> s.rows[a] == h[|h| - 1].after)
  }

  ghost predicate Chained(s: Store) {
    forall a :: ChainedAt(s, a)
  }

  ghost predicate TimeOrdered(log: seq<LogEntry>) {
    forall i, j :: 0 <= i < j < |log| ==> log[i].at <= log[j].at
  }

  lemma {:induction false} HistorySnoc(log: seq<LogEntry>, e: LogEntry, a: AttemptId)
    ensures History(log + [e], a) == History(log, a) + (if e.attempt == a then [e] else [])
  {
  }

  /** With an ordered clock, the newest entry by (at, id) is the last one of the history. */
  lemma {:induction false} LatestIsLast(log: seq<LogEntry>, a: AttemptId)
    requires TimeOrdered(log)
    ensures Latest(log, a).None? <==> History(log, a) == []
    ensures Latest(log, a).Some? ==> log[Latest(log, a).value] == History(log, a)[|History(log, a)| - 1]
  {
    if |log| > 0 {
      LatestIsLast(log[..|log| - 1], a);
    }
  }

  // ---- How one step changes the store ----

  /** The only way a step changes anything: it writes one row, logging the row it found as Before. */
  ghost predicate Wrote(s: Store, s': Store, e: LogEntry) {
    && e.before == Current(s, e.attempt)
    && s'.rows == s.rows[e.attempt := e.after]
    && s'.log == s.log + [e]
  }

  lemma {:induction false} PerformWrites(s: Store, comp: Competition, registration: string, now: int, item: Item)
    ensures var (s', o) := Perform(s, comp, registration, now, item);
            var a := AttemptId(registration, item.action.problem);
            if o.Applied? && !o.replayed then
              && TargetState(s, a, item).To?
              && o.state == ToApi(a.problem, TargetState(s, a, item).state)
              && Wrote(s, s', Entry(WriteFor(s, a, item, TargetState(s, a, item).state)))
            else s' == s
  {
  }

  lemma {:induction false} NextWrites(s: Store, step: Step)
    ensures Next(s, step) == s || exists e :: Wrote(s, Next(s, step), e) && e.at == StepAt(step)
  {
    match step
    case Climb(comp, registration, now, item) =>
      PerformWrites(s, comp, registration, now, item);
    case Override(a, body, writeFails, at) =>
      var s' := Next(s, step);
      assert s' == s || Wrote(s, s', Entry(OverrideInput(s, a, body, at)));
  }

  lemma {:induction false} WriteKeepsChained(s: Store, s': Store, e: LogEntry)
    requires Chained(s) && Wrote(s, s', e)
    ensures Chained(s')
  {
    forall a ensures ChainedAt(s', a) {
      assert ChainedAt(s, a);
      WriteKeepsChainedAt(s, s', e, a);
    }
  }

  lemma {:induction false} ChainSnoc(h: seq<LogEntry>, e: LogEntry)
    requires IsChain(h) && e.before == if |h| > 0 then h[|h| - 1].after else ZERO_STATE
    ensures IsChain(h + [e])
  {
  }

  lemma {:induction false} WriteKeepsChainedAt(s: Store, s': Store, e: LogEntry, a: AttemptId)
    requires ChainedAt(s, a) && Wrote(s, s', e)
    ensures ChainedAt(s', a)
  {
    var h := History(s.log, a);
    HistorySnoc(s.log, e, a);
    if e.attempt == a {
      ChainSnoc(h, e);
      assert History(s'.log, a) == h + [e];
    } else {
      assert History(s'.log, a) == h;
    }
  }

  lemma {:induction false} NextKeepsInvariants(s: Store, step: Step)
    requires Chained(s) && TimeOrdered(s.log) && forall e :: e in s.log ==> e.at <= StepAt(step)
    ensures Chained(Next(s, step)) && TimeOrdered(Next(s, step).log)
    ensures forall e :: e in Next(s, step).log ==> e.at <= StepAt(step)
  {
    NextWrites(s, step);
    if Next(s, step) != s {
      var e :| Wrote(s, Next(s, step), e) && e.at == StepAt(step);
      WriteKeepsChained(s, Next(s, step), e);
    }
  }

  /** Every sequential run keeps every attempt's log a gap-free chain that ends in the current row. */
  lemma {:induction false} RunIsChained(steps: seq<Step>)
    requires ClockForward(steps)
    ensures Chained(Run(EMPTY_STORE, steps))
    ensures TimeOrdered(Run(EMPTY_STORE, steps).log)
    ensures forall e :: e in Run(EMPTY_STORE, steps).log ==> |steps| > 0 && e.at <= StepAt(steps[|steps| - 1])
  {
    if |steps| > 0 {
      var n := |steps| - 1;
      var s := Run(EMPTY_STORE, steps[..n]);
      RunIsChained(steps[..n]);
      NextKeepsInvariants(s, steps[n]);
    }
  }

  // ---- Undo ----

  /** An item that reaches its row: the problem is open, nothing fails, and its key is new. */
  predicate Reaches(s: Store, comp: Competition, now: int, item: Item) {
    var p := item.action.problem;
    && item.faults == NO_FAULTS
    && !KeyUsed(s.log, item.action.key)
    && ClosedReason(comp, now, p).None?
  }

  // ---- What each action writes and reports ----

  /** The row an action finds; a problem never touched counts as no tries, no zone, no top, no notes. */
  ghost predicate Finds(s: Store, a: AttemptId, found: AttemptState) {
    if a in s.rows then found == s.rows[a]
    else
      && found.attempts == 0 && found.zoneAttempts.None? && !found.zoneReached && !found.topReached
      && found.notes.None?
  }

  /** What each kind of action makes of the row it finds: one more try; the zone reached on the current
      try, at least the first; the top on the current try, with the zone unless it was reached before; or
      everything gone. An unknown kind writes nothing, and undo is told apart. */
  ghost predicate Makes(kind: ActionType, found: AttemptState, row: AttemptState) {
    match kind
    case Increment =>
      && row.attempts == found.attempts + 1
      && row.zoneAttempts == found.zoneAttempts && row.zoneReached == found.zoneReached
      && row.topReached == found.topReached && row.notes == found.notes
    case Zone =>
      && row.attempts == (if found.attempts >= 1 then found.attempts else 1)
      && row.zoneReached && row.zoneAttempts == Some(row.attempts)
      && row.topReached == found.topReached && row.notes == found.notes
    case Top =>
      && row.attempts == (if found.attempts >= 1 then found.attempts else 1)
      && row.topReached && row.zoneReached
      && row.zoneAttempts == (if found.zoneReached then found.zoneAttempts else Some(row.attempts))
      && row.notes == found.notes
    case Reset =>
      && row.attempts == 0 && row.zoneAttempts.None? && !row.zoneReached && !row.topReached && row.notes.None?
    case Undo => false
    case Other(_) => false
  }

  /** One entry is logged for the attempt, from the row found to the row made, and no other row moves. */
  ghost predicate LogsMove(s: Store, s': Store, a: AttemptId, found: AttemptState, item: Item) {
    && a in s'.rows && s'.rows == s.rows[a := s'.rows[a]]
    && |s'.log| == |s.log| + 1 && s'.log[..|s.log|] == s.log
    && var e := s'.log[|s.log|];
       e.attempt == a && e.before == found && e.after == s'.rows[a] && e.key == item.action.key && e.at == item.at
  }

  /** Every freshly applied action other than undo does to its row what its kind means, whatever fails on
      the way, and one that reaches its row is applied unless its kind is unknown. */
  lemma {:induction false} ActionDoesWhatItSays(s: Store, comp: Competition, registration: string, now: int, item: Item,
      found: AttemptState)
    requires Finds(s, AttemptId(registration, item.action.problem), found) && item.action.kind != Undo
    ensures var a := AttemptId(registration, item.action.problem);
            var (s', o) := Perform(s, comp, registration, now, item);
            && (o.Applied? && !o.replayed ==>
                  LogsMove(s, s', a, found, item) && Makes(item.action.kind, found, s'.rows[a]))
            && (o.Rejected? || o.replayed ==> s' == s)
            && (Reaches(s, comp, now, item) && !item.action.kind.Other? ==> o.Applied? && !o.replayed)
  {
    var a := AttemptId(registration, item.action.problem);
    assert found == Current(s, a);
    PerformWrites(s, comp, registration, now, item);
  }

  /** The reported state shows a row field by field. */
  ghost predicate Shows(state: ApiState, problem: string, row: AttemptState) {
    && state.problem == problem && state.attempts == row.attempts && state.zoneAttempts == row.zoneAttempts
    && state.zoneReached == row.zoneReached && state.topReached == row.topReached
  }

  /** An applied action of any kind, undo included, reports its row as it then is; a replayed one reports
      the row as the entry of its key left it. */
  lemma {:induction false} ReportsTheRow(s: Store, comp: Competition, registration: string, now: int, item: Item)
    ensures var (s', o) := Perform(s, comp, registration, now, item);
            var p := item.action.problem;
            var a := AttemptId(registration, p);
            && (o.Applied? && !o.replayed ==> a in s'.rows && Shows(o.state, p, s'.rows[a]))
            && (o.Applied? && o.replayed ==>
                  exists i :: 0 <= i < |s.log| && item.action.key.Some? && s.log[i].key == item.action.key
                    && Shows(o.state, p, s.log[i].after))
  {
    var (s', o) := Perform(s, comp, registration, now, item);
    PerformWrites(s, comp, registration, now, item);
    if o.Applied? && o.replayed {
      var i := FindKey(s.log, item.action.key.value).value;
      assert Shows(o.state, item.action.problem, s.log[i].after);
    }
  }

  /** The state section shows each problem's row as it is, and an untouched problem as empty. */
  lemma {:induction false} SnapshotShowsRows(s: Store, registration: string, problems: set<string>, p: string, found: AttemptState)
    requires Finds(s, AttemptId(registration, p), found)
    ensures var state := Snapshot(s, registration, problems);
            (p in state <==> p in problems) && (p in problems ==> Shows(state[p], p, found))
  {
    assert found == Current(s, AttemptId(registration, p));
  }

  /** What the row was before its last change; the zero state if it changed only once. */
  function Previous(log: seq<LogEntry>, a: AttemptId): AttemptState {
    var h := History(log, a);
    if |h| >= 2 then h[|h| - 2].after else ZERO_STATE
  }

  lemma {:induction false} PreviousAfterWrite(s: Store, e: LogEntry)
    requires ChainedAt(s, e.attempt)
    ensures Previous(s.log + [e], e.attempt) == Current(s, e.attempt)
  {
    HistorySnoc(s.log, e, e.attempt);
  }

  lemma {:induction false} UndoTarget(s: Store, a: AttemptId, item: Item)
    requires ChainedAt(s, a) && TimeOrdered(s.log)
    requires item.action.kind == Undo && item.faults == NO_FAULTS
    ensures TargetState(s, a, item) == if a in s.rows then To(Previous(s.log, a)) else No(NoHistory)
  {
    LatestIsLast(s.log, a);
  }

  /** Undo is rejected exactly for a problem never touched; otherwise it moves the row back to the
      state before its last change, leaves every other row alone and logs itself. */
  lemma {:induction false} UndoStepsBack(s: Store, comp: Competition, registration: string, now: int, item: Item)
    requires Chained(s) && TimeOrdered(s.log)
    requires item.action.kind == Undo && Reaches(s, comp, now, item)
    ensures var a := AttemptId(registration, item.action.problem);
            var (s', outcome) := Perform(s, comp, registration, now, item);
            if a !in s.rows then outcome == Reject(item.action, NoHistory) && s' == s
            else
              && outcome == Applied(item.action.key, a.problem, ToApi(a.problem, Previous(s.log, a)), false)
              && s'.rows == s.rows[a := Previous(s.log, a)]
              && Previous(s'.log, a) == s.rows[a]
  {
    var a := AttemptId(registration, item.action.problem);
    assert ChainedAt(s, a);
    UndoTarget(s, a, item);
    assert Perform(s, comp, registration, now, item) == ActOne(s, a, item);
    if a in s.rows {
      PreviousAfterWrite(s, Entry(WriteFor(s, a, item, Previous(s.log, a))));
    }
  }

  /** When nothing fails, an action is applied exactly if its key was used before, or its problem is
      open and it is a known action with, for undo, something to undo. */
  lemma {:induction false} AppliedIff(s: Store, comp: Competition, registration: string, now: int, item: Item)
    requires Chained(s) && TimeOrdered(s.log) && item.faults == NO_FAULTS
    ensures Perform(s, comp, registration, now, item).1.Applied? <==>
            || KeyUsed(s.log, item.action.key)
            || (&& item.action.problem in comp.eventOf && comp.eventOf[item.action.problem] in comp.endsAt
                && now <= comp.endsAt[comp.eventOf[item.action.problem]]
                && !item.action.kind.Other?
                && (item.action.kind == Undo ==> History(s.log, AttemptId(registration, item.action.problem)) != []))
  {
    var a := AttemptId(registration, item.action.problem);
    assert ChainedAt(s, a);
    if item.action.kind == Undo {
      UndoTarget(s, a, item);
    }
  }

  /** A change followed by undo: the row is back at what it was before the change, and no other row
      differs. */
  lemma {:induction false} UndoInvertsAnyAction(s: Store, comp: Competition, registration: string, now: int, act: Item, s1: Store,
      comp': Competition, now': int, undo: Item, s2: Store)
    requires Chained(s) && TimeOrdered(s.log) && forall e :: e in s.log ==> e.at <= act.at
    requires s1 == Perform(s, comp, registration, now, act).0 && s1 != s
    requires undo.action.kind == Undo && undo.action.problem == act.action.problem && Reaches(s1, comp', now', undo)
    requires s2 == Perform(s1, comp', registration, now', undo).0
    ensures var a := AttemptId(registration, act.action.problem);
            s2.rows == s1.rows[a := Current(s, a)]
  {
    var a := AttemptId(registration, act.action.problem);
    PerformWrites(s, comp, registration, now, act);
    var e := Entry(WriteFor(s, a, act, TargetState(s, a, act).state));
    assert ChainedAt(s, a);
    PreviousAfterWrite(s, e);
    NextKeepsInvariants(s, Climb(comp, registration, now, act));
    UndoStepsBack(s1, comp', registration, now', undo);
  }

  /** Two undos in a row are the identity on the rows, whenever and under whatever competition data each
      of them arrives. */
  lemma {:induction false} DoubleUndoIsIdentity(s: Store, comp: Competition, registration: string, now: int, u1: Item, s1: Store,
      comp': Competition, now': int, u2: Item, s2: Store)
    requires Chained(s) && TimeOrdered(s.log) && forall e :: e in s.log ==> e.at <= u1.at
    requires u1.action.kind == Undo && u2.action.kind == Undo && u1.action.problem == u2.action.problem
    requires Reaches(s, comp, now, u1) && s1 == Perform(s, comp, registration, now, u1).0
    requires Reaches(s1, comp', now', u2) && s2 == Perform(s1, comp', registration, now', u2).0
    ensures s2.rows == s.rows
  {
    var a := AttemptId(registration, u1.action.problem);
    UndoStepsBack(s, comp, registration, now, u1);
    if a in s.rows {
      UndoInvertsAnyAction(s, comp, registration, now, u1, s1, comp', now', u2, s2);
      assert s.rows[a := Previous(s.log, a)][a := s.rows[a]] == s.rows;
    } else {
      UndoStepsBack(s, comp', registration, now', u2);
    }
  }

  // ---- Well-formed snapshots ----

  /** Top implies zone, zone carries its attempt count, and that count is plausible. */
  predicate Plausible(s: AttemptState) {
    && s.attempts >= 0
    && (s.topReached ==> s.zoneReached)
    && (s.zoneReached <==> s.zoneAttempts.Some?)
    && (s.zoneReached ==> 1 <= s.zoneAttempts.value <= s.attempts)
  }

  ghost predicate AllPlausible(s: Store) {
    && (forall a :: a in s.rows ==> Plausible(s.rows[a]))
    && forall e :: e in s.log ==> Plausible(e.before) && Plausible(e.after)
  }

  lemma {:induction false} ActionKeepsPlausible(s: AttemptState, kind: ActionType)
    requires Plausible(s)
    ensures ComputeNewState(s, kind).Some? ==> Plausible(ComputeNewState(s, kind).value)
  {
  }

  /** A staff override that goes through with a body that breaks the shape. */
  predicate BreaksShape(s: Store, step: Step) {
    && step.Override?
    && step.attempt in s.rows && ValidOverride(step.body) && !step.writeFails
    && !Plausible(OverrideState(step.body))
  }

  /** The state an action moves to is as plausible as the snapshots it can be taken from. */
  lemma {:induction false} TargetIsPlausible(s: Store, a: AttemptId, item: Item)
    requires AllPlausible(s)
    ensures TargetState(s, a, item).To? ==> Plausible(TargetState(s, a, item).state)
  {
    var latest := Latest(s.log, a);
    if latest.Some? {
      assert s.log[latest.value] in s.log;
    }
    ActionKeepsPlausible(Current(s, a), item.action.kind);
  }

  lemma {:induction false} WriteAndPlausible(s: Store, s': Store, e: LogEntry)
    requires AllPlausible(s) && Wrote(s, s', e)
    ensures AllPlausible(s') <==> Plausible(e.after)
  {
  }

  lemma {:induction false} NextAndPlausible(s: Store, step: Step)
    requires AllPlausible(s)
    ensures AllPlausible(Next(s, step)) <==> !BreaksShape(s, step)
  {
    var s' := Next(s, step);
    match step
    case Climb(comp, registration, now, item) =>
      var a := AttemptId(registration, item.action.problem);
      PerformWrites(s, comp, registration, now, item);
      TargetIsPlausible(s, a, item);
      if s' != s {
        WriteAndPlausible(s, s', Entry(WriteFor(s, a, item, TargetState(s, a, item).state)));
      }
    case Override(a, body, writeFails, at) =>
      if s' != s {
        WriteAndPlausible(s, s', Entry(OverrideInput(s, a, body, at)));
      } else if a in s.rows && ValidOverride(body) && !writeFails {
        assert Write(s, OverrideInput(s, a, body, at)).Some?;
      }
  }

  lemma {:induction false} LogOnlyGrows(s: Store, steps: seq<Step>, n: nat)
    requires n <= |steps|
    ensures Run(s, steps[..n]).log <= Run(s, steps).log
    decreases |steps|
  {
    if n < |steps| {
      LogOnlyGrows(s, steps[..|steps| - 1], n);
      assert steps[..|steps| - 1][..n] == steps[..n];
      NextWrites(Run(s, steps[..|steps| - 1]), steps[|steps| - 1]);
    } else {
      assert steps[..n] == steps;
    }
  }

  /** The log is append-only, so an ill-formed override stays visible for the rest of the run. */
  lemma {:induction false} BrokenSnapshotStays(steps: seq<Step>, i: nat)
    requires i < |steps| && BreaksShape(Run(EMPTY_STORE, steps[..i]), steps[i])
    ensures !AllPlausible(Run(EMPTY_STORE, steps))
  {
    var s := Run(EMPTY_STORE, steps[..i]);
    var s' := Next(s, steps[i]);
    assert steps[..i + 1][..i] == steps[..i];
    LogOnlyGrows(EMPTY_STORE, steps, i + 1);
    assert s'.log <= Run(EMPTY_STORE, steps).log;
    var e := s'.log[|s'.log| - 1];
    assert e == Run(EMPTY_STORE, steps).log[|s'.log| - 1];
    assert !Plausible(e.after);
  }

  ghost predicate NeverBroken(steps: seq<Step>) {
    forall i :: 0 <= i < |steps| ==> !BreaksShape(Run(EMPTY_STORE, steps[..i]), steps[i])
  }

  /** Over a whole run, every row and every logged snapshot is well formed if and only if no accepted
      override ever asserted an ill-formed state; climber actions and undo alone never do. */
  lemma {:induction false} SnapshotsPlausibleIff(steps: seq<Step>)
    ensures AllPlausible(Run(EMPTY_STORE, steps)) <==> NeverBroken(steps)
  {
    if NeverBroken(steps) {
      UnbrokenIsPlausible(steps);
    } else {
      var i :| 0 <= i < |steps| && BreaksShape(Run(EMPTY_STORE, steps[..i]), steps[i]);
      BrokenSnapshotStays(steps, i);
    }
  }

  lemma {:induction false} UnbrokenIsPlausible(steps: seq<Step>)
    requires NeverBroken(steps)
    ensures AllPlausible(Run(EMPTY_STORE, steps))
  {
    if |steps| > 0 {
      var n := |steps| - 1;
      assert forall i :: 0 <= i < n ==> steps[..n][..i] == steps[..i];
      UnbrokenIsPlausible(steps[..n]);
      NextAndPlausible(Run(EMPTY_STORE, steps[..n]), steps[n]);
    }
  }

  // ---- Which rows can come about ----

  /** An action that makes an attempt known, and a staff override that sets it. */
  function SetRow(comp: Competition, now: int, a: AttemptId, state: AttemptState): seq<Step> {
    [Climb(comp, a.registration, now, Item(Action(Increment, a.problem, None), NO_FAULTS, 0))]
    + [Override(a, BodyOf(state), false, 0)]
  }

  function BodyOf(state: AttemptState): OverrideBody {
    OverrideBody(state.attempts, state.zoneAttempts, state.zoneReached, state.topReached, state.notes)
  }

  lemma {:induction false} RunPush(s: Store, steps: seq<Step>, step: Step)
    ensures Run(s, steps + [step]) == Next(Run(s, steps), step)
  {
    assert (steps + [step])[..|steps|] == steps;
  }

  lemma {:induction false} SetRowSets(s: Store, steps: seq<Step>, comp: Competition, now: int, a: AttemptId, state: AttemptState)
    requires ClosedReason(comp, now, a.problem).None? && ValidOverride(BodyOf(state))
    ensures Run(s, steps + SetRow(comp, now, a, state)).rows == Run(s, steps).rows[a := state]
  {
    var touch, fix := SetRow(comp, now, a, state)[0], SetRow(comp, now, a, state)[1];
    RunPush(s, steps, touch);
    RunPush(s, steps + [touch], fix);
    assert steps + SetRow(comp, now, a, state) == steps + [touch] + [fix];
    var s0, s1 := Run(s, steps), Run(s, steps + [touch]);
    assert a in s1.rows && s1.rows[a := state] == s0.rows[a := state];
  }

  ghost predicate Settable(comp: Competition, now: int, rows: map<AttemptId, AttemptState>) {
    forall a :: a in rows ==> ClosedReason(comp, now, a.problem).None? && ValidOverride(BodyOf(rows[a]))
  }

  lemma {:induction false} MapWithout(rows: map<AttemptId, AttemptState>, a: AttemptId)
    requires a in rows
    ensures (rows - {a})[a := rows[a]] == rows && |rows - {a}| < |rows|
  {
    assert rows.Keys == (rows - {a}).Keys + {a};
  }

  /** Overrides can bring about every set of rows with non-negative counts on open problems. */
  lemma {:induction false} EveryStateReachable(comp: Competition, now: int, rows: map<AttemptId, AttemptState>)
    returns (steps: seq<Step>)
    requires Settable(comp, now, rows)
    ensures Run(EMPTY_STORE, steps).rows == rows && forall i :: 0 <= i < |steps| ==> StepAt(steps[i]) == 0
    decreases |rows|
  {
    if rows == map[] {
      steps := [];
    } else {
      var a :| a in rows;
      var fewer := rows - {a};
      MapWithout(rows, a);
      var rest := EveryStateReachable(comp, now, fewer);
      SetRowSets(EMPTY_STORE, rest, comp, now, a, rows[a]);
      steps := rest + SetRow(comp, now, a, rows[a]);
    }
  }
}
