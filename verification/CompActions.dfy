/** The climber-action endpoint and the staff override: internal/handler/comp_action.go and
    internal/handler/comp_verify.go. */
module CompActions {
  import opened Wrappers
  import opened AttemptStore
  import Team

  datatype ActionType = Increment | Zone | Top | Reset | Undo | Other(name: string)

  datatype Action = Action(kind: ActionType, problem: string, key: Option<string>)

  /** Which of the database calls made for one action fail. */
  datatype Faults = Faults(keyLookup: bool, read: bool, history: bool, write: bool, replay: bool)

  const NO_FAULTS := Faults(false, false, false, false, false)

  /** One requested action together with what the database contributes while it is processed. */
  datatype Item = Item(action: Action, faults: Faults, at: int)

  datatype Reason = UnknownProblem | WrongCompetition | EventClosed | NoHistory | ServerError

  datatype ApiState = ApiState(
    problem: string,
    attempts: int,
    zoneAttempts: Option<int>,
    zoneReached: bool,
    topReached: bool)

  datatype Outcome =
    | Applied(key: Option<string>, problem: string, state: ApiState, replayed: bool)
    | Rejected(key: Option<string>, problem: string, reason: Reason)

  /** The competition's problems with their events, and the events with their closing times. */
  datatype Competition = Competition(eventOf: map<string, string>, endsAt: map<string, int>)

  function Label(kind: ActionType): string {
    match kind
    case Increment => "increment"
    case Zone => "zone"
    case Top => "top"
    case Reset => "reset"
    case Undo => "undo"
    case Other(name) => name
  }

  function ToApi(problem: string, s: AttemptState): ApiState {
    ApiState(problem, s.attempts, s.zoneAttempts, s.zoneReached, s.topReached)
  }

  function Reject(action: Action, reason: Reason): Outcome {
    Rejected(action.key, action.problem, reason)
  }

  function WithAttempt(s: AttemptState): AttemptState {
    if s.attempts < 1 then s.(attempts := 1) else s
  }

  /** The state after an action, or None for the kinds it cannot compute (undo, unknown). */
  function ComputeNewState(s: AttemptState, kind: ActionType): Option<AttemptState> {
    match kind
    case Increment => Some(s.(attempts := s.attempts + 1))
    case Zone =>
      var next := WithAttempt(s);
      Some(next.(zoneReached := true, zoneAttempts := Some(next.attempts)))
    case Top =>
      var next := WithAttempt(s).(topReached := true);
      Some(if next.zoneReached then next
           else next.(zoneReached := true, zoneAttempts := Some(next.attempts)))
    case Reset => Some(ZERO_STATE)
    case Undo => None
    case Other(_) => None
  }

  /** What each action may touch: only increment counts up, only top tops, only zone and top reach the
      zone, top leaves an earlier zone's attempt count alone, nothing edits the notes, and apart from
      reset nothing is taken back. */
  lemma {:induction false} ActionMeaning(s: AttemptState, kind: ActionType)
    requires ComputeNewState(s, kind).Some?
    ensures var n := ComputeNewState(s, kind).value;
            if kind == Reset then n == ZERO_STATE
            else
              && n.notes == s.notes
              && n.attempts == (if kind == Increment then s.attempts + 1 else if s.attempts < 1 then 1 else s.attempts)
              && (n.topReached <==> s.topReached || kind == Top)
              && (n.zoneReached <==> s.zoneReached || kind == Zone || kind == Top)
              && n.zoneAttempts == (if kind == Zone || (kind == Top && !s.zoneReached) then Some(n.attempts)
                                    else s.zoneAttempts)
  {
  }

  /** The reply for a key that is already in the log. */
  function Replay(log: seq<LogEntry>, action: Action): (r: Option<Outcome>) {
    if action.key.None? then None else
      match FindKey(log, action.key.value)
      case None => None
      case Some(i) => Some(Applied(action.key, action.problem, ToApi(action.problem, log[i].after), true))
  }

  /** The state an action moves its row to, or the reason it is rejected. */
  datatype Target = To(state: AttemptState) | No(reason: Reason)

  function TargetState(s: Store, a: AttemptId, item: Item): Target {
    if item.faults.read then No(ServerError)
    else if item.action.kind == Undo then
      if a !in s.rows then No(NoHistory)
      else if item.faults.history then No(ServerError)
      else match Latest(s.log, a) {
        case None => No(NoHistory)
        case Some(i) => To(s.log[i].before)
      }
    else match ComputeNewState(Current(s, a), item.action.kind) {
      case None => No(ServerError)
      case Some(next) => To(next)
    }
  }

  function WriteFor(s: Store, a: AttemptId, item: Item, next: AttemptState): WriteInput {
    WriteInput(a, next, Label(item.action.kind), item.action.key, Current(s, a), next, item.at)
  }

  /** One action against an open problem: load, compute or restore, write, or replay a lost race. */
  function ActOne(s: Store, a: AttemptId, item: Item): (Store, Outcome) {
    match TargetState(s, a, item)
    case No(reason) => (s, Reject(item.action, reason))
    case To(next) =>
      if item.faults.write then (s, Reject(item.action, ServerError)) else
      match Write(s, WriteFor(s, a, item, next))
      case Some(s') => (s', Applied(item.action.key, item.action.problem, ToApi(a.problem, next), false))
      case None =>
        if item.faults.replay then (s, Reject(item.action, ServerError))
        else match Replay(s.log, item.action) {
          case Some(outcome) => (s, outcome)
          case None => (s, Reject(item.action, ServerError))
        }
  }

  /** Why a problem takes no actions, if it does not. */
  function ClosedReason(comp: Competition, now: int, problem: string): Option<Reason> {
    if problem !in comp.eventOf then Some(UnknownProblem)
    else if comp.eventOf[problem] !in comp.endsAt then Some(WrongCompetition)
    else if now > comp.endsAt[comp.eventOf[problem]] then Some(EventClosed)
    else None
  }

  /** One pass of the batch loop. */
  function Perform(s: Store, comp: Competition, registration: string, now: int, item: Item): (Store, Outcome) {
    var problem := item.action.problem;
    if !item.faults.keyLookup && Replay(s.log, item.action).Some? then
      (s, Replay(s.log, item.action).value)
    else match ClosedReason(comp, now, problem) {
      case Some(reason) => (s, Reject(item.action, reason))
      case None => ActOne(s, AttemptId(registration, problem), item)
    }
  }

  /** The whole batch, in order: the final store and one outcome per item. */
  function Batch(s: Store, comp: Competition, registration: string, now: int, items: seq<Item>)
    : (r: (Store, seq<Outcome>))
    ensures |r.1| == |items|
  {
    if |items| == 0 then (s, []) else
      var n := |items| - 1;
      var (s1, outcomes) := Batch(s, comp, registration, now, items[..n]);
      var (s2, outcome) := Perform(s1, comp, registration, now, items[n]);
      (s2, outcomes + [outcome])
  }

  function AppliedOf(outcomes: seq<Outcome>): seq<Outcome>
  {
    if |outcomes| == 0 then [] else
      var n := |outcomes| - 1;
      AppliedOf(outcomes[..n]) + (if outcomes[n].Applied? then [outcomes[n]] else [])
  }

  function RejectedOf(outcomes: seq<Outcome>): seq<Outcome>
  {
    if |outcomes| == 0 then [] else
      var n := |outcomes| - 1;
      RejectedOf(outcomes[..n]) + (if outcomes[n].Rejected? then [outcomes[n]] else [])
  }

  function ProblemsOf(applied: seq<Outcome>): set<string>
  {
    set o | o in applied :: o.problem
  }

  lemma {:induction false} BatchSnoc(s: Store, comp: Competition, registration: string, now: int, items: seq<Item>, i: nat)
    requires i < |items|
    ensures var (s1, outcomes) := Batch(s, comp, registration, now, items[..i]);
            var (s2, outcome) := Perform(s1, comp, registration, now, items[i]);
            Batch(s, comp, registration, now, items[..i + 1]) == (s2, outcomes + [outcome])
  {
    assert items[..i + 1][..i] == items[..i];
  }

  lemma {:induction false} OutcomesSnoc(outcomes: seq<Outcome>, o: Outcome)
    ensures AppliedOf(outcomes + [o]) == AppliedOf(outcomes) + (if o.Applied? then [o] else [])
    ensures RejectedOf(outcomes + [o]) == RejectedOf(outcomes) + (if o.Rejected? then [o] else [])
    ensures o.Applied? ==> ProblemsOf(AppliedOf(outcomes + [o])) == ProblemsOf(AppliedOf(outcomes)) + {o.problem}
  {
    assert (outcomes + [o])[..|outcomes|] == outcomes;
    if o.Applied? {
      assert forall x :: x in AppliedOf(outcomes + [o]) <==> x in AppliedOf(outcomes) || x == o;
    }
  }

  datatype CompStatus = Draft | Open | Live | Closed | Archived

  /** A row read by id: there, not there, or the database fails. */
  datatype Lookup<+T> = Found(value: T) | Missing | LookupFails

  /** What SubmitActions knows when the request arrives, and what its own reads bring. */
  datatype Request = Request(
    validId: bool,
    status: Lookup<CompStatus>,
    caller: string,
    registration: Lookup<string>,
    withdrawn: bool,
    decodes: bool,
    items: seq<Item>,
    eventsFail: bool,
    problemsFail: bool,
    now: int,
    unreadable: set<string>)

  datatype HttpError = BadRequest | Unauthorized | Forbidden | NotFound | Internal

  const MAX_ACTIONS_PER_BATCH := 50

  /** The requests that reach the batch loop. */
  predicate Admissible(req: Request) {
    && req.validId && req.status.Found? && (req.status.value == Open || req.status.value == Live)
    && req.caller != "" && req.registration.Found? && !req.withdrawn
    && req.decodes && 0 < |req.items| <= MAX_ACTIONS_PER_BATCH
    && !req.eventsFail && !req.problemsFail
  }

  /** Whose fault a refusal may be: 500 only for a failed read, 404 only for a missing competition, 401
      only for an anonymous caller. */
  predicate RefusalOk(req: Request, error: HttpError) {
    match error
    case Internal => req.status.LookupFails? || req.registration.LookupFails? || req.eventsFail || req.problemsFail
    case NotFound => req.status.Missing?
    case Unauthorized => req.caller == ""
    case Forbidden =>
      || (req.status.Found? && req.status.value != Open && req.status.value != Live)
      || req.registration.Missing? || req.withdrawn
    case BadRequest => !req.validId || !req.decodes || |req.items| == 0 || |req.items| > MAX_ACTIONS_PER_BATCH
  }

  datatype Response =
    | Failed(error: HttpError)
    | Ok(applied: seq<Outcome>, rejected: seq<Outcome>, state: map<string, ApiState>)

  /** The body of a staff override. */
  datatype OverrideBody = OverrideBody(
    attempts: int,
    zoneAttempts: Option<int>,
    zoneReached: bool,
    topReached: bool,
    notes: Option<string>)

  predicate ValidOverride(body: OverrideBody) {
    body.attempts >= 0 && (body.zoneAttempts.Some? ==> body.zoneAttempts.value >= 0)
  }

  function OverrideState(body: OverrideBody): AttemptState {
    AttemptState(body.attempts, body.zoneAttempts, body.zoneReached, body.topReached, body.notes)
  }

  function OverrideInput(s: Store, a: AttemptId, body: OverrideBody, at: int): WriteInput {
    WriteInput(a, OverrideState(body), "override", None, Current(s, a), OverrideState(body), at)
  }

  /** Wholesale replacement of an existing attempt; carries no idempotency key. */
  function OverrideStep(s: Store, a: AttemptId, body: OverrideBody, writeFails: bool, at: int): Store {
    if a !in s.rows || !ValidOverride(body) || writeFails then s
    else match Write(s, OverrideInput(s, a, body, at)) {
      case Some(s') => s'
      case None => s
    }
  }

  /** An override request: what loading the attempt, its registration and its competition brings, and the
      caller's role at the location, if it is a member there. */
  datatype StaffRequest = StaffRequest(
    validId: bool,
    attemptFails: bool,
    registrationFails: bool,
    competition: Lookup<bool>,
    caller: string,
    role: Option<string>,
    decodes: bool,
    body: OverrideBody,
    writeFails: bool)

  predicate MayOverride(req: StaffRequest) {
    req.caller != "" && req.role.Some? && Team.RankValue(req.role.value) >= Team.RankValue(Team.SETTER)
  }

  /** The overrides that reach the write. */
  predicate OverrideAdmissible(s: Store, a: AttemptId, req: StaffRequest) {
    && req.validId && !req.attemptFails && a in s.rows && !req.registrationFails && req.competition.Found?
    && MayOverride(req) && req.decodes && ValidOverride(req.body)
  }

  class CompHandler {
    const repo: AttemptRepo

    constructor (repo: AttemptRepo)
      ensures this.repo == repo
    {
      this.repo := repo;
    }

    method ApplyOne(a: AttemptId, item: Item) returns (outcome: Outcome)
      modifies repo
      ensures (repo.Model(), outcome) == ActOne(old(repo.Model()), a, item)
    {
      if item.faults.read {
        return Reject(item.action, ServerError);
      }
      var current := if a in repo.rows then repo.rows[a] else ZERO_STATE;
      var newState;
      if item.action.kind == Undo {
        if a !in repo.rows {
          return Reject(item.action, NoHistory);
        }
        if item.faults.history {
          return Reject(item.action, ServerError);
        }
        var latest := Latest(repo.log, a);
        if latest.None? {
          return Reject(item.action, NoHistory);
        }
        newState := repo.log[latest.value].before;
      } else {
        var next := ComputeNewState(current, item.action.kind);
        if next.None? {
          return Reject(item.action, ServerError);
        }
        newState := next.value;
      }
      if item.faults.write {
        return Reject(item.action, ServerError);
      }
      var written := repo.ApplyAction(
        WriteInput(a, newState, Label(item.action.kind), item.action.key, current, newState, item.at));
      if !written {
        var replayed := Replay(repo.log, item.action);
        return if item.faults.replay || replayed.None? then Reject(item.action, ServerError)
               else replayed.value;
      }
      return Applied(item.action.key, item.action.problem, ToApi(a.problem, newState), false);
    }

    /** The checks before an action reaches its row. */
    method PerformItem(comp: Competition, registration: string, now: int, item: Item) returns (outcome: Outcome)
      modifies repo
      ensures (repo.Model(), outcome) == Perform(old(repo.Model()), comp, registration, now, item)
      ensures outcome.problem == item.action.problem
    {
      var problem := item.action.problem;
      if !item.faults.keyLookup {
        var cached := Replay(repo.log, item.action);
        if cached.Some? {
          return cached.value;
        }
      }
      if problem !in comp.eventOf {
        return Reject(item.action, UnknownProblem);
      }
      if comp.eventOf[problem] !in comp.endsAt {
        return Reject(item.action, WrongCompetition);
      }
      if now > comp.endsAt[comp.eventOf[problem]] {
        return Reject(item.action, EventClosed);
      }
      outcome := ApplyOne(AttemptId(registration, problem), item);
    }

    method ReadSnapshot(registration: string, touched: set<string>, unreadable: set<string>)
      returns (state: map<string, ApiState>)
      ensures state == Snapshot(repo.Model(), registration, touched - unreadable)
    {
      state := map[];
      var todo := touched;
      while todo != {}
        invariant todo <= touched
        invariant state == Snapshot(repo.Model(), registration, touched - todo - unreadable)
        decreases |todo|
      {
        var problem :| problem in todo;
        todo := todo - {problem};
        if problem !in unreadable {
          state := state[problem := ToApi(problem, Current(repo.Model(), AttemptId(registration, problem)))];
        }
      }
    }

    /** The batch loop: failures do not abort, and every outcome lands in one of the two lists. */
    method RunBatch(comp: Competition, registration: string, now: int, items: seq<Item>)
      returns (applied: seq<Outcome>, rejected: seq<Outcome>, touched: set<string>)
      modifies repo
      ensures var (s, outcomes) := Batch(old(repo.Model()), comp, registration, now, items);
              && repo.Model() == s
              && applied == AppliedOf(outcomes) && rejected == RejectedOf(outcomes)
              && touched == ProblemsOf(applied)
    {
      ghost var start := repo.Model();
      applied, rejected, touched := [], [], {};
      ghost var outcomes: seq<Outcome> := [];
      for i := 0 to |items|
        invariant Batch(start, comp, registration, now, items[..i]) == (repo.Model(), outcomes)
        invariant applied == AppliedOf(outcomes) && rejected == RejectedOf(outcomes)
        invariant touched == ProblemsOf(applied)
      {
        BatchSnoc(start, comp, registration, now, items, i);
        var outcome := PerformItem(comp, registration, now, items[i]);
        OutcomesSnoc(outcomes, outcome);
        if outcome.Applied? {
          applied := applied + [outcome];
          touched := touched + {items[i].action.problem};
        } else {
          rejected := rejected + [outcome];
        }
        outcomes := outcomes + [outcome];
      }
      assert items[..|items|] == items;
    }

    method SubmitActions(comp: Competition, req: Request) returns (resp: Response)
      modifies repo
      ensures resp.Failed? <==> !Admissible(req)
      ensures resp.Failed? ==> RefusalOk(req, resp.error) && repo.Model() == old(repo.Model())
      ensures resp.Ok? ==>
        var (s, outcomes) := Batch(old(repo.Model()), comp, req.registration.value, req.now, req.items);
        && repo.Model() == s
        && resp.applied == AppliedOf(outcomes) && resp.rejected == RejectedOf(outcomes)
        && resp.state == Snapshot(s, req.registration.value, ProblemsOf(resp.applied) - req.unreadable)
    {
      if !req.validId {
        return Failed(BadRequest);
      }
      if !req.status.Found? {
        return Failed(if req.status.Missing? then NotFound else Internal);
      }
      if req.status.value != Open && req.status.value != Live {
        return Failed(Forbidden);
      }
      if req.caller == "" {
        return Failed(Unauthorized);
      }
      if !req.registration.Found? {
        return Failed(if req.registration.Missing? then Forbidden else Internal);
      }
      if req.withdrawn {
        return Failed(Forbidden);
      }
      if !req.decodes || |req.items| == 0 || |req.items| > MAX_ACTIONS_PER_BATCH {
        return Failed(BadRequest);
      }
      if req.eventsFail || req.problemsFail {
        return Failed(Internal);
      }
      var registration := req.registration.value;
      var applied, rejected, touched := RunBatch(comp, registration, req.now, req.items);
      var state := ReadSnapshot(registration, touched, req.unreadable);
      return Ok(applied, rejected, state);
    }

    /** Setter or above at the competition's location; None is success. */
    method OverrideAttempt(a: AttemptId, req: StaffRequest, at: int) returns (error: Option<HttpError>)
      modifies repo
      ensures error.None? <==> OverrideAdmissible(old(repo.Model()), a, req) && !req.writeFails
      ensures error.Some? ==> repo.Model() == old(repo.Model())
      ensures error.None? ==>
        && a in repo.rows && repo.rows == old(repo.rows)[a := repo.rows[a]]
        && repo.rows[a].attempts == req.body.attempts && repo.rows[a].zoneAttempts == req.body.zoneAttempts
        && repo.rows[a].zoneReached == req.body.zoneReached && repo.rows[a].topReached == req.body.topReached
        && repo.rows[a].notes == req.body.notes
        && repo.Model() == OverrideStep(old(repo.Model()), a, req.body, false, at)
      ensures error == Some(NotFound) ==> a !in old(repo.rows) || req.competition.Missing?
      ensures error == Some(Forbidden) ==> !MayOverride(req)
    {
      if !req.validId {
        return Some(BadRequest);
      }
      if req.attemptFails {
        return Some(Internal);
      }
      if a !in repo.rows {
        return Some(NotFound);
      }
      if req.registrationFails {
        return Some(Internal);
      }
      if !req.competition.Found? {
        return Some(if req.competition.Missing? then NotFound else Internal);
      }
      if req.caller == "" {
        return Some(Unauthorized);
      }
      if req.role.None? {
        return Some(Forbidden);
      }
      var allowed := Team.HasAnyRole(req.role.value, [Team.SETTER]);
      assert allowed ==> Team.SETTER in [Team.SETTER];
      if !allowed {
        assert [Team.SETTER][0] == Team.SETTER;
        return Some(Forbidden);
      }
      if !req.decodes || !ValidOverride(req.body) || req.writeFails {
        return Some(if req.decodes && ValidOverride(req.body) then Internal else BadRequest);
      }
      var written := repo.ApplyAction(OverrideInput(repo.Model(), a, req.body, at));
      assert written;
      return None;
    }
  }

  /** The state section of the response: the current row of every problem listed. */
  function Snapshot(s: Store, registration: string, problems: set<string>): map<string, ApiState> {
    map p | p in problems :: ToApi(p, Current(s, AttemptId(registration, p)))
  }
}
