/** The two tables behind a climber's scorecard: the current attempt rows and the append-only
    action log (internal/repository/competition_attempt.go). */
module AttemptStore {
  import opened Wrappers

  datatype AttemptState = AttemptState(
    attempts: int,
    zoneAttempts: Option<int>,
    zoneReached: bool,
    topReached: bool,
    notes: Option<string>)

  const ZERO_STATE := AttemptState(0, None, false, false, None)

  /** An attempt row is unique per registration and problem and is never deleted here, so the pair
      serves as its id. */
  datatype AttemptId = AttemptId(registration: string, problem: string)

  datatype LogEntry = LogEntry(
    attempt: AttemptId,
    action: string,
    before: AttemptState,
    after: AttemptState,
    key: Option<string>,
    at: int)

  datatype Store = Store(rows: map<AttemptId, AttemptState>, log: seq<LogEntry>)

  const EMPTY_STORE := Store(map[], [])

  datatype WriteInput = WriteInput(
    attempt: AttemptId,
    newState: AttemptState,
    action: string,
    key: Option<string>,
    before: AttemptState,
    after: AttemptState,
    at: int)

  /** The row an attempt currently has, or the zero state for a problem never touched. */
  function Current(s: Store, a: AttemptId): AttemptState {
    if a in s.rows then s.rows[a] else ZERO_STATE
  }

  /** The position of the log entry that carries a key, if any. */
  function FindKey(log: seq<LogEntry>, key: string): (r: Option<nat>)
    ensures r.Some? ==> r.value < |log| && log[r.value].key == Some(key)
    ensures r.None? ==> forall i :: 0 <= i < |log| ==> log[i].key != Some(key)
  {
    if |log| == 0 then None
    else if log[|log| - 1].key == Some(key) then Some(|log| - 1)
    else FindKey(log[..|log| - 1], key)
  }

  predicate KeyUsed(log: seq<LogEntry>, key: Option<string>) {
    key.Some? && FindKey(log, key.value).Some?
  }

  /** The position of the entry of one attempt that is last by (at, id): ORDER BY at DESC, id DESC. */
  function Latest(log: seq<LogEntry>, a: AttemptId): (r: Option<nat>)
    ensures r.Some? ==> r.value < |log| && log[r.value].attempt == a
  {
    if |log| == 0 then None
    else
      var n := |log| - 1;
      var r := Latest(log[..n], a);
      if log[n].attempt == a && (r.None? || log[r.value].at <= log[n].at) then Some(n) else r
  }

  lemma {:induction false} LatestIsNewest(log: seq<LogEntry>, a: AttemptId)
    ensures Latest(log, a).None? <==> forall i :: 0 <= i < |log| ==> log[i].attempt != a
    ensures var r := Latest(log, a);
            r.Some? ==> forall i :: 0 <= i < |log| && log[i].attempt == a ==>
              log[i].at < log[r.value].at || (log[i].at == log[r.value].at && i <= r.value)
  {
    if |log| > 0 {
      LatestIsNewest(log[..|log| - 1], a);
    }
  }

  function Entry(input: WriteInput): LogEntry {
    LogEntry(input.attempt, input.action, input.before, input.after, input.key, input.at)
  }

  /** The write transaction: upsert the row and append the entry, or refuse a key already logged. */
  function Write(s: Store, input: WriteInput): Option<Store> {
    if KeyUsed(s.log, input.key) then None
    else Some(Store(s.rows[input.attempt := input.newState], s.log + [Entry(input)]))
  }

  /** What the partial unique index on idempotency_key maintains. */
  ghost predicate UniqueKeys(log: seq<LogEntry>) {
    forall i, j :: 0 <= i < j < |log| && log[i].key.Some? ==> log[i].key != log[j].key
  }

  lemma {:induction false} UniqueKeyIsFound(log: seq<LogEntry>, i: nat)
    requires UniqueKeys(log) && i < |log| && log[i].key.Some?
    ensures FindKey(log, log[i].key.value) == Some(i)
  {
  }

  class AttemptRepo {
    var rows: map<AttemptId, AttemptState>
    var log: seq<LogEntry>

    function Model(): Store
      reads this
    {
      Store(rows, log)
    }

    constructor ()
      ensures Model() == EMPTY_STORE
    {
      rows, log := map[], [];
    }

    /** Upsert first, insert the log entry second; the unique index rolls the upsert back. */
    method ApplyAction(input: WriteInput) returns (applied: bool)
      modifies this
      ensures applied <==> !KeyUsed(old(log), input.key)
      ensures !applied ==> Model() == old(Model())
      ensures applied ==> Write(old(Model()), input) == Some(Model())
    {
      var savedRows := rows;
      rows := rows[input.attempt := input.newState];
      if KeyUsed(log, input.key) {
        rows := savedRows;
        return false;
      }
      log := log + [Entry(input)];
      return true;
    }
  }

  /** A refused write changes nothing; an accepted one appends exactly one entry and touches one row. */
  lemma {:induction false} WriteFrame(s: Store, input: WriteInput)
    requires UniqueKeys(s.log)
    ensures Write(s, input).None? <==>
            input.key.Some? && exists i :: 0 <= i < |s.log| && s.log[i].key == input.key
    ensures var r := Write(s, input);
            r.Some? ==> UniqueKeys(r.value.log)
                        && r.value.log[..|s.log|] == s.log && |r.value.log| == |s.log| + 1
                        && (forall a :: a != input.attempt ==> (a in r.value.rows <==> a in s.rows))
                        && (forall a :: a != input.attempt && a in s.rows ==> r.value.rows[a] == s.rows[a])
  {
  }
}
