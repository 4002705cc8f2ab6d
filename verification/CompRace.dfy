/** Concurrent requests: the reads and the write of one action are separate database calls, so those
    of different clients interleave. Idempotency keys still apply at most once; the log chain does
    not survive. */
module CompRace {
  import opened Wrappers
  import opened AttemptStore
  import opened CompActions
  import opened CompHistory

  /** How far a client has got with its action. */
  datatype Phase =
    | Admitted(a: AttemptId, item: Item)
    | HasRead(a: AttemptId, item: Item, row: Option<AttemptState>)
    | Ready(item: Item, input: WriteInput)
    | Collided(item: Item)
    | Staff(input: WriteInput)

  datatype Reply = Reply(action: Action, outcome: Outcome)

  datatype World = World(store: Store, clients: map<nat, Phase>, replies: seq<Reply>)

  const START := World(EMPTY_STORE, map[], [])

  datatype Move =
    | Begin(c: nat, comp: Competition, registration: string, now: int, item: Item)
    | BeginOverride(c: nat, a: AttemptId, body: OverrideBody, at: int)
    | Advance(c: nat)

  function Answer(w: World, c: nat, action: Action, outcome: Outcome): World {
    World(w.store, w.clients - {c}, w.replies + [Reply(action, outcome)])
  }

  function GoTo(w: World, c: nat, phase: Phase): World {
    World(w.store, w.clients[c := phase], w.replies)
  }

  /** The read of the newest log entry (undo) or the state computation (everything else). */
  function Decide(w: World, c: nat, a: AttemptId, item: Item, row: Option<AttemptState>): World {
    var current := if row.Some? then row.value else ZERO_STATE;
    var target :=
      if item.action.kind == Undo then
        if row.None? then No(NoHistory)
        else if item.faults.history then No(ServerError)
        else if Latest(w.store.log, a).None? then No(NoHistory)
        else CompActions.To(w.store.log[Latest(w.store.log, a).value].before)
      else match ComputeNewState(current, item.action.kind) {
        case None => No(ServerError)
        case Some(next) => CompActions.To(next)
      };
    match target
    case No(reason) => Answer(w, c, item.action, Reject(item.action, reason))
    case To(next) =>
      GoTo(w, c, Ready(item, WriteInput(a, next, Label(item.action.kind), item.action.key, current, next, item.at)))
  }

  /** One database call of one client. */
  function Step(w: World, m: Move): World {
    match m
    case Begin(c, comp, registration, now, item) =>
      if c in w.clients then w
      else if !item.faults.keyLookup && Replay(w.store.log, item.action).Some? then
        Answer(w, c, item.action, Replay(w.store.log, item.action).value)
      else (match ClosedReason(comp, now, item.action.problem)
            case Some(reason) => Answer(w, c, item.action, Reject(item.action, reason))
            case None => GoTo(w, c, Admitted(AttemptId(registration, item.action.problem), item)))
    case BeginOverride(c, a, body, at) =>
      if c in w.clients || a !in w.store.rows || !ValidOverride(body) then w
      else GoTo(w, c, Staff(OverrideInput(w.store, a, body, at)))
    case Advance(c) =>
      if c !in w.clients then w else
      match w.clients[c]
      case Admitted(a, item) =>
        if item.faults.read then Answer(w, c, item.action, Reject(item.action, ServerError))
        else GoTo(w, c, HasRead(a, item, if a in w.store.rows then Some(w.store.rows[a]) else None))
      case HasRead(a, item, row) => Decide(w, c, a, item, row)
      case Ready(item, input) =>
        if item.faults.write then Answer(w, c, item.action, Reject(item.action, ServerError)) else
        (match Write(w.store, input)
         case Some(store) =>
           Answer(w.(store := store), c, item.action,
             Applied(item.action.key, item.action.problem, ToApi(item.action.problem, input.newState), false))
         case None => GoTo(w, c, Collided(item)))
      case Collided(item) =>
        if item.faults.replay then Answer(w, c, item.action, Reject(item.action, ServerError)) else
        (match Replay(w.store.log, item.action)
         case Some(outcome) => Answer(w, c, item.action, outcome)
         case None => Answer(w, c, item.action, Reject(item.action, ServerError)))
      case Staff(input) =>
        (match Write(w.store, input)
         case Some(store) => World(store, w.clients - {c}, w.replies)
         case None => World(w.store, w.clients - {c}, w.replies))
  }

  function Interleave(w: World, moves: seq<Move>): World {
    if |moves| == 0 then w else Step(Interleave(w, moves[..|moves| - 1]), moves[|moves| - 1])
  }

  /** What a pending write will log is what its reply will report. */
  ghost predicate PhaseOk(p: Phase) {
    match p
    case Ready(item, input) => input.key == item.action.key && input.after == input.newState
    case Staff(input) => input.key.None? && input.after == input.newState
    case _ => true
  }

  /** A keyed reply that reports success is what the log says about the key. */
  ghost predicate Backed(log: seq<LogEntry>, r: Reply) {
    r.outcome.Applied? && r.action.key.Some? ==>
      Replay(log, r.action) == Some(Applied(r.action.key, r.action.problem, r.outcome.state, true))
  }

  ghost predicate Fresh(r: Reply) {
    r.outcome.Applied? && !r.outcome.replayed && r.action.key.Some?
  }

  ghost predicate Inv(w: World) {
    && UniqueKeys(w.store.log)
    && (forall c :: c in w.clients ==> PhaseOk(w.clients[c]))
    && (forall i :: 0 <= i < |w.replies| ==> Backed(w.store.log, w.replies[i]))
    && (forall i, j :: 0 <= i < j < |w.replies| && Fresh(w.replies[i]) && Fresh(w.replies[j]) ==>
          w.replies[i].action.key != w.replies[j].action.key)
  }

  // ---- What a request does ----

  /** A request that nobody disturbs between its database calls does exactly what the sequential handler does,
      and answers the same. */
  lemma {:induction false} UndisturbedIsSequential(w: World, c: nat, comp: Competition, registration: string, now: int,
      item: Item)
    requires c !in w.clients
    ensures var w0 := Step(w, Begin(c, comp, registration, now, item));
            var w4 := Step(Step(Step(Step(w0, Advance(c)), Advance(c)), Advance(c)), Advance(c));
            var (s, outcome) := Perform(w.store, comp, registration, now, item);
            w4.store == s && w4.clients == w.clients && w4.replies == w.replies + [Reply(item.action, outcome)]
  {
    var w0 := Step(w, Begin(c, comp, registration, now, item));
    if c in w0.clients {
      var a := AttemptId(registration, item.action.problem);
      AdmittedIsSequential(w0, c, a, item);
      assert w0.clients - {c} == w.clients;
    } else {
      assert w0.clients == w.clients;
    }
  }

  /** Two states that agree on the store, the replies and the other clients. */
  ghost predicate Answered(w: World, w': World, c: nat, action: Action, s: Store, outcome: Outcome) {
    w'.store == s && w'.clients == w.clients - {c} && w'.replies == w.replies + [Reply(action, outcome)]
  }

  lemma {:induction false} AdmittedIsSequential(w: World, c: nat, a: AttemptId, item: Item)
    requires c in w.clients && w.clients[c] == Admitted(a, item) && a.problem == item.action.problem
    ensures var w4 := Step(Step(Step(Step(w, Advance(c)), Advance(c)), Advance(c)), Advance(c));
            var (s, outcome) := ActOne(w.store, a, item);
            Answered(w, w4, c, item.action, s, outcome)
  {
    var w1 := Step(w, Advance(c));
    if c in w1.clients {
      var row := if a in w.store.rows then Some(w.store.rows[a]) else None;
      assert w1 == GoTo(w, c, HasRead(a, item, row));
      var w2 := Step(w1, Advance(c));
      DecidesTarget(w1, c, a, item, row);
      if c in w2.clients {
        ReadyIsSequential(w2, c, a, item);
        assert w2.clients - {c} == w.clients - {c};
      } else {
        assert w1.clients - {c} == w.clients - {c};
      }
    }
  }

  lemma {:induction false} DecidesTarget(w: World, c: nat, a: AttemptId, item: Item, row: Option<AttemptState>)
    requires c in w.clients && w.clients[c] == HasRead(a, item, row) && !item.faults.read
    requires row == if a in w.store.rows then Some(w.store.rows[a]) else None
    ensures var w' := Step(w, Advance(c));
            match TargetState(w.store, a, item)
            case No(reason) => Answered(w, w', c, item.action, w.store, Reject(item.action, reason))
            case To(next) => w' == GoTo(w, c, Ready(item, WriteFor(w.store, a, item, next)))
  {
  }

  lemma {:induction false} ReadyIsSequential(w: World, c: nat, a: AttemptId, item: Item)
    requires c in w.clients && a.problem == item.action.problem && TargetState(w.store, a, item).To?
    requires w.clients[c] == Ready(item, WriteFor(w.store, a, item, TargetState(w.store, a, item).state))
    ensures var (s, outcome) := ActOne(w.store, a, item);
            Answered(w, Step(Step(w, Advance(c)), Advance(c)), c, item.action, s, outcome)
  {
    var w1 := Step(w, Advance(c));
    if c in w1.clients {
      assert w1 == GoTo(w, c, Collided(item));
      assert w1.clients - {c} == w.clients - {c};
    }
  }

  /** The state logged as After is what the named action makes of the state logged as Before; undo and override
      may go anywhere. */
  ghost predicate MeansItsAction(action: string, before: AttemptState, after: AttemptState) {
    && (action == "increment" ==> Makes(Increment, before, after))
    && (action == "zone" ==> Makes(Zone, before, after))
    && (action == "top" ==> Makes(Top, before, after))
    && (action == "reset" ==> Makes(Reset, before, after))
  }

  ghost predicate PhaseMeans(p: Phase) {
    match p
    case Ready(item, input) => MeansItsAction(input.action, input.before, input.after)
    case Staff(input) => MeansItsAction(input.action, input.before, input.after)
    case _ => true
  }

  ghost predicate WorldMeans(w: World) {
    && (forall c :: c in w.clients ==> PhaseMeans(w.clients[c]))
    && forall e :: e in w.store.log ==> MeansItsAction(e.action, e.before, e.after)
  }

  lemma {:induction false} ComputedMeans(found: AttemptState, kind: ActionType)
    requires ComputeNewState(found, kind).Some?
    ensures MeansItsAction(Label(kind), found, ComputeNewState(found, kind).value)
  {
  }

  lemma {:induction false} DecisionMeans(w: World, c: nat, a: AttemptId, item: Item, row: Option<AttemptState>)
    requires WorldMeans(w)
    ensures WorldMeans(Decide(w, c, a, item, row))
  {
    var found := if row.Some? then row.value else ZERO_STATE;
    if ComputeNewState(found, item.action.kind).Some? {
      ComputedMeans(found, item.action.kind);
    }
  }

  lemma {:induction false} WriteMeans(s: Store, input: WriteInput)
    requires MeansItsAction(input.action, input.before, input.after) && Write(s, input).Some?
    requires forall e :: e in s.log ==> MeansItsAction(e.action, e.before, e.after)
    ensures forall e :: e in Write(s, input).value.log ==> MeansItsAction(e.action, e.before, e.after)
  {
  }

  lemma {:induction false} StepMeans(w: World, m: Move)
    requires WorldMeans(w)
    ensures WorldMeans(Step(w, m))
  {
    if m.Advance? && m.c in w.clients {
      match w.clients[m.c]
      case HasRead(a, item, row) => DecisionMeans(w, m.c, a, item, row);
      case Ready(item, input) =>
        if Write(w.store, input).Some? {
          WriteMeans(w.store, input);
        }
      case Staff(input) =>
        if Write(w.store, input).Some? {
          WriteMeans(w.store, input);
        }
      case _ =>
    }
  }

  /** In every interleaving every log entry means what its action says: whatever else happens between a
      request's read and its write, it makes of the row it read what its kind means. */
  lemma {:induction false} EveryEntryMeansItsAction(moves: seq<Move>)
    ensures forall e :: e in Interleave(START, moves).store.log ==> MeansItsAction(e.action, e.before, e.after)
    ensures WorldMeans(Interleave(START, moves))
  {
    if |moves| > 0 {
      EveryEntryMeansItsAction(moves[..|moves| - 1]);
      StepMeans(Interleave(START, moves[..|moves| - 1]), moves[|moves| - 1]);
    }
  }

  // ---- Keys in every interleaving ----

  lemma {:induction false} BackedStays(log: seq<LogEntry>, e: LogEntry, r: Reply)
    requires UniqueKeys(log + [e]) && Backed(log, r)
    ensures Backed(log + [e], r)
  {
    if r.outcome.Applied? && r.action.key.Some? {
      var i := FindKey(log, r.action.key.value).value;
      assert (log + [e])[i] == log[i];
      UniqueKeyIsFound(log + [e], i);
    }
  }

  lemma {:induction false} CommitKeepsInv(w: World, c: nat, item: Item, input: WriteInput)
    requires Inv(w) && c in w.clients && w.clients[c] == Ready(item, input)
    ensures Inv(Step(w, Advance(c)))
  {
    WriteFrame(w.store, input);
    var written := Write(w.store, input);
    if written.Some? {
      var log := w.store.log;
      assert written.value.log == log + [Entry(input)];
      forall i | 0 <= i < |w.replies| ensures Backed(written.value.log, w.replies[i]) {
        BackedStays(log, Entry(input), w.replies[i]);
      }
      if input.key.Some? {
        UniqueKeyIsFound(written.value.log, |log|);
        forall i | 0 <= i < |w.replies| && Fresh(w.replies[i]) ensures w.replies[i].action.key != input.key {
          assert Backed(log, w.replies[i]);
        }
      }
    }
  }

  lemma {:induction false} StaffKeepsInv(w: World, c: nat, input: WriteInput)
    requires Inv(w) && c in w.clients && w.clients[c] == Staff(input)
    ensures Inv(Step(w, Advance(c)))
  {
    WriteFrame(w.store, input);
    var written := Write(w.store, input);
    if written.Some? {
      forall i | 0 <= i < |w.replies| ensures Backed(written.value.log, w.replies[i]) {
        BackedStays(w.store.log, Entry(input), w.replies[i]);
      }
    }
  }

  lemma {:induction false} StepKeepsInv(w: World, m: Move)
    requires Inv(w)
    ensures Inv(Step(w, m))
  {
    match m
    case Begin(c, comp, registration, now, item) =>
    case BeginOverride(c, a, body, at) =>
    case Advance(c) =>
      if c in w.clients {
        match w.clients[c]
        case Admitted(a, item) =>
        case HasRead(a, item, row) =>
        case Ready(item, input) => CommitKeepsInv(w, c, item, input);
        case Collided(item) =>
        case Staff(input) => StaffKeepsInv(w, c, input);
      }
  }

  lemma {:induction false} EveryInterleavingKeepsInv(moves: seq<Move>)
    ensures Inv(Interleave(START, moves))
  {
    if |moves| > 0 {
      EveryInterleavingKeepsInv(moves[..|moves| - 1]);
      StepKeepsInv(Interleave(START, moves[..|moves| - 1]), moves[|moves| - 1]);
    }
  }

  /** In every interleaving: a key has at most one log entry, at most one reply reports it freshly
      applied, and all successful replies to the key report the same state. */
  lemma {:induction false} ExactlyOnce(moves: seq<Move>, i: nat, j: nat)
    requires var w := Interleave(START, moves);
             i < j < |w.replies|
             && w.replies[i].outcome.Applied? && w.replies[j].outcome.Applied?
             && w.replies[i].action.key.Some? && w.replies[i].action.key == w.replies[j].action.key
    ensures var w := Interleave(START, moves);
            var o1, o2 := w.replies[i].outcome, w.replies[j].outcome;
            && (o1.replayed || o2.replayed)
            && o1.state == o2.state.(problem := o1.state.problem)
            && exists k :: 0 <= k < |w.store.log| && w.store.log[k].key == w.replies[i].action.key
                 && o1.state == ToApi(o1.state.problem, w.store.log[k].after)
                 && forall k' :: 0 <= k' < |w.store.log| && k' != k ==> w.store.log[k'].key != w.replies[i].action.key
  {
    EveryInterleavingKeepsInv(moves);
    var w := Interleave(START, moves);
    assert Backed(w.store.log, w.replies[i]) && Backed(w.store.log, w.replies[j]);
    var k := FindKey(w.store.log, w.replies[i].action.key.value).value;
    assert w.store.log[k].key == w.replies[i].action.key;
  }

  // ---- Exactly when the log stays a chain ----

  /** The write a client is about to make, if the database lets it. */
  function PendingWrite(w: World, m: Move): Option<WriteInput> {
    if !m.Advance? || m.c !in w.clients then None
    else match w.clients[m.c]
      case Ready(item, input) => if item.faults.write || Write(w.store, input).None? then None else Some(input)
      case Staff(input) => if Write(w.store, input).None? then None else Some(input)
      case _ => None
  }

  /** A write whose Before is no longer the row it overwrites. */
  predicate StaleCommit(w: World, m: Move) {
    var input := PendingWrite(w, m);
    input.Some? && input.value.before != Current(w.store, input.value.attempt)
  }

  predicate NoStale(moves: seq<Move>) {
    forall i :: 0 <= i < |moves| ==> !StaleAt(moves, i)
  }

  ghost predicate Broken(s: Store) {
    exists a :: !IsChain(History(s.log, a))
  }

  /** A move changes the store only by its pending write. */
  lemma {:induction false} StoreAfter(w: World, m: Move)
    ensures var input := PendingWrite(w, m);
            Step(w, m).store == if input.Some? then Write(w.store, input.value).value else w.store
  {
  }

  lemma {:induction false} FreshCommitKeepsChained(w: World, m: Move)
    requires Inv(w) && Chained(w.store) && !StaleCommit(w, m)
    ensures Chained(Step(w, m).store)
  {
    StoreAfter(w, m);
    var input := PendingWrite(w, m);
    if input.Some? {
      assert PhaseOk(w.clients[m.c]);
      WriteKeepsChained(w.store, Step(w, m).store, Entry(input.value));
    }
  }

  lemma {:induction false} StaleCommitBreaks(w: World, m: Move)
    requires Chained(w.store) && StaleCommit(w, m)
    ensures Broken(Step(w, m).store)
  {
    StoreAfter(w, m);
    var e := Entry(PendingWrite(w, m).value);
    var h := History(w.store.log, e.attempt);
    assert ChainedAt(w.store, e.attempt);
    HistorySnoc(w.store.log, e, e.attempt);
    var h' := History(Step(w, m).store.log, e.attempt);
    assert h' == h + [e];
    assert h'[|h|].before != (if |h| > 0 then h'[|h| - 1].after else ZERO_STATE);
    assert !IsChain(h');
  }

  lemma {:induction false} BrokenSnoc(log: seq<LogEntry>, e: LogEntry, a: AttemptId)
    requires !IsChain(History(log, a))
    ensures !IsChain(History(log + [e], a))
  {
    HistorySnoc(log, e, a);
    if IsChain(History(log + [e], a)) {
      PrefixOfChain(History(log, a), History(log + [e], a));
    }
  }

  lemma {:induction false} BrokenStays(w: World, m: Move)
    requires Broken(w.store)
    ensures Broken(Step(w, m).store)
  {
    StoreAfter(w, m);
    var s' := Step(w, m).store;
    var input := PendingWrite(w, m);
    if input.Some? {
      assert s'.log == w.store.log + [Entry(input.value)];
      var a :| !IsChain(History(w.store.log, a));
      BrokenSnoc(w.store.log, Entry(input.value), a);
      assert !IsChain(History(s'.log, a));
    }
  }

  lemma {:induction false} PrefixOfChain(h: seq<LogEntry>, longer: seq<LogEntry>)
    requires h <= longer && IsChain(longer)
    ensures IsChain(h)
  {
  }

  predicate StaleAt(moves: seq<Move>, i: nat)
    requires i < |moves|
  {
    StaleCommit(Interleave(START, moves[..i]), moves[i])
  }

  lemma {:induction false} NoStaleSnoc(moves: seq<Move>)
    requires |moves| > 0
    ensures NoStale(moves) <==> NoStale(moves[..|moves| - 1]) && !StaleAt(moves, |moves| - 1)
  {
    var n := |moves| - 1;
    forall i | 0 <= i < n ensures StaleAt(moves[..n], i) == StaleAt(moves, i) {
      assert moves[..n][..i] == moves[..i];
    }
  }

  /** In every interleaving the logs are gap-free chains that end in the current rows if and only if no
      write overwrote a row other than the one it had read; otherwise some attempt's log is broken for
      good. */
  lemma {:induction false} ChainedIffNoStale(moves: seq<Move>)
    ensures var s := Interleave(START, moves).store;
            if NoStale(moves) then Chained(s) else Broken(s) && !Chained(s)
  {
    if |moves| > 0 {
      var n := |moves| - 1;
      var w := Interleave(START, moves[..n]);
      ChainedIffNoStale(moves[..n]);
      EveryInterleavingKeepsInv(moves[..n]);
      NoStaleSnoc(moves);
      if NoStale(moves) {
        FreshCommitKeepsChained(w, moves[n]);
      } else {
        if NoStale(moves[..n]) {
          StaleCommitBreaks(w, moves[n]);
        } else {
          BrokenStays(w, moves[n]);
        }
        BrokenIsNotChained(Interleave(START, moves).store);
      }
    }
  }

  lemma {:induction false} BrokenIsNotChained(s: Store)
    requires Broken(s)
    ensures !Chained(s)
  {
    var a :| !IsChain(History(s.log, a));
    assert !ChainedAt(s, a);
  }

  // ---- One client at a time per attempt ----

  /** The attempt a client has read and may still write. */
  function Holding(p: Phase): Option<AttemptId> {
    match p
    case HasRead(a, item, row) => Some(a)
    case Ready(item, input) => Some(input.attempt)
    case Staff(input) => Some(input.attempt)
    case _ => None
  }

  /** No two clients are between their read and their write of one attempt. */
  predicate Exclusive(w: World) {
    forall c, d :: c in w.clients && d in w.clients && c != d && Holding(w.clients[c]).Some? ==>
      Holding(w.clients[c]) != Holding(w.clients[d])
  }

  predicate ReadIsFresh(s: Store, p: Phase) {
    match p
    case HasRead(a, item, row) => row == if a in s.rows then Some(s.rows[a]) else None
    case Ready(item, input) => input.before == Current(s, input.attempt)
    case Staff(input) => input.before == Current(s, input.attempt)
    case _ => true
  }

  predicate AllFresh(w: World) {
    forall c :: c in w.clients ==> ReadIsFresh(w.store, w.clients[c])
  }

  lemma {:induction false} MoverStaysFresh(w: World, m: Move, c: nat)
    requires AllFresh(w) && c in Step(w, m).clients && Step(w, m).store == w.store
    ensures ReadIsFresh(w.store, Step(w, m).clients[c])
  {
  }

  lemma {:induction false} OthersStay(w: World, m: Move, c: nat)
    requires PendingWrite(w, m).Some? && c in Step(w, m).clients
    ensures c != m.c && c in w.clients && Step(w, m).clients[c] == w.clients[c]
  {
  }

  lemma {:induction false} StepKeepsFresh(w: World, m: Move)
    requires AllFresh(w) && Exclusive(w)
    ensures AllFresh(Step(w, m)) && !StaleCommit(w, m)
  {
    var w' := Step(w, m);
    StoreAfter(w, m);
    forall c | c in w'.clients ensures ReadIsFresh(w'.store, w'.clients[c]) {
      if PendingWrite(w, m).Some? {
        OthersStay(w, m, c);
        assert Holding(w.clients[c]) != Holding(w.clients[m.c]);
      } else {
        MoverStaysFresh(w, m, c);
      }
    }
  }

  lemma {:induction false} ExclusiveIsFresh(moves: seq<Move>)
    requires forall i :: 0 <= i < |moves| ==> Exclusive(Interleave(START, moves[..i]))
    ensures AllFresh(Interleave(START, moves)) && NoStale(moves)
  {
    if |moves| > 0 {
      var n := |moves| - 1;
      assert forall i :: 0 <= i < n ==> moves[..n][..i] == moves[..i];
      ExclusiveIsFresh(moves[..n]);
      StepKeepsFresh(Interleave(START, moves[..n]), moves[n]);
      NoStaleSnoc(moves);
    }
  }

  /** Requests may overlap in any way as long as no two of them are between reading and writing the same
      attempt: then every log is a chain, as in sequential runs. */
  lemma {:induction false} OneAtATimeKeepsChains(moves: seq<Move>)
    requires forall i :: 0 <= i < |moves| ==> Exclusive(Interleave(START, moves[..i]))
    ensures Chained(Interleave(START, moves).store)
  {
    ExclusiveIsFresh(moves);
    ChainedIffNoStale(moves);
  }

  // ---- A lost update ----

  const PROBLEM := AttemptId("reg", "p1")

  const ONE_PROBLEM := Competition(map["p1" := "e1"], map["e1" := 10])

  function Increments(at: int): Item {
    Item(Action(Increment, "p1", None), NO_FAULTS, at)
  }

  const BEGUN: seq<Move> :=
    [Begin(0, ONE_PROBLEM, "reg", 0, Increments(1))] + [Begin(1, ONE_PROBLEM, "reg", 0, Increments(2))]

  const READ: seq<Move> := BEGUN + [Advance(0)] + [Advance(1)]

  const DECIDED: seq<Move> := READ + [Advance(0)] + [Advance(1)]

  /** Two increments of one attempt whose reads both come before either write. */
  const LOST_UPDATE: seq<Move> := DECIDED + [Advance(0)] + [Advance(1)]

  const ONE := ZERO_STATE.(attempts := 1)

  function IncrementInput(at: int): WriteInput {
    WriteInput(PROBLEM, ONE, "increment", None, ZERO_STATE, ONE, at)
  }

  lemma {:induction false} Push(moves: seq<Move>, m: Move)
    ensures Interleave(START, moves + [m]) == Step(Interleave(START, moves), m)
  {
  }

  lemma AfterBegin()
    ensures Interleave(START, BEGUN) ==
            World(EMPTY_STORE, map[0 := Admitted(PROBLEM, Increments(1)), 1 := Admitted(PROBLEM, Increments(2))], [])
  {
    var m0 := Begin(0, ONE_PROBLEM, "reg", 0, Increments(1));
    var m1 := Begin(1, ONE_PROBLEM, "reg", 0, Increments(2));
    assert Interleave(START, []) == START && [] + [m0] == [m0];
    Push([], m0);
    Push([m0], m1);
  }

  lemma AfterRead()
    ensures Interleave(START, READ) ==
            World(EMPTY_STORE, map[0 := HasRead(PROBLEM, Increments(1), None), 1 := HasRead(PROBLEM, Increments(2), None)], [])
  {
    AfterBegin();
    Push(BEGUN, Advance(0));
    Push(BEGUN + [Advance(0)], Advance(1));
  }

  lemma AfterDecision()
    ensures Interleave(START, DECIDED) ==
            World(EMPTY_STORE,
              map[0 := Ready(Increments(1), IncrementInput(1)), 1 := Ready(Increments(2), IncrementInput(2))], [])
  {
    AfterRead();
    Push(READ, Advance(0));
    Push(READ + [Advance(0)], Advance(1));
  }

  /** Both increments are logged, but the row counts one attempt and the log is no chain: the chain
      theorem needs the sequential runs it is stated for. */
  lemma LostUpdateBreaksChain()
    ensures var s := Interleave(START, LOST_UPDATE).store;
            |s.log| == 2 && Current(s, PROBLEM).attempts == 1 && !Chained(s)
  {
    AfterDecision();
    Push(DECIDED, Advance(0));
    Push(DECIDED + [Advance(0)], Advance(1));
    var e1, e2 := Entry(IncrementInput(1)), Entry(IncrementInput(2));
    var s := Interleave(START, LOST_UPDATE).store;
    assert s.log == [] + [e1] + [e2] && Current(s, PROBLEM) == ONE;
    NoChain(s, e1, e2);
  }

  lemma {:induction false} NoChain(s: Store, e1: LogEntry, e2: LogEntry)
    requires s.log == [] + [e1] + [e2] && e1.attempt == e2.attempt && e2.before != e1.after
    ensures !Chained(s)
  {
    HistorySnoc([], e1, e1.attempt);
    HistorySnoc([] + [e1], e2, e1.attempt);
    assert !ChainedAt(s, e1.attempt);
  }
}
