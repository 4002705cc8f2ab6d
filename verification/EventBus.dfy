/** The in-memory event bus (internal/event/memory.go) as a state machine over the steps of its
    publishers, its eight workers, overflow goroutines and shutdown callers. */
module EventBus {
  import opened Wrappers

  const WORKER_COUNT := 8
  const QUEUE_SIZE := 256

  datatype Subscription = Subscription(handler: nat, sync: bool)

  /** The delivery of one publish to one of the subscribers it copied: position k of publish p. */
  datatype Task = Task(publish: nat, k: nat)

  /** A publish in progress: its copy of the subscribers, how many it has dealt with, and the task it
      has counted in the wait group but not yet handed off. */
  datatype Publishing = Publishing(subs: seq<Subscription>, next: nat, adding: bool)

  datatype Waiting = Waiting | Released | ReturnedNil | TimedOut

  datatype Bus = Bus(
    subscribers: map<string, seq<Subscription>>,
    publishes: map<nat, Publishing>,
    queue: seq<Task>,
    workers: map<nat, Task>,
    overflow: set<Task>,
    count: int,
    finished: seq<Task>,
    shutdowns: map<nat, Waiting>)

  const IDLE_BUS := Bus(map[], map[], [], map[], {}, 0, [], map[])

  datatype Move =
    | Subscribe(event: string, sub: Subscription)
    | Publish(p: nat, event: string)
    | RunSync(p: nat)
    | Add(p: nat)
    | HandOff(p: nat)
    | Take(w: nat)
    | Finish(w: nat)
    | FinishOverflow(task: Task)
    | Shutdown(c: nat)
    | Observe(c: nat)
    | ReturnNil(c: nat)
    | Timeout(c: nat)

  function SubsOf(b: Bus, event: string): seq<Subscription> {
    if event in b.subscribers then b.subscribers[event] else []
  }

  /** A publish with a subscriber left to deal with. */
  predicate Busy(b: Bus, p: nat) {
    p in b.publishes && b.publishes[p].next < |b.publishes[p].subs|
  }

  /** One step; a step that is not possible changes nothing. */
  function Step(b: Bus, m: Move): Bus {
    match m
    case Subscribe(event, sub) => b.(subscribers := b.subscribers[event := SubsOf(b, event) + [sub]])
    case Publish(p, event) =>
      if p in b.publishes then b
      else b.(publishes := b.publishes[p := Publishing(SubsOf(b, event), 0, false)])
    case RunSync(p) =>
      if !Busy(b, p) || !b.publishes[p].subs[b.publishes[p].next].sync then b
      else b.(publishes := b.publishes[p := b.publishes[p].(next := b.publishes[p].next + 1)])
    case Add(p) =>
      if !Busy(b, p) || b.publishes[p].subs[b.publishes[p].next].sync || b.publishes[p].adding then b
      else b.(publishes := b.publishes[p := b.publishes[p].(adding := true)], count := b.count + 1)
    case HandOff(p) =>
      if !Busy(b, p) || !b.publishes[p].adding then b
      else
        var task := Task(p, b.publishes[p].next);
        var b' := b.(publishes := b.publishes[p := b.publishes[p].(next := task.k + 1, adding := false)]);
        if |b.queue| < QUEUE_SIZE then b'.(queue := b.queue + [task])
        else b'.(overflow := b.overflow + {task})
    case Take(w) =>
      if w >= WORKER_COUNT || w in b.workers || b.queue == [] then b
      else b.(workers := b.workers[w := b.queue[0]], queue := b.queue[1..])
    case Finish(w) =>
      if w !in b.workers then b
      else b.(workers := b.workers - {w}, finished := b.finished + [b.workers[w]], count := b.count - 1)
    case FinishOverflow(task) =>
      if task !in b.overflow then b
      else b.(overflow := b.overflow - {task}, finished := b.finished + [task], count := b.count - 1)
    case Shutdown(c) => if c in b.shutdowns then b else b.(shutdowns := b.shutdowns[c := Waiting])
    case Observe(c) =>
      if c in b.shutdowns && b.shutdowns[c] == Waiting && b.count == 0 then b.(shutdowns := b.shutdowns[c := Released])
      else b
    case ReturnNil(c) =>
      if c in b.shutdowns && b.shutdowns[c] == Released then b.(shutdowns := b.shutdowns[c := ReturnedNil]) else b
    case Timeout(c) =>
      if c in b.shutdowns && b.shutdowns[c] in {Waiting, Released} then b.(shutdowns := b.shutdowns[c := TimedOut])
      else b
  }

  function Run(b: Bus, moves: seq<Move>): Bus {
    if |moves| == 0 then b else Step(Run(b, moves[..|moves| - 1]), moves[|moves| - 1])
  }

  // ---- Where a task is ----

  /** The publishes between wg.Add and the hand-off. */
  function Adding(b: Bus): set<nat> {
    set p | p in b.publishes && b.publishes[p].adding
  }

  predicate Queued(b: Bus, t: Task) {
    t in b.queue
  }

  predicate RunningOn(b: Bus, t: Task, w: nat) {
    w in b.workers && b.workers[w] == t
  }

  /** The async deliveries that a publish has handed off so far. */
  predicate HandedOff(b: Bus, t: Task) {
    && t.publish in b.publishes
    && t.k < b.publishes[t.publish].next <= |b.publishes[t.publish].subs|
    && !b.publishes[t.publish].subs[t.k].sync
  }

  ghost predicate PublishesOk(b: Bus) {
    forall p :: p in b.publishes ==>
      var x := b.publishes[p];
      x.next <= |x.subs| && (x.adding ==> x.next < |x.subs| && !x.subs[x.next].sync)
  }

  /** Every task handed off is in exactly one place, once: queue, worker, overflow or finished. */
  ghost predicate Somewhere(b: Bus, t: Task) {
    Queued(b, t) || (exists w :: RunningOn(b, t, w)) || t in b.overflow || t in b.finished
  }

  ghost predicate PlacesDisjoint(b: Bus) {
    && (forall i, j :: 0 <= i < j < |b.queue| ==> b.queue[i] != b.queue[j])
    && (forall i, j :: 0 <= i < j < |b.finished| ==> b.finished[i] != b.finished[j])
    && (forall v, w :: v in b.workers && w in b.workers && v != w ==> b.workers[v] != b.workers[w])
    && (forall t :: t in b.queue ==> t !in b.overflow && t !in b.finished)
    && (forall t :: t in b.overflow ==> t !in b.finished)
    && (forall w :: w in b.workers ==>
          b.workers[w] !in b.queue && b.workers[w] !in b.overflow && b.workers[w] !in b.finished)
  }

  ghost predicate TasksOk(b: Bus) {
    && (forall t :: HandedOff(b, t) <==> Somewhere(b, t))
    && PlacesDisjoint(b)
  }

  /** Conservation: the wait count is the number of tasks counted but not finished. */
  ghost predicate CountOk(b: Bus) {
    b.count == |Adding(b)| + |b.queue| + |b.workers| + |b.overflow|
  }

  ghost predicate Bounded(b: Bus) {
    |b.queue| <= QUEUE_SIZE && forall w :: w in b.workers ==> w < WORKER_COUNT
  }

  ghost predicate Inv(b: Bus) {
    PublishesOk(b) && TasksOk(b) && CountOk(b) && Bounded(b)
  }

  // ---- Each step keeps the invariant ----

  lemma {:induction false} PublishesStep(b: Bus, m: Move)
    requires PublishesOk(b)
    ensures PublishesOk(Step(b, m))
  {
  }

  /** The task a publish is about to hand off is nowhere yet. */
  lemma {:induction false} NotYetAnywhere(b: Bus, p: nat)
    requires TasksOk(b) && p in b.publishes
    ensures var t := Task(p, b.publishes[p].next);
            t !in b.queue && t !in b.overflow && t !in b.finished && forall w :: !RunningOn(b, t, w)
  {
    var t := Task(p, b.publishes[p].next);
    assert !HandedOff(b, t);
    assert !Somewhere(b, t);
  }

  lemma {:induction false} HandOffUncounts(b: Bus, b': Bus, p: nat)
    requires Busy(b, p) && b.publishes[p].adding
    requires b'.publishes == b.publishes[p := b.publishes[p].(next := b.publishes[p].next + 1, adding := false)]
    ensures |Adding(b')| == |Adding(b)| - 1
  {
    assert Adding(b') == Adding(b) - {p} && p in Adding(b);
  }

  lemma {:induction false} HandedOffCount(b: Bus, b': Bus, task: Task)
    requires CountOk(b) && |Adding(b')| == |Adding(b)| - 1 && b'.count == b.count && b'.workers == b.workers
    requires task !in b.overflow
    requires || (b'.queue == b.queue + [task] && b'.overflow == b.overflow)
             || (b'.queue == b.queue && b'.overflow == b.overflow + {task})
    ensures CountOk(b')
  {
  }

  lemma {:induction false} HandOffResult(b: Bus, p: nat, b': Bus)
    requires Busy(b, p) && b.publishes[p].adding && b' == Step(b, HandOff(p))
    ensures b'.count == b.count && b'.workers == b.workers
    ensures b'.publishes == b.publishes[p := b.publishes[p].(next := b.publishes[p].next + 1, adding := false)]
    ensures var task := Task(p, b.publishes[p].next);
            || (b'.queue == b.queue + [task] && b'.overflow == b.overflow)
            || (b'.queue == b.queue && b'.overflow == b.overflow + {task})
  {
  }

  lemma {:induction false} HandOffCount(b: Bus, p: nat, b': Bus)
    requires CountOk(b) && Busy(b, p) && b.publishes[p].adding && Task(p, b.publishes[p].next) !in b.overflow
    requires b' == Step(b, HandOff(p))
    ensures CountOk(b')
  {
    HandOffResult(b, p, b');
    HandOffUncounts(b, b', p);
    HandedOffCount(b, b', Task(p, b.publishes[p].next));
  }

  lemma {:induction false} SameAdding(b: Bus, b': Bus)
    requires b'.publishes.Keys >= b.publishes.Keys
    requires forall p :: p in b'.publishes ==>
               (b'.publishes[p].adding <==> p in b.publishes && b.publishes[p].adding)
    ensures Adding(b') == Adding(b)
  {
  }

  lemma {:induction false} AddCount(b: Bus, p: nat)
    requires CountOk(b)
    ensures CountOk(Step(b, Add(p)))
  {
    var b' := Step(b, Add(p));
    if b' != b {
      assert b'.publishes == b.publishes[p := b.publishes[p].(adding := true)];
      assert Adding(b') == Adding(b) + {p} && p !in Adding(b);
    }
  }

  lemma {:induction false} TakeCount(b: Bus, w: nat)
    requires CountOk(b)
    ensures CountOk(Step(b, Take(w)))
  {
  }

  lemma {:induction false} FinishCount(b: Bus, w: nat)
    requires CountOk(b)
    ensures CountOk(Step(b, Finish(w)))
  {
  }

  lemma {:induction false} CountStep(b: Bus, m: Move)
    requires TasksOk(b) && CountOk(b)
    ensures CountOk(Step(b, m))
  {
    match m
    case Add(p) => AddCount(b, p);
    case HandOff(p) =>
      if Busy(b, p) && b.publishes[p].adding {
        NotYetAnywhere(b, p);
        HandOffCount(b, p, Step(b, m));
      }
    case Take(w) => TakeCount(b, w);
    case Finish(w) => FinishCount(b, w);
    case FinishOverflow(task) => OverflowCount(b, task);
    case _ => QuietCount(b, m, Step(b, m));
  }

  lemma {:induction false} QuietMove(b: Bus, m: Move, b': Bus)
    requires !m.Add? && !m.HandOff? && !m.Take? && !m.Finish? && !m.FinishOverflow? && b' == Step(b, m)
    ensures b'.count == b.count && b'.queue == b.queue && b'.workers == b.workers && b'.overflow == b.overflow
    ensures b'.publishes.Keys >= b.publishes.Keys
    ensures forall p :: p in b'.publishes ==>
              (b'.publishes[p].adding <==> p in b.publishes && b.publishes[p].adding)
  {
  }

  lemma {:induction false} OverflowCount(b: Bus, task: Task)
    requires CountOk(b)
    ensures CountOk(Step(b, FinishOverflow(task)))
  {
  }

  lemma {:induction false} QuietCount(b: Bus, m: Move, b': Bus)
    requires CountOk(b) && !m.Add? && !m.HandOff? && !m.Take? && !m.Finish? && !m.FinishOverflow? && b' == Step(b, m)
    ensures CountOk(b')
  {
    QuietMove(b, m, b');
    SameAdding(b, b');
  }

  lemma {:induction false} BoundedStep(b: Bus, m: Move)
    requires Bounded(b)
    ensures Bounded(Step(b, m))
  {
  }

  /** Steps that move no task and hand none off. */
  lemma {:induction false} SamePlaces(b: Bus, b': Bus)
    requires TasksOk(b)
    requires b'.queue == b.queue && b'.workers == b.workers && b'.overflow == b.overflow && b'.finished == b.finished
    requires forall t :: HandedOff(b', t) <==> HandedOff(b, t)
    ensures TasksOk(b')
  {
    forall t ensures Somewhere(b', t) <==> Somewhere(b, t) {
      assert forall w :: RunningOn(b', t, w) <==> RunningOn(b, t, w);
    }
  }

  lemma {:induction false} HandOffStep(b: Bus, p: nat)
    requires PublishesOk(b) && TasksOk(b) && Busy(b, p) && b.publishes[p].adding
    ensures TasksOk(Step(b, HandOff(p)))
  {
    var b' := Step(b, HandOff(p));
    var task := Task(p, b.publishes[p].next);
    forall t ensures HandedOff(b', t) <==> Somewhere(b', t) {
      assert HandedOff(b', t) <==> HandedOff(b, t) || t == task;
      HandOffPlaces(b, p, t);
    }
    HandOffDisjoint(b, p);
  }

  lemma {:induction false} HandOffDisjoint(b: Bus, p: nat)
    requires TasksOk(b) && Busy(b, p) && b.publishes[p].adding
    ensures PlacesDisjoint(Step(b, HandOff(p)))
  {
    NotYetAnywhere(b, p);
    assert forall w :: w in b.workers ==> RunningOn(b, b.workers[w], w);
  }

  lemma {:induction false} HandOffPlaces(b: Bus, p: nat, t: Task)
    requires Busy(b, p) && b.publishes[p].adding
    ensures Somewhere(Step(b, HandOff(p)), t) <==> Somewhere(b, t) || t == Task(p, b.publishes[p].next)
  {
    var b' := Step(b, HandOff(p));
    assert forall w :: RunningOn(b', t, w) <==> RunningOn(b, t, w);
  }

  lemma {:induction false} TakeStep(b: Bus, w: nat)
    requires TasksOk(b) && w !in b.workers && b.queue != []
    requires w < WORKER_COUNT
    ensures TasksOk(Step(b, Take(w)))
  {
    var b' := Step(b, Take(w));
    forall t ensures Somewhere(b', t) <==> Somewhere(b, t) {
      TakePlaces(b, w, t);
    }
    assert forall t :: HandedOff(b', t) <==> HandedOff(b, t);
    TakeDisjoint(b, w);
  }

  lemma {:induction false} TakePlaces(b: Bus, w: nat, t: Task)
    requires w < WORKER_COUNT && w !in b.workers && b.queue != []
    ensures Somewhere(Step(b, Take(w)), t) <==> Somewhere(b, t)
  {
    var b' := Step(b, Take(w));
    var task := b.queue[0];
    assert b.queue == [task] + b'.queue;
    assert RunningOn(b', task, w);
    assert forall v :: RunningOn(b, t, v) ==> RunningOn(b', t, v);
    assert forall v :: RunningOn(b', t, v) ==> RunningOn(b, t, v) || t == task;
  }

  lemma {:induction false} TakeDisjoint(b: Bus, w: nat)
    requires PlacesDisjoint(b) && w < WORKER_COUNT && w !in b.workers && b.queue != []
    ensures PlacesDisjoint(Step(b, Take(w)))
  {
    var b' := Step(b, Take(w));
    assert b.queue[0] in b.queue && b.queue[0] !in b'.queue;
    assert forall t :: t in b'.queue ==> t in b.queue;
  }

  lemma {:induction false} FinishStep(b: Bus, w: nat)
    requires TasksOk(b) && w in b.workers
    ensures TasksOk(Step(b, Finish(w)))
  {
    var b' := Step(b, Finish(w));
    var task := b.workers[w];
    assert forall t :: t in b'.finished <==> t in b.finished || t == task;
    forall t ensures Somewhere(b', t) <==> Somewhere(b, t) {
      assert RunningOn(b, task, w);
      assert forall v :: RunningOn(b', t, v) ==> RunningOn(b, t, v);
      assert forall v :: RunningOn(b, t, v) ==> RunningOn(b', t, v) || t == task;
    }
    assert forall t :: HandedOff(b', t) <==> HandedOff(b, t);
  }

  lemma {:induction false} FinishOverflowStep(b: Bus, task: Task)
    requires TasksOk(b) && task in b.overflow
    ensures TasksOk(Step(b, FinishOverflow(task)))
  {
    var b' := Step(b, FinishOverflow(task));
    assert forall t :: t in b'.finished <==> t in b.finished || t == task;
    forall t ensures Somewhere(b', t) <==> Somewhere(b, t) {
      assert forall v :: RunningOn(b', t, v) <==> RunningOn(b, t, v);
    }
    assert forall w :: w in b.workers ==> RunningOn(b, b.workers[w], w);
    assert forall t :: HandedOff(b', t) <==> HandedOff(b, t);
  }

  lemma {:induction false} TasksStep(b: Bus, m: Move)
    requires PublishesOk(b) && TasksOk(b)
    ensures TasksOk(Step(b, m))
  {
    var b' := Step(b, m);
    if b' != b {
      match m
      case HandOff(p) => HandOffStep(b, p);
      case Take(w) => TakeStep(b, w);
      case Finish(w) => FinishStep(b, w);
      case FinishOverflow(task) => FinishOverflowStep(b, task);
      case _ =>
        assert forall t :: HandedOff(b', t) <==> HandedOff(b, t);
        SamePlaces(b, b');
    }
  }

  lemma {:induction false} StepKeepsInv(b: Bus, m: Move)
    requires Inv(b)
    ensures Inv(Step(b, m))
  {
    PublishesStep(b, m);
    TasksStep(b, m);
    CountStep(b, m);
    BoundedStep(b, m);
  }

  lemma {:induction false} EveryRunKeepsInv(moves: seq<Move>)
    ensures Inv(Run(IDLE_BUS, moves))
  {
    if |moves| > 0 {
      EveryRunKeepsInv(moves[..|moves| - 1]);
      StepKeepsInv(Run(IDLE_BUS, moves[..|moves| - 1]), moves[|moves| - 1]);
    }
  }

  // ---- What the bus promises ----

  /** In every interleaving: the wait count is the tasks queued, running, overflowed and about to be
      handed off; the queue and the pool keep their bounds; and no delivery ever finishes twice or
      without belonging to an async subscriber of its publish. */
  lemma {:induction false} Conservation(moves: seq<Move>)
    ensures var b := Run(IDLE_BUS, moves);
            && b.count == |Adding(b)| + |b.queue| + |b.workers| + |b.overflow|
            && |b.queue| <= QUEUE_SIZE && |b.workers| <= WORKER_COUNT
            && (forall i, j :: 0 <= i < j < |b.finished| ==> b.finished[i] != b.finished[j])
            && (forall t :: t in b.finished ==> HandedOff(b, t))
  {
    EveryRunKeepsInv(moves);
    var b := Run(IDLE_BUS, moves);
    WorkersFit(b.workers.Keys, WORKER_COUNT);
    forall t | t in b.finished ensures HandedOff(b, t) {
      assert Somewhere(b, t);
    }
  }

  lemma {:induction false} WorkersFit(ws: set<nat>, n: nat)
    requires forall w :: w in ws ==> w < n
    ensures |ws| <= n
  {
    if n > 0 {
      WorkersFit(ws - {n - 1}, n - 1);
      assert ws <= (ws - {n - 1}) + {n - 1};
      if n - 1 in ws {
        assert |ws - {n - 1}| == |ws| - 1;
      } else {
        assert ws - {n - 1} == ws;
      }
    } else {
      assert ws == {};
    }
  }

  /** No publish has subscribers left and nothing is pending. */
  predicate Quiet(b: Bus) {
    b.count == 0 && forall p | p in b.publishes :: !Busy(b, p)
  }

  lemma {:induction false} NothingPending(b: Bus)
    requires Inv(b) && b.count == 0
    ensures Adding(b) == {} && b.queue == [] && b.workers == map[] && b.overflow == {}
    ensures forall t :: HandedOff(b, t) ==> t in b.finished
  {
  }

  /** Once quiet, every async subscriber copied by every publish has run its event exactly once. */
  lemma {:induction false} ExactlyOnceAtQuiescence(moves: seq<Move>, p: nat, k: nat)
    requires var b := Run(IDLE_BUS, moves);
             Quiet(b) && p in b.publishes && k < |b.publishes[p].subs| && !b.publishes[p].subs[k].sync
    ensures var b := Run(IDLE_BUS, moves);
            exists i :: 0 <= i < |b.finished| && b.finished[i] == Task(p, k)
              && forall j :: 0 <= j < |b.finished| && j != i ==> b.finished[j] != Task(p, k)
  {
    EveryRunKeepsInv(moves);
    var b := Run(IDLE_BUS, moves);
    NothingPending(b);
    assert !Busy(b, p);
    assert HandedOff(b, Task(p, k));
    var i :| 0 <= i < |b.finished| && b.finished[i] == Task(p, k);
    assert forall j :: 0 <= j < |b.finished| && j != i ==> b.finished[j] != Task(p, k);
  }

  lemma {:induction false} StepKeepsSubs(b: Bus, m: Move, p: nat)
    requires p in b.publishes
    ensures p in Step(b, m).publishes && Step(b, m).publishes[p].subs == b.publishes[p].subs
  {
  }

  /** A publish delivers to the subscribers there were when it started, whatever subscribes later. */
  lemma {:induction false} SnapshotIsFixed(b: Bus, moves: seq<Move>, p: nat, event: string)
    requires p !in b.publishes
    ensures var b' := Run(Step(b, Publish(p, event)), moves);
            p in b'.publishes && b'.publishes[p].subs == SubsOf(b, event)
  {
    if |moves| > 0 {
      SnapshotIsFixed(b, moves[..|moves| - 1], p, event);
      StepKeepsSubs(Run(Step(b, Publish(p, event)), moves[..|moves| - 1]), moves[|moves| - 1], p);
    }
  }

  /** The subscriptions made to an event so far, in order. */
  function Subscribed(moves: seq<Move>, event: string): seq<Subscription> {
    if |moves| == 0 then []
    else
      var m := moves[|moves| - 1];
      Subscribed(moves[..|moves| - 1], event)
        + (if m.Subscribe? && m.event == event then [m.sub] else [])
  }

  lemma {:induction false} StepSubscribes(b: Bus, m: Move, b': Bus, event: string)
    requires b' == Step(b, m)
    ensures SubsOf(b', event) == SubsOf(b, event) + (if m.Subscribe? && m.event == event then [m.sub] else [])
  {
    if m.Subscribe? && m.event == event {
    } else {
      assert b'.subscribers == b.subscribers || m.Subscribe?;
    }
  }

  lemma {:induction false} SubscribersAreKept(moves: seq<Move>, event: string)
    ensures SubsOf(Run(IDLE_BUS, moves), event) == Subscribed(moves, event)
  {
    if |moves| > 0 {
      var b, m := Run(IDLE_BUS, moves[..|moves| - 1]), moves[|moves| - 1];
      SubscribersAreKept(moves[..|moves| - 1], event);
      StepSubscribes(b, m, Step(b, m), event);
    }
  }

  /** Move i of the run is the publish p of an event, and no earlier move is a publish p. */
  ghost predicate Publishes(moves: seq<Move>, i: nat, p: nat, event: string) {
    && i < |moves| && moves[i] == Publish(p, event)
    && forall j :: 0 <= j < i ==> !(moves[j].Publish? && moves[j].p == p)
  }

  lemma {:induction false} StepPublishes(b: Bus, m: Move, b': Bus, p: nat)
    requires b' == Step(b, m) && p !in b.publishes
    ensures !(m.Publish? && m.p == p) ==> p !in b'.publishes
    ensures m.Publish? && m.p == p ==> p in b'.publishes && b'.publishes[p].subs == SubsOf(b, m.event)
  {
  }

  lemma {:induction false} NotYetPublished(moves: seq<Move>, p: nat)
    requires forall j :: 0 <= j < |moves| ==> !(moves[j].Publish? && moves[j].p == p)
    ensures p !in Run(IDLE_BUS, moves).publishes
  {
    if |moves| > 0 {
      var n := |moves| - 1;
      NotYetPublished(moves[..n], p);
      StepPublishes(Run(IDLE_BUS, moves[..n]), moves[n], Run(IDLE_BUS, moves), p);
    }
  }

  /** What a publish copied when it started is what it still has. */
  ghost predicate Copied(b: Bus, p: nat, subs: seq<Subscription>) {
    p in b.publishes && b.publishes[p].subs == subs
  }

  lemma {:induction false} StepKeepsCopy(b: Bus, m: Move, b': Bus, p: nat, subs: seq<Subscription>)
    requires b' == Step(b, m) && Copied(b, p, subs)
    ensures Copied(b', p, subs)
  {
    StepKeepsSubs(b, m, p);
  }

  /** A publish copies the subscriptions made to its event before it, each once and in order, and keeps
      that copy whatever is subscribed later. */
  lemma {:induction false} PublishCopiesSubscribed(moves: seq<Move>, i: nat, p: nat, event: string)
    requires Publishes(moves, i, p, event)
    ensures Copied(Run(IDLE_BUS, moves), p, Subscribed(moves[..i], event))
  {
    var n := |moves| - 1;
    var b := Run(IDLE_BUS, moves[..n]);
    if i < n {
      assert moves[..n][..i] == moves[..i];
      PublishCopiesSubscribed(moves[..n], i, p, event);
      StepKeepsCopy(b, moves[n], Run(IDLE_BUS, moves), p, Subscribed(moves[..i], event));
    } else {
      NotYetPublished(moves[..n], p);
      SubscribersAreKept(moves[..n], event);
      StepPublishes(b, moves[n], Run(IDLE_BUS, moves), p);
    }
  }

  /** How often a delivery has finished. */
  function TimesFinished(finished: seq<Task>, t: Task): nat {
    if |finished| == 0 then 0
    else TimesFinished(finished[..|finished| - 1], t) + (if finished[|finished| - 1] == t then 1 else 0)
  }

  lemma {:induction false} FinishedNever(finished: seq<Task>, t: Task)
    requires t !in finished
    ensures TimesFinished(finished, t) == 0
  {
    if |finished| > 0 {
      FinishedNever(finished[..|finished| - 1], t);
    }
  }

  lemma {:induction false} FinishedOnce(finished: seq<Task>, t: Task, i: nat)
    requires i < |finished| && finished[i] == t
    requires forall j :: 0 <= j < |finished| && j != i ==> finished[j] != t
    ensures TimesFinished(finished, t) == 1
  {
    var n := |finished| - 1;
    if i < n {
      FinishedOnce(finished[..n], t, i);
    } else {
      FinishedNever(finished[..n], t);
    }
  }

  /** Once the bus is quiet, every async subscription made to an event before a publish of it has run that
      publish exactly once, and nothing else has run it. */
  lemma {:induction false} SubscribedRunExactlyOnce(moves: seq<Move>, i: nat, p: nat, event: string, k: nat)
    requires Publishes(moves, i, p, event) && Quiet(Run(IDLE_BUS, moves))
    ensures var subs := Subscribed(moves[..i], event);
            TimesFinished(Run(IDLE_BUS, moves).finished, Task(p, k)) == if k < |subs| && !subs[k].sync then 1 else 0
  {
    var b := Run(IDLE_BUS, moves);
    PublishCopiesSubscribed(moves, i, p, event);
    EveryRunKeepsInv(moves);
    if k < |b.publishes[p].subs| && !b.publishes[p].subs[k].sync {
      ExactlyOnceAtQuiescence(moves, p, k);
      var j :| 0 <= j < |b.finished| && b.finished[j] == Task(p, k)
               && forall j' :: 0 <= j' < |b.finished| && j' != j ==> b.finished[j'] != Task(p, k);
      FinishedOnce(b.finished, Task(p, k), j);
    } else {
      assert !HandedOff(b, Task(p, k));
      assert !Somewhere(b, Task(p, k));
      FinishedNever(b.finished, Task(p, k));
    }
  }

  /** An instant of the run at which shutdown call c was under way and nothing was pending. */
  ghost predicate DrainedAt(moves: seq<Move>, c: nat, i: int) {
    0 <= i <= |moves|
    && var b := Run(IDLE_BUS, moves[..i]);
       c in b.shutdowns && b.shutdowns[c] == Waiting && b.count == 0
  }

  predicate HasReturned(b: Bus, c: nat) {
    c in b.shutdowns && (b.shutdowns[c] == Released || b.shutdowns[c] == ReturnedNil)
  }

  /** The only way to be released is to observe a zero count while waiting. */
  lemma {:induction false} ReleaseNeedsZero(b: Bus, m: Move, c: nat)
    requires HasReturned(Step(b, m), c)
    ensures HasReturned(b, c) || (c in b.shutdowns && b.shutdowns[c] == Waiting && b.count == 0)
  {
  }

  lemma {:induction false} ReleasedWasDrained(moves: seq<Move>, c: nat) returns (i: nat)
    requires HasReturned(Run(IDLE_BUS, moves), c)
    ensures DrainedAt(moves, c, i)
  {
    var n := |moves| - 1;
    var b := Run(IDLE_BUS, moves[..n]);
    ReleaseNeedsZero(b, moves[n], c);
    if HasReturned(b, c) {
      i := ReleasedWasDrained(moves[..n], c);
      assert moves[..n][..i] == moves[..i];
    } else {
      i := n;
    }
  }

  /** Shutdown returns nil only if, at some instant during the call, every delivery handed off so far
      had finished and none was queued, running or about to be handed off. */
  lemma {:induction false} ShutdownMeansDrained(moves: seq<Move>, c: nat)
    requires var b := Run(IDLE_BUS, moves); c in b.shutdowns && b.shutdowns[c] == ReturnedNil
    ensures exists i :: DrainedAt(moves, c, i)
              && forall t :: HandedOff(Run(IDLE_BUS, moves[..i]), t) ==> t in Run(IDLE_BUS, moves[..i]).finished
  {
    var i := ReleasedWasDrained(moves, c);
    EveryRunKeepsInv(moves[..i]);
    NothingPending(Run(IDLE_BUS, moves[..i]));
  }

  // ---- Nothing ever gets stuck ----

  /** The moves of a publish under way and of the deliveries. */
  predicate Works(m: Move) {
    m.RunSync? || m.Add? || m.HandOff? || m.Take? || m.Finish? || m.FinishOverflow?
  }

  predicate AllWork(moves: seq<Move>) {
    forall i :: 0 <= i < |moves| ==> Works(moves[i])
  }

  lemma {:induction false} RunEnds(b: Bus, moves: seq<Move>, m: Move)
    ensures Run(b, moves + [m]) == Step(Run(b, moves), m)
  {
    assert (moves + [m])[..|moves|] == moves;
  }

  lemma {:induction false} RunsOn(b: Bus, first: seq<Move>, second: seq<Move>)
    ensures Run(b, first + second) == Run(Run(b, first), second)
  {
    if |second| > 0 {
      var n := |second| - 1;
      RunsOn(b, first, second[..n]);
      assert first + second == (first + second[..n]) + [second[n]] && second == second[..n] + [second[n]];
      RunEnds(b, first + second[..n], second[n]);
      RunEnds(Run(b, first), second[..n], second[n]);
    } else {
      assert first + second == first;
    }
  }

  lemma {:induction false} OneMove(b: Bus, m: Move)
    ensures Run(b, [m]) == Step(b, m)
  {
    assert [m][..0] == [];
    assert Run(b, []) == b;
  }

  /** Some work brings the bus from one state to another. */
  ghost predicate Reaches(b: Bus, b': Bus) {
    exists more :: AllWork(more) && Run(b, more) == b'
  }

  lemma {:induction false} ReachesSelf(b: Bus)
    ensures Reaches(b, b)
  {
    assert AllWork([]) && Run(b, []) == b;
  }

  lemma {:induction false} ReachesOn(b: Bus, m: Move, b': Bus)
    requires Works(m) && Reaches(Step(b, m), b')
    ensures Reaches(b, b')
  {
    var more :| AllWork(more) && Run(Step(b, m), more) == b';
    OneMove(b, m);
    RunsOn(b, [m], more);
    assert AllWork([m] + more);
  }

  lemma {:induction false} ReachesFurther(b: Bus, b1: Bus, b2: Bus)
    requires Reaches(b, b1) && Reaches(b1, b2)
    ensures Reaches(b, b2)
  {
    var first :| AllWork(first) && Run(b, first) == b1;
    var second :| AllWork(second) && Run(b1, second) == b2;
    RunsOn(b, first, second);
    assert AllWork(first + second);
  }

  /** Equal but for one publish, and for where its deliveries are. */
  ghost predicate OnlyMoved(b: Bus, b': Bus, p: nat) {
    && b'.shutdowns == b.shutdowns && b'.publishes.Keys == b.publishes.Keys
    && forall q :: q in b.publishes && q != p ==> b'.publishes[q] == b.publishes[q]
  }

  /** The steps a publish still has to take. */
  function Todo(b: Bus, p: nat): int
    requires p in b.publishes
  {
    var x := b.publishes[p];
    2 * (|x.subs| - x.next) - (if x.adding then 1 else 0)
  }

  function NextOf(b: Bus, p: nat): Move
    requires Busy(b, p)
  {
    var x := b.publishes[p];
    if x.adding then HandOff(p) else if x.subs[x.next].sync then RunSync(p) else Add(p)
  }

  lemma {:induction false} PublishAdvances(b: Bus, p: nat)
    requires PublishesOk(b) && Busy(b, p)
    ensures var b' := Step(b, NextOf(b, p)); OnlyMoved(b, b', p) && 0 <= Todo(b', p) < Todo(b, p)
  {
  }

  /** A publish under way can deal with all its subscribers. */
  lemma {:induction false} PublishCanEnd(b: Bus, p: nat) returns (b': Bus)
    requires Inv(b) && p in b.publishes
    ensures Reaches(b, b') && Inv(b') && OnlyMoved(b, b', p) && !Busy(b', p)
    decreases Todo(b, p)
  {
    if Busy(b, p) {
      var m := NextOf(b, p);
      StepKeepsInv(b, m);
      PublishAdvances(b, p);
      b' := PublishCanEnd(Step(b, m), p);
      ReachesOn(b, m, b');
    } else {
      b' := b;
      ReachesSelf(b);
    }
  }

  lemma {:induction false} PublishesCanEnd(b: Bus, todo: set<nat>) returns (b': Bus)
    requires Inv(b) && forall p :: p in b.publishes && p !in todo ==> !Busy(b, p)
    ensures Reaches(b, b') && Inv(b') && b'.shutdowns == b.shutdowns
    ensures forall p :: p in b'.publishes ==> !Busy(b', p)
    decreases |todo|
  {
    if todo == {} {
      b' := b;
      ReachesSelf(b);
    } else {
      var p :| p in todo;
      var b1 := b;
      if p in b.publishes {
        b1 := PublishCanEnd(b, p);
      } else {
        ReachesSelf(b);
      }
      b' := PublishesCanEnd(b1, todo - {p});
      ReachesFurther(b, b1, b');
    }
  }

  /** The moves left for the deliveries: each queued one is taken and finished. */
  function Load(b: Bus): nat {
    2 * |b.queue| + |b.workers| + |b.overflow|
  }

  ghost predicate Lighter(b: Bus, b': Bus) {
    Load(b') < Load(b) && b'.publishes == b.publishes && b'.shutdowns == b.shutdowns
  }

  lemma {:induction false} FinishLightens(b: Bus, w: nat)
    requires w in b.workers
    ensures Lighter(b, Step(b, Finish(w)))
  {
    assert |b.workers - {w}| == |b.workers| - 1;
  }

  lemma {:induction false} OverflowLightens(b: Bus, task: Task)
    requires task in b.overflow
    ensures Lighter(b, Step(b, FinishOverflow(task)))
  {
  }

  lemma {:induction false} TakeLightens(b: Bus)
    requires b.workers == map[] && b.queue != []
    ensures Lighter(b, Step(b, Take(0)))
  {
  }

  /** With no publish under way, some delivery can always move on. */
  lemma {:induction false} DeliveryAdvances(b: Bus) returns (m: Move)
    requires CountOk(b) && Adding(b) == {} && b.count != 0
    ensures Works(m) && Lighter(b, Step(b, m))
  {
    if b.workers != map[] {
      var w :| w in b.workers;
      m := Finish(w);
      FinishLightens(b, w);
    } else if b.overflow != {} {
      var task :| task in b.overflow;
      m := FinishOverflow(task);
      OverflowLightens(b, task);
    } else {
      m := Take(0);
      TakeLightens(b);
    }
  }

  lemma {:induction false} DeliveriesCanEnd(b: Bus) returns (b': Bus)
    requires Inv(b) && forall p :: p in b.publishes ==> !Busy(b, p)
    ensures Reaches(b, b') && Quiet(b') && b'.shutdowns == b.shutdowns
    decreases Load(b)
  {
    if b.count == 0 {
      b' := b;
      ReachesSelf(b);
    } else {
      assert Adding(b) == {};
      var m := DeliveryAdvances(b);
      StepKeepsInv(b, m);
      b' := DeliveriesCanEnd(Step(b, m));
      ReachesOn(b, m, b');
    }
  }

  /** From every reachable state the publishers and workers can bring the bus to rest on their own: full
      queues and overflows never block anything for good. */
  lemma {:induction false} CanAlwaysComeToRest(moves: seq<Move>) returns (more: seq<Move>)
    ensures AllWork(more) && Quiet(Run(IDLE_BUS, moves + more))
    ensures Run(IDLE_BUS, moves + more).shutdowns == Run(IDLE_BUS, moves).shutdowns
  {
    var b := Run(IDLE_BUS, moves);
    EveryRunKeepsInv(moves);
    var b1 := PublishesCanEnd(b, b.publishes.Keys);
    var b2 := DeliveriesCanEnd(b1);
    ReachesFurther(b, b1, b2);
    more :| AllWork(more) && Run(b, more) == b2;
    RunsOn(IDLE_BUS, moves, more);
  }

  predicate Returns(b: Bus, c: nat) {
    c in b.shutdowns && b.shutdowns[c] == ReturnedNil
  }

  lemma {:induction false} DrainedReturns(b: Bus, c: nat)
    requires b.count == 0 && c in b.shutdowns && b.shutdowns[c] == Waiting
    ensures Returns(Step(Step(b, Observe(c)), ReturnNil(c)), c)
  {
  }

  /** So a shutdown call that waits can always still return nil. */
  lemma {:induction false} ShutdownCanReturn(moves: seq<Move>, c: nat) returns (work: seq<Move>)
    requires var b := Run(IDLE_BUS, moves); c in b.shutdowns && b.shutdowns[c] == Waiting
    ensures AllWork(work) && Returns(Run(IDLE_BUS, moves + work + [Observe(c)] + [ReturnNil(c)]), c)
  {
    work := CanAlwaysComeToRest(moves);
    var b := Run(IDLE_BUS, moves + work);
    DrainedReturns(b, c);
    RunsOn(IDLE_BUS, moves + work, [Observe(c)]);
    OneMove(b, Observe(c));
    RunsOn(IDLE_BUS, moves + work + [Observe(c)], [ReturnNil(c)]);
    OneMove(Step(b, Observe(c)), ReturnNil(c));
  }
}
