/** Concurrent use of the settings cache: the steps of several readers and writers interleave. */
module CacheRace {
  import opened Wrappers
  import opened TtlCache

  /** A cached value with what the proof remembers about it: when it was set, the instant its load
      started and the instant the database was read. */
  datatype Slot = Slot(value: Settings, expiresAt: int, setAt: int, start: nat, seen: nat)

  datatype Phase =
    | Expired(id: string)
    | Missed(id: string, start: nat)
    | Loaded(id: string, value: Settings, start: nat, seen: nat)
    | Writing(id: string, value: Settings)
    | Written(id: string)

  datatype Served = Served(id: string, value: Settings, at: int, slot: Slot)

  /** past lists the stored settings at every instant so far; its last element is the present. */
  datatype World = World(
    past: seq<map<string, Settings>>,
    cache: map<string, Slot>,
    clients: map<nat, Phase>,
    clock: int,
    served: seq<Served>)

  datatype Move =
    | Read(c: nat, id: string)
    | Update(c: nat, id: string, value: Settings)
    | Advance(c: nat)

  function Start(locations: map<string, Settings>): World {
    World([locations], map[], map[], 0, [])
  }

  function Now(w: World): map<string, Settings>
    requires |w.past| > 0
  {
    w.past[|w.past| - 1]
  }

  function GoTo(w: World, c: nat, p: Phase): World {
    w.(clients := w.clients[c := p])
  }

  function Done(w: World, c: nat): World {
    w.(clients := w.clients - {c})
  }

  /** One step of one client at the current clock; the store changes only when a writer writes. */
  function Act(w: World, m: Move): World
    requires |w.past| > 0
  {
    match m
    case Read(c, id) =>
      if c in w.clients then w
      else if id !in w.cache then GoTo(w, c, Missed(id, |w.past| - 1))
      else if w.clock > w.cache[id].expiresAt then GoTo(w, c, Expired(id))
      else w.(served := w.served + [Served(id, w.cache[id].value, w.clock, w.cache[id])])
    case Update(c, id, value) =>
      if c in w.clients then w else GoTo(w, c, Writing(id, value))
    case Advance(c) =>
      if c !in w.clients then w else
      match w.clients[c]
      case Expired(id) => GoTo(w.(cache := w.cache - {id}), c, Missed(id, |w.past| - 1))
      case Missed(id, start) =>
        if id in Now(w) then GoTo(w, c, Loaded(id, Now(w)[id], start, |w.past| - 1)) else Done(w, c)
      case Loaded(id, value, start, seen) =>
        Done(w.(cache := w.cache[id := Slot(value, w.clock + TTL_SECONDS, w.clock, start, seen)]), c)
      case Writing(id, value) => GoTo(w.(past := w.past + [WriteInner(Now(w), id, value)]), c, Written(id))
      case Written(id) => Done(w.(cache := w.cache - {id}), c)
  }

  /** A step, after any amount of time has passed. */
  datatype Timed = Timed(move: Move, elapsed: nat)

  function Step(w: World, s: Timed): World
    requires |w.past| > 0
  {
    Act(w.(clock := w.clock + s.elapsed), s.move)
  }

  function Run(locations: map<string, Settings>, steps: seq<Timed>): (w: World)
    ensures |w.past| > 0
  {
    if |steps| == 0 then Start(locations) else Step(Run(locations, steps[..|steps| - 1]), steps[|steps| - 1])
  }

  /** The value was the stored one at instant seen, no earlier than the start of its load. */
  ghost predicate WasStored(w: World, id: string, value: Settings, start: nat, seen: nat) {
    start <= seen < |w.past| && id in w.past[seen] && w.past[seen][id] == value
  }

  ghost predicate SlotOk(w: World, id: string, slot: Slot) {
    slot.expiresAt == slot.setAt + TTL_SECONDS && slot.setAt <= w.clock
    && WasStored(w, id, slot.value, slot.start, slot.seen)
  }

  ghost predicate PhaseOk(w: World, p: Phase) {
    match p
    case Loaded(id, value, start, seen) => WasStored(w, id, value, start, seen)
    case Missed(id, start) => start < |w.past|
    case _ => true
  }

  ghost predicate ServedOk(w: World, s: Served) {
    && s.value == s.slot.value && SlotOk(w, s.id, s.slot)
    && s.slot.setAt <= s.at <= w.clock && s.at - TTL_SECONDS <= s.slot.setAt
  }

  ghost predicate Inv(w: World) {
    && |w.past| > 0
    && (forall id :: id in w.cache ==> SlotOk(w, id, w.cache[id]))
    && (forall c :: c in w.clients ==> PhaseOk(w, w.clients[c]))
    && (forall i :: 0 <= i < |w.served| ==> ServedOk(w, w.served[i]))
  }

  /** The past only grows and the clock only advances. */
  ghost predicate Grows(w: World, w': World) {
    |w.past| <= |w'.past| && w'.past[..|w.past|] == w.past && w.clock <= w'.clock
  }

  lemma {:induction false} StoredStays(w: World, w': World, id: string, value: Settings, start: nat, seen: nat)
    requires Grows(w, w') && WasStored(w, id, value, start, seen)
    ensures WasStored(w', id, value, start, seen)
  {
  }

  /** What held of slots, phases and served values still holds later. */
  lemma {:induction false} InvStays(w: World, w': World)
    requires Inv(w) && Grows(w, w')
    ensures forall id :: id in w.cache ==> SlotOk(w', id, w.cache[id])
    ensures forall c :: c in w.clients ==> PhaseOk(w', w.clients[c])
    ensures forall i :: 0 <= i < |w.served| ==> ServedOk(w', w.served[i])
  {
    forall id | id in w.cache ensures SlotOk(w', id, w.cache[id]) {
      var slot := w.cache[id];
      StoredStays(w, w', id, slot.value, slot.start, slot.seen);
    }
    forall c | c in w.clients ensures PhaseOk(w', w.clients[c]) {
      var p := w.clients[c];
      if p.Loaded? {
        StoredStays(w, w', p.id, p.value, p.start, p.seen);
      }
    }
    forall i | 0 <= i < |w.served| ensures ServedOk(w', w.served[i]) {
      var s := w.served[i];
      StoredStays(w, w', s.id, s.slot.value, s.slot.start, s.slot.seen);
    }
  }

  lemma {:induction false} ActGrows(w: World, m: Move)
    requires |w.past| > 0
    ensures Grows(w, Act(w, m))
  {
  }

  lemma {:induction false} CacheAfterAct(w: World, m: Move)
    requires Inv(w)
    ensures var w' := Act(w, m); forall id :: id in w'.cache ==> SlotOk(w', id, w'.cache[id])
  {
    ActGrows(w, m);
    InvStays(w, Act(w, m));
  }

  lemma {:induction false} ClientsAfterAct(w: World, m: Move)
    requires Inv(w)
    ensures var w' := Act(w, m); forall c :: c in w'.clients ==> PhaseOk(w', w'.clients[c])
  {
    ActGrows(w, m);
    InvStays(w, Act(w, m));
  }

  lemma {:induction false} ServedAfterAct(w: World, m: Move)
    requires Inv(w)
    ensures var w' := Act(w, m); forall i :: 0 <= i < |w'.served| ==> ServedOk(w', w'.served[i])
  {
    ActGrows(w, m);
    InvStays(w, Act(w, m));
  }

  lemma {:induction false} ActKeepsInv(w: World, m: Move, w': World)
    requires Inv(w) && w' == Act(w, m)
    ensures Inv(w')
  {
    ActGrows(w, m);
    CacheAfterAct(w, m);
    ClientsAfterAct(w, m);
    ServedAfterAct(w, m);
  }

  lemma {:induction false} TimeKeepsInv(w: World, elapsed: nat, w': World)
    requires Inv(w) && w' == w.(clock := w.clock + elapsed)
    ensures Inv(w')
  {
    InvStays(w, w');
  }

  lemma {:induction false} StepKeepsInv(w: World, s: Timed, w': World)
    requires Inv(w) && w' == Step(w, s)
    ensures Inv(w')
  {
    var w1 := w.(clock := w.clock + s.elapsed);
    TimeKeepsInv(w, s.elapsed, w1);
    ActKeepsInv(w1, s.move, w');
  }

  lemma {:induction false} EveryRunKeepsInv(locations: map<string, Settings>, steps: seq<Timed>)
    ensures Inv(Run(locations, steps))
  {
    if |steps| > 0 {
      EveryRunKeepsInv(locations, steps[..|steps| - 1]);
      StepKeepsInv(Run(locations, steps[..|steps| - 1]), steps[|steps| - 1], Run(locations, steps));
    }
  }

  /** In every interleaving, a value served from the cache was set at most one TTL before, and was the
      stored value at some instant no earlier than the start of the load that set it. */
  lemma {:induction false} ServedIsRecent(locations: map<string, Settings>, steps: seq<Timed>, i: nat)
    requires i < |Run(locations, steps).served|
    ensures var w := Run(locations, steps);
            var s := w.served[i];
            && s.at - TTL_SECONDS <= s.slot.setAt <= s.at
            && exists k :: s.slot.start <= k < |w.past| && s.id in w.past[k] && w.past[k][s.id] == s.value
  {
    EveryRunKeepsInv(locations, steps);
    assert ServedOk(Run(locations, steps), Run(locations, steps).served[i]);
  }

  // ---- Exactly when the cache is coherent ----

  /** A writer of the location is between its write and its invalidation. */
  predicate Pending(w: World, id: string) {
    exists c :: c in w.clients && w.clients[c] == Written(id)
  }

  predicate IsStored(w: World, id: string, value: Settings)
    requires |w.past| > 0
  {
    id in Now(w) && Now(w)[id] == value
  }

  /** Every cached value is the stored one, unless a writer is about to invalidate it. */
  predicate Coherent(w: World)
    requires |w.past| > 0
  {
    forall id :: id in w.cache ==> IsStored(w, id, w.cache[id].value) || Pending(w, id)
  }

  /** A client fills the cache with a value that was overwritten since its load, and no writer that could
      still invalidate it is under way. */
  predicate LateFill(w: World, m: Move)
    requires |w.past| > 0
  {
    m.Advance? && m.c in w.clients && w.clients[m.c].Loaded?
    && !IsStored(w, w.clients[m.c].id, w.clients[m.c].value) && !Pending(w, w.clients[m.c].id)
  }

  lemma {:induction false} PendingStays(w: World, m: Move, id: string)
    requires |w.past| > 0 && Pending(w, id)
    ensures Pending(Act(w, m), id) || id !in Act(w, m).cache
  {
    var c :| c in w.clients && w.clients[c] == Written(id);
    assert !(m.Advance? && m.c == c) ==> c in Act(w, m).clients && Act(w, m).clients[c] == Written(id);
  }

  /** Writing makes a cached value wrong only while the writer is pending. */
  lemma {:induction false} WriteIsPending(w: World, m: Move, id: string, value: Settings)
    requires |w.past| > 0 && IsStored(w, id, value) && !IsStored(Act(w, m), id, value)
    ensures Pending(Act(w, m), id)
  {
    assert m.Advance? && m.c in w.clients && w.clients[m.c].Writing? && w.clients[m.c].id == id;
    assert Act(w, m).clients[m.c] == Written(id);
  }

  lemma {:induction false} FillStores(w: World, m: Move)
    requires |w.past| > 0 && m.Advance? && m.c in w.clients && w.clients[m.c].Loaded?
    ensures var w', p := Act(w, m), w.clients[m.c];
            && p.id in w'.cache && w'.cache[p.id].value == p.value
            && (IsStored(w', p.id, p.value) <==> IsStored(w, p.id, p.value))
            && (Pending(w', p.id) <==> Pending(w, p.id))
  {
    var w' := Act(w, m);
    assert forall c :: c in w'.clients <==> c in w.clients && c != m.c;
    assert w.clients[m.c] != Written(w.clients[m.c].id);
  }

  lemma {:induction false} ActKeepsCoherentAt(w: World, m: Move, id: string)
    requires |w.past| > 0 && Coherent(w) && !LateFill(w, m) && id in Act(w, m).cache
    ensures IsStored(Act(w, m), id, Act(w, m).cache[id].value) || Pending(Act(w, m), id)
  {
    if m.Advance? && m.c in w.clients && w.clients[m.c].Loaded? && w.clients[m.c].id == id {
      FillStores(w, m);
    } else {
      assert id in w.cache && Act(w, m).cache[id] == w.cache[id];
      if Pending(w, id) {
        PendingStays(w, m, id);
      } else if !IsStored(Act(w, m), id, w.cache[id].value) {
        WriteIsPending(w, m, id, w.cache[id].value);
      }
    }
  }

  lemma {:induction false} LateFillBreaks(w: World, m: Move)
    requires |w.past| > 0 && LateFill(w, m)
    ensures !Coherent(Act(w, m))
  {
    FillStores(w, m);
  }

  /** One step from a coherent state leads to a coherent state exactly if it is no late fill. */
  lemma {:induction false} ActCoherentIff(w: World, m: Move)
    requires |w.past| > 0 && Coherent(w)
    ensures Coherent(Act(w, m)) <==> !LateFill(w, m)
  {
    if LateFill(w, m) {
      LateFillBreaks(w, m);
    } else {
      forall id | id in Act(w, m).cache
        ensures IsStored(Act(w, m), id, Act(w, m).cache[id].value) || Pending(Act(w, m), id)
      {
        ActKeepsCoherentAt(w, m, id);
      }
    }
  }

  predicate LateFillAt(locations: map<string, Settings>, steps: seq<Timed>, i: nat)
    requires i < |steps|
  {
    LateFill(Run(locations, steps[..i]), steps[i].move)
  }

  lemma {:induction false} StepCoherentIff(w: World, s: Timed)
    requires |w.past| > 0 && Coherent(w)
    ensures Coherent(Step(w, s)) <==> !LateFill(w, s.move)
  {
    var w1 := w.(clock := w.clock + s.elapsed);
    assert forall id :: Pending(w1, id) <==> Pending(w, id);
    assert forall id, value :: IsStored(w1, id, value) <==> IsStored(w, id, value);
    ActCoherentIff(w1, s.move);
  }

  lemma {:induction false} NoLateFillIsCoherent(locations: map<string, Settings>, steps: seq<Timed>)
    requires forall i :: 0 <= i < |steps| ==> !LateFillAt(locations, steps, i)
    ensures Coherent(Run(locations, steps))
  {
    if |steps| > 0 {
      var n := |steps| - 1;
      forall i | 0 <= i < n ensures !LateFillAt(locations, steps[..n], i) {
        assert steps[..n][..i] == steps[..i];
        assert !LateFillAt(locations, steps, i);
      }
      NoLateFillIsCoherent(locations, steps[..n]);
      assert !LateFillAt(locations, steps, n);
      StepCoherentIff(Run(locations, steps[..n]), steps[n]);
    }
  }

  lemma {:induction false} LateFillIsIncoherent(locations: map<string, Settings>, steps: seq<Timed>, i: nat)
    requires i < |steps| && LateFillAt(locations, steps, i)
    ensures !Coherent(Run(locations, steps[..i + 1]))
  {
    var w := Run(locations, steps[..i]);
    assert steps[..i + 1][..i] == steps[..i];
    var w1 := w.(clock := w.clock + steps[i].elapsed);
    var id := w.clients[steps[i].move.c].id;
    assert Pending(w1, id) <==> Pending(w, id);
    LateFillBreaks(w1, steps[i].move);
  }

  /** Over a whole run the cache is coherent at every instant if and only if no step was a late fill. */
  lemma {:induction false} CoherentIff(locations: map<string, Settings>, steps: seq<Timed>)
    ensures (forall n :: 0 <= n <= |steps| ==> Coherent(Run(locations, steps[..n]))) <==>
            (forall i :: 0 <= i < |steps| ==> !LateFillAt(locations, steps, i))
  {
    if forall i :: 0 <= i < |steps| ==> !LateFillAt(locations, steps, i) {
      forall n | 0 <= n <= |steps| ensures Coherent(Run(locations, steps[..n])) {
        forall i | 0 <= i < n ensures !LateFillAt(locations, steps[..n], i) {
          assert steps[..n][..i] == steps[..i];
          assert !LateFillAt(locations, steps, i);
        }
        NoLateFillIsCoherent(locations, steps[..n]);
      }
    } else {
      var i :| 0 <= i < |steps| && LateFillAt(locations, steps, i);
      LateFillIsIncoherent(locations, steps, i);
    }
  }

  /** A fill leaves a wrong entry exactly when the stored value has changed since the instant it was
      read. */
  lemma {:induction false} FillIsWrongIff(w: World, c: nat)
    requires Inv(w) && c in w.clients && w.clients[c].Loaded?
    ensures var w', p := Act(w, Advance(c)), w.clients[c];
            && p.id in w'.cache && p.seen < |w.past| && p.id in w.past[p.seen]
            && (IsStored(w', p.id, w'.cache[p.id].value) <==>
                  p.id in Now(w) && Now(w)[p.id] == w.past[p.seen][p.id])
  {
    FillStores(w, Advance(c));
    assert PhaseOk(w, w.clients[c]);
  }

  // ---- Writes that overtake a load ----

  /** A write that changes the stored value while some client has loaded the old one. */
  predicate Overtakes(w: World, m: Move)
    requires |w.past| > 0
  {
    m.Advance? && m.c in w.clients && w.clients[m.c].Writing?
    && IsStored(Act(w, m), w.clients[m.c].id, w.clients[m.c].value)
    && !IsStored(w, w.clients[m.c].id, w.clients[m.c].value)
    && exists d :: d in w.clients && w.clients[d].Loaded? && w.clients[d].id == w.clients[m.c].id
  }

  predicate LoadsAreStored(w: World)
    requires |w.past| > 0
  {
    forall d :: d in w.clients && w.clients[d].Loaded? ==> IsStored(w, w.clients[d].id, w.clients[d].value)
  }

  lemma {:induction false} ActKeepsLoads(w: World, m: Move)
    requires |w.past| > 0 && LoadsAreStored(w) && !Overtakes(w, m)
    ensures LoadsAreStored(Act(w, m)) && !LateFill(w, m)
  {
    var w' := Act(w, m);
    forall d | d in w'.clients && w'.clients[d].Loaded?
      ensures IsStored(w', w'.clients[d].id, w'.clients[d].value)
    {
      if d in w.clients && w.clients[d].Loaded? {
        assert w'.clients[d] == w.clients[d];
      }
    }
  }

  predicate OvertakesAt(locations: map<string, Settings>, steps: seq<Timed>, i: nat)
    requires i < |steps|
  {
    Overtakes(Run(locations, steps[..i]), steps[i].move)
  }

  lemma {:induction false} StepKeepsLoads(w: World, s: Timed)
    requires |w.past| > 0 && LoadsAreStored(w) && !Overtakes(w, s.move)
    ensures LoadsAreStored(Step(w, s)) && !LateFill(w, s.move)
  {
    var w1 := w.(clock := w.clock + s.elapsed);
    assert Act(w1, s.move).past == Act(w, s.move).past;
    ActKeepsLoads(w, s.move);
    ActKeepsLoads(w1, s.move);
  }

  lemma {:induction false} NothingOvertaken(locations: map<string, Settings>, steps: seq<Timed>)
    requires forall i :: 0 <= i < |steps| ==> !OvertakesAt(locations, steps, i)
    ensures LoadsAreStored(Run(locations, steps))
    ensures forall i :: 0 <= i < |steps| ==> !LateFillAt(locations, steps, i)
  {
    if |steps| > 0 {
      var n := |steps| - 1;
      forall i | 0 <= i < n ensures !OvertakesAt(locations, steps[..n], i) {
        assert steps[..n][..i] == steps[..i];
        assert !OvertakesAt(locations, steps, i);
      }
      NothingOvertaken(locations, steps[..n]);
      assert !OvertakesAt(locations, steps, n);
      StepKeepsLoads(Run(locations, steps[..n]), steps[n]);
      forall i | 0 <= i < n ensures !LateFillAt(locations, steps, i) {
        assert steps[..n][..i] == steps[..i];
        assert !LateFillAt(locations, steps[..n], i);
      }
    }
  }

  /** If no write changes a value that some client has loaded and not yet cached, a read served from the
      cache gets the stored value, or a writer is about to invalidate it. */
  lemma {:induction false} ReadsAreCurrent(locations: map<string, Settings>, steps: seq<Timed>, c: nat, id: string)
    requires forall i :: 0 <= i < |steps| ==> !OvertakesAt(locations, steps, i)
    ensures var w := Run(locations, steps);
            var w' := Act(w, Read(c, id));
            |w'.served| > |w.served| ==>
              w'.served[|w.served|].id == id
              && (IsStored(w, id, w'.served[|w.served|].value) || Pending(w, id))
  {
    NothingOvertaken(locations, steps);
    NoLateFillIsCoherent(locations, steps);
  }

  // ---- A late fill ----

  /** A step at the clock's current reading. */
  lemma {:induction false} RunPush(locations: map<string, Settings>, steps: seq<Timed>, m: Move)
    ensures Run(locations, steps + [Timed(m, 0)]) == Act(Run(locations, steps), m)
  {
  }

  function At(m: Move): seq<Timed> {
    [Timed(m, 0)]
  }

  lemma {:induction false} WriterActs(w: World, c: nat, id: string, value: Settings)
    requires |w.past| > 0 && c !in w.clients
    ensures Act(Act(Act(w, Update(c, id, value)), Advance(c)), Advance(c)) ==
            w.(past := w.past + [WriteInner(Now(w), id, value)], cache := w.cache - {id})
  {
  }

  /** A writer's three steps with nobody in between. */
  lemma {:induction false} WriterRound(locations: map<string, Settings>, steps: seq<Timed>, c: nat, id: string, value: Settings)
    requires c !in Run(locations, steps).clients
    ensures var w := Run(locations, steps);
            Run(locations, steps + At(Update(c, id, value)) + At(Advance(c)) + At(Advance(c))) ==
              w.(past := w.past + [WriteInner(Now(w), id, value)], cache := w.cache - {id})
  {
    RunPush(locations, steps, Update(c, id, value));
    RunPush(locations, steps + At(Update(c, id, value)), Advance(c));
    RunPush(locations, steps + At(Update(c, id, value)) + At(Advance(c)), Advance(c));
    WriterActs(Run(locations, steps), c, id, value);
  }

  /** A reader loads; a writer writes and invalidates; only then the reader fills the cache. */
  function SlowReader(): seq<Timed> {
    At(Read(1, "gym")) + At(Advance(1))
    + At(Update(2, "gym", "new")) + At(Advance(2)) + At(Advance(2))
    + At(Advance(1)) + At(Read(3, "gym"))
  }

  lemma LateFillLoaded()
    ensures Run(map["gym" := "old"], At(Read(1, "gym")) + At(Advance(1))) ==
            Start(map["gym" := "old"]).(clients := map[1 := Loaded("gym", "old", 0, 0)])
  {
  }

  /** Filling the cache with a value loaded earlier, then reading it. */
  lemma {:induction false} FillAndRead(w: World, reader: nat, other: nat, id: string, value: Settings)
    requires |w.past| > 0 && w.clients == map[reader := Loaded(id, value, 0, 0)] && other != reader && w.served == []
    ensures var w' := Act(Act(w, Advance(reader)), Read(other, id));
            |w'.served| == 1 && w'.served[0].value == value && w'.past == w.past
  {
  }

  /** The next reader is served the overwritten value, although every write invalidates: agreement with
      the uncached repository holds for sequential use only. */
  lemma LateFillServesOldValue()
    ensures var w := Run(map["gym" := "old"], SlowReader());
            |w.served| == 1 && w.served[0].value == "old" && Now(w) == map["gym" := "new"]
  {
    var l := map["gym" := "old"];
    var loaded := At(Read(1, "gym")) + At(Advance(1));
    var overtaken := loaded + At(Update(2, "gym", "new")) + At(Advance(2)) + At(Advance(2));
    LateFillLoaded();
    WriterRound(l, loaded, 2, "gym", "new");
    RunPush(l, overtaken, Advance(1));
    RunPush(l, overtaken + At(Advance(1)), Read(3, "gym"));
    FillAndRead(Run(l, overtaken), 1, 3, "gym", "old");
  }
}
