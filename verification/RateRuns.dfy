/** Whole runs of the limiter: sweeping is invisible, and the bound on any sliding interval. */
module RateRuns {
  import opened Wrappers
  import opened RateLimiter

  datatype Event =
    | Request(key: string, at: int)
    | Sweep(at: int)

  /** One run of the limiter: the maps between the events, and the decisions. */
  datatype Trace = Trace(events: seq<Event>, maps: seq<Clients>, admitted: seq<bool>)

  /** What Limiter.Cleanup and Limiter.Handle promise about one event. */
  ghost predicate StepOk(cfg: Config, m: Clients, e: Event, m': Clients, admitted: bool, evicted: set<string>) {
    match e
    case Sweep(at) => m' == Swept(cfg, m, at) && evicted == {}
    case Request(key, at) => HandleOk(cfg, m, key, at, m', admitted, evicted)
  }

  /** The part of a step that concerns one key that is not evicted: its entry follows the kept
      limiter's, or leaves because it is stale. */
  lemma {:induction false} StepForKey(cfg: Config, m: Clients, e: Event, m': Clients, admitted: bool, evicted: set<string>, key: string)
    requires StepOk(cfg, m, e, m', admitted, evicted) && key != "" && key !in evicted
    ensures var w, w' := Lookup(m, key), Lookup(m', key);
            if e.Request? && e.key == key then w' == Some(Decide(cfg, w, e.at).0) && admitted == Decide(cfg, w, e.at).1
            else w' == w || (w'.None? && e.at - w.value.start > CleanTTL(cfg))
  {
  }

  ghost predicate IsRun(cfg: Config, t: Trace, evictions: seq<set<string>>) {
    && |t.maps| == |t.events| + 1 && |t.admitted| == |evictions| == |t.events|
    && t.maps[0] == map[]
    && (forall i :: 0 <= i < |t.events| ==>
          StepOk(cfg, t.maps[i], t.events[i], t.maps[i + 1], t.admitted[i], evictions[i]))
    && forall i, j :: 0 <= i < j < |t.events| ==> t.events[i].at <= t.events[j].at
  }

  lemma {:induction false} StepBounded(cfg: Config, m: Clients, e: Event, m': Clients, admitted: bool, evicted: set<string>)
    requires cfg.maxClients > 0 && |m| <= cfg.maxClients && StepOk(cfg, m, e, m', admitted, evicted)
    ensures |m'| <= cfg.maxClients
  {
    if e.Sweep? {
      SubmapSize(m', m);
    } else if e.key in m {
      assert m'.Keys == m.Keys;
    } else if e.key != "" {
      assert m'.Keys == (m' - {e.key}).Keys + {e.key};
    }
  }

  /** In every run the map stays within its cap. */
  lemma {:induction false} MapBounded(cfg: Config, t: Trace, evictions: seq<set<string>>, n: nat)
    requires cfg.maxClients > 0 && IsRun(cfg, t, evictions) && n <= |t.events|
    ensures |t.maps[n]| <= cfg.maxClients
  {
    if n > 0 {
      MapBounded(cfg, t, evictions, n - 1);
      StepBounded(cfg, t.maps[n - 1], t.events[n - 1], t.maps[n], t.admitted[n - 1], evictions[n - 1]);
    }
  }

  // ---- The limiter that never deletes ----

  /** The window of one key after a run of a limiter that keeps every entry forever. */
  function Kept(cfg: Config, events: seq<Event>, key: string): Option<Window> {
    if |events| == 0 then None
    else
      var n := |events| - 1;
      var before := Kept(cfg, events[..n], key);
      if events[n].Request? && events[n].key == key then Some(Decide(cfg, before, events[n].at).0) else before
  }

  /** The decision of that limiter on event i. */
  function KeptAdmits(cfg: Config, events: seq<Event>, i: nat): bool
    requires i < |events| && events[i].Request?
  {
    events[i].key == "" || Decide(cfg, Kept(cfg, events[..i], events[i].key), events[i].at).1
  }

  ghost predicate NeverEvicted(evictions: seq<set<string>>, key: string, n: nat)
    requires n <= |evictions|
  {
    forall i :: 0 <= i < n ==> key !in evictions[i]
  }

  /** The map entry agrees with the kept one, unless the kept one is already stale. */
  ghost predicate Agrees(cfg: Config, entry: Option<Window>, kept: Option<Window>, now: int) {
    entry == kept || (entry.None? && now - kept.value.start > CleanTTL(cfg))
  }

  lemma {:induction false} EntryAgrees(cfg: Config, t: Trace, evictions: seq<set<string>>, key: string, n: nat)
    requires ValidConfig(cfg) && IsRun(cfg, t, evictions) && key != ""
    requires n <= |t.events| && NeverEvicted(evictions, key, n)
    ensures var now := if n == 0 then 0 else t.events[n - 1].at;
            Agrees(cfg, Lookup(t.maps[n], key), Kept(cfg, t.events[..n], key), now)
  {
    if n > 0 {
      var e := t.events[n - 1];
      EntryAgrees(cfg, t, evictions, key, n - 1);
      assert t.events[..n][..n - 1] == t.events[..n - 1];
      StepForKey(cfg, t.maps[n - 1], e, t.maps[n], t.admitted[n - 1], evictions[n - 1], key);
      assert n > 1 ==> t.events[n - 2].at <= e.at;
    }
  }

  /** Sweeping is invisible: on every key that is not evicted, the limiter with background and inline
      sweeps decides every request as one that never deletes an entry. */
  lemma {:induction false} SweepingIsInvisible(cfg: Config, t: Trace, evictions: seq<set<string>>, i: nat)
    requires ValidConfig(cfg) && IsRun(cfg, t, evictions)
    requires i < |t.events| && t.events[i].Request? && NeverEvicted(evictions, t.events[i].key, i)
    ensures t.admitted[i] == KeptAdmits(cfg, t.events, i)
  {
    var e := t.events[i];
    assert StepOk(cfg, t.maps[i], e, t.maps[i + 1], t.admitted[i], evictions[i]);
    if e.key != "" {
      EntryAgrees(cfg, t, evictions, e.key, i);
      assert i > 0 ==> t.events[i - 1].at <= e.at;
    }
  }

  // ---- The sliding interval ----

  /** The times at which the key was requested, in order. */
  function TimesOf(events: seq<Event>, key: string): seq<int> {
    if |events| == 0 then [] else
      (if events[0].Request? && events[0].key == key then [events[0].at] else []) + TimesOf(events[1..], key)
  }

  /** Requests admitted at times within [from, to], starting from window w. */
  function AdmittedWithin(cfg: Config, w: Option<Window>, times: seq<int>, from: int, to: int): nat
    decreases |times|
  {
    if |times| == 0 then 0
    else
      var (w', ok) := Decide(cfg, w, times[0]);
      (if ok && from <= times[0] <= to then 1 else 0) + AdmittedWithin(cfg, Some(w'), times[1..], from, to)
  }

  ghost predicate Ordered(times: seq<int>) {
    forall i, j :: 0 <= i < j < |times| ==> times[i] <= times[j]
  }

  function Left(cfg: Config, w: Window): int {
    if w.count < cfg.limit then cfg.limit - w.count else 0
  }

  /** Nothing is counted once the interval is over. */
  lemma {:induction false} NothingAfter(cfg: Config, w: Option<Window>, times: seq<int>, from: int, to: int)
    requires forall i :: 0 <= i < |times| ==> times[i] > to
    ensures AdmittedWithin(cfg, w, times, from, to) == 0
    decreases |times|
  {
    if |times| > 0 {
      NothingAfter(cfg, Some(Decide(cfg, w, times[0]).0), times[1..], from, to);
    }
  }

  /** An interval that ends inside the window gets at most what is left of its quota. */
  lemma {:induction false} WithinOneWindow(cfg: Config, w: Window, times: seq<int>, from: int, to: int)
    requires Ordered(times) && to <= w.start + cfg.window
    ensures AdmittedWithin(cfg, Some(w), times, from, to) <= Left(cfg, w)
    decreases |times|
  {
    if |times| > 0 {
      if times[0] > to {
        NothingAfter(cfg, Some(w), times, from, to);
      } else {
        WithinOneWindow(cfg, Decide(cfg, Some(w), times[0]).0, times[1..], from, to);
      }
    }
  }

  /** An interval no longer than the window sees the rest of the current window and one more. */
  lemma {:induction false} AcrossOneReset(cfg: Config, w: Window, times: seq<int>, from: int, to: int)
    requires cfg.limit >= 1 && Ordered(times) && to - from <= cfg.window
    requires forall i :: 0 <= i < |times| ==> times[i] >= from
    ensures AdmittedWithin(cfg, Some(w), times, from, to) <= Left(cfg, w) + cfg.limit
    decreases |times|
  {
    if |times| > 0 {
      var (w', ok) := Decide(cfg, Some(w), times[0]);
      if Opens(cfg, Some(w), times[0]) {
        WithinOneWindow(cfg, w', times[1..], from, to);
      } else {
        AcrossOneReset(cfg, w', times[1..], from, to);
      }
    }
  }

  /** For the limiter without deletions: at most 2 * limit - 1 admissions in any closed interval no
      longer than the window, from any open window or none. */
  lemma {:induction false} SlidingBound(cfg: Config, w: Option<Window>, times: seq<int>, from: int, to: int)
    requires cfg.limit >= 1 && ValidConfig(cfg) && Ordered(times) && to - from <= cfg.window
    requires w.Some? ==> w.value.count >= 1
    ensures AdmittedWithin(cfg, w, times, from, to) <= 2 * cfg.limit - 1
    decreases |times|
  {
    if |times| > 0 {
      var (w', ok) := Decide(cfg, w, times[0]);
      if times[0] < from {
        SlidingBound(cfg, Some(w'), times[1..], from, to);
      } else if w.Some? {
        AcrossOneReset(cfg, w.value, times, from, to);
      } else {
        WithinOneWindow(cfg, w', times[1..], from, to);
      }
    }
  }

  /** Requests of the key admitted by the real limiter during [from, to]. */
  function RealAdmitted(t: Trace, key: string, from: int, to: int, n: nat): nat
    requires n <= |t.events| && |t.admitted| == |t.events|
  {
    if n == 0 then 0
    else
      var e := t.events[n - 1];
      RealAdmitted(t, key, from, to, n - 1)
        + (if e.Request? && e.key == key && t.admitted[n - 1] && from <= e.at <= to then 1 else 0)
  }

  /** Counting from the front and splitting the last event off agree. */
  lemma {:induction false} AdmittedSnoc(cfg: Config, w: Option<Window>, times: seq<int>, at: int, from: int, to: int)
    ensures AdmittedWithin(cfg, w, times + [at], from, to) ==
            AdmittedWithin(cfg, w, times, from, to)
              + (if Decide(cfg, WindowAfter(cfg, w, times), at).1 && from <= at <= to then 1 else 0)
    decreases |times|
  {
    if |times| > 0 {
      assert (times + [at])[1..] == times[1..] + [at];
      AdmittedSnoc(cfg, Some(Decide(cfg, w, times[0]).0), times[1..], at, from, to);
    } else {
      assert (times + [at])[1..] == [];
      assert times + [at] == [at];
    }
  }

  function WindowAfter(cfg: Config, w: Option<Window>, times: seq<int>): Option<Window>
    decreases |times|
  {
    if |times| == 0 then w else WindowAfter(cfg, Some(Decide(cfg, w, times[0]).0), times[1..])
  }

  lemma {:induction false} WindowAfterSnoc(cfg: Config, w: Option<Window>, times: seq<int>, at: int)
    ensures WindowAfter(cfg, w, times + [at]) == Some(Decide(cfg, WindowAfter(cfg, w, times), at).0)
    decreases |times|
  {
    if |times| > 0 {
      assert (times + [at])[1..] == times[1..] + [at];
      WindowAfterSnoc(cfg, Some(Decide(cfg, w, times[0]).0), times[1..], at);
    } else {
      assert times + [at] == [at] && [at][1..] == [];
    }
  }

  lemma {:induction false} TimesSnoc(events: seq<Event>, e: Event, key: string)
    ensures TimesOf(events + [e], key) ==
            TimesOf(events, key) + (if e.Request? && e.key == key then [e.at] else [])
  {
    if |events| > 0 {
      assert (events + [e])[1..] == events[1..] + [e];
      TimesSnoc(events[1..], e, key);
    } else {
      assert events + [e] == [e] && [e][1..] == [];
    }
  }

  /** What one more event does to the times, the kept window and the real count of a key. */
  lemma {:induction false} EventForKey(cfg: Config, t: Trace, key: string, from: int, to: int, n: nat)
    requires n < |t.events| == |t.admitted|
    ensures var e := t.events[n];
            var hit := e.Request? && e.key == key;
            && TimesOf(t.events[..n + 1], key) == TimesOf(t.events[..n], key) + (if hit then [e.at] else [])
            && Kept(cfg, t.events[..n + 1], key) ==
                 (if hit then Some(Decide(cfg, Kept(cfg, t.events[..n], key), e.at).0) else Kept(cfg, t.events[..n], key))
  {
    var e := t.events[n];
    assert t.events[..n + 1] == t.events[..n] + [e];
    assert t.events[..n + 1][..n] == t.events[..n];
    TimesSnoc(t.events[..n], e, key);
  }

  /** The kept window of a key is the window after its request times. */
  lemma {:induction false} KeptIsWindowAfter(cfg: Config, t: Trace, key: string, n: nat)
    requires n <= |t.events| == |t.admitted|
    ensures Kept(cfg, t.events[..n], key) == WindowAfter(cfg, None, TimesOf(t.events[..n], key))
  {
    if n > 0 {
      KeptIsWindowAfter(cfg, t, key, n - 1);
      EventForKey(cfg, t, key, 0, 0, n - 1);
      var times := TimesOf(t.events[..n - 1], key);
      WindowAfterSnoc(cfg, None, times, t.events[n - 1].at);
      assert times + [] == times;
    }
  }

  lemma {:induction false} TimesOrdered(t: Trace, key: string, n: nat)
    requires n <= |t.events| == |t.admitted|
    requires forall i, j :: 0 <= i < j < |t.events| ==> t.events[i].at <= t.events[j].at
    ensures var times := TimesOf(t.events[..n], key);
            Ordered(times) && forall i :: 0 <= i < |times| ==> n > 0 && times[i] <= t.events[n - 1].at
  {
    if n > 0 {
      TimesOrdered(t, key, n - 1);
      var e := t.events[n - 1];
      assert t.events[..n] == t.events[..n - 1] + [e];
      TimesSnoc(t.events[..n - 1], e, key);
      assert n > 1 ==> t.events[n - 2].at <= e.at;
    }
  }

  /** For a key not evicted, the real count and the kept limiter's count are the same. */
  lemma {:induction false} RealIsKept(cfg: Config, t: Trace, evictions: seq<set<string>>, key: string,
      from: int, to: int, n: nat)
    requires ValidConfig(cfg) && IsRun(cfg, t, evictions) && key != ""
    requires n <= |t.events| && NeverEvicted(evictions, key, n)
    ensures RealAdmitted(t, key, from, to, n) == AdmittedWithin(cfg, None, TimesOf(t.events[..n], key), from, to)
  {
    if n > 0 {
      var e := t.events[n - 1];
      var times := TimesOf(t.events[..n - 1], key);
      RealIsKept(cfg, t, evictions, key, from, to, n - 1);
      EventForKey(cfg, t, key, from, to, n - 1);
      if e.Request? && e.key == key {
        SweepingIsInvisible(cfg, t, evictions, n - 1);
        KeptIsWindowAfter(cfg, t, key, n - 1);
        AdmittedSnoc(cfg, None, times, e.at, from, to);
      } else {
        assert times + [] == times;
      }
    }
  }

  /** In every run, a key that is never evicted gets at most 2 * limit - 1 requests through in any
      closed interval no longer than the window. */
  lemma {:induction false} SlidingIntervalBound(cfg: Config, t: Trace, evictions: seq<set<string>>, key: string, from: int, to: int)
    requires ValidConfig(cfg) && cfg.limit >= 1 && IsRun(cfg, t, evictions) && key != ""
    requires NeverEvicted(evictions, key, |evictions|) && to - from <= cfg.window
    ensures RealAdmitted(t, key, from, to, |t.events|) <= 2 * cfg.limit - 1
  {
    RealIsKept(cfg, t, evictions, key, from, to, |t.events|);
    TimesOrdered(t, key, |t.events|);
    SlidingBound(cfg, None, TimesOf(t.events[..|t.events|], key), from, to);
  }

  // ---- With evictions ----

  /** How often the key was evicted at times within [from, to]. */
  function EvictionsOf(t: Trace, evictions: seq<set<string>>, key: string, from: int, to: int, n: nat): nat
    requires n <= |t.events| && |evictions| == |t.events|
  {
    if n == 0 then 0
    else
      EvictionsOf(t, evictions, key, from, to, n - 1)
        + (if key in evictions[n - 1] && from <= t.events[n - 1].at <= to then 1 else 0)
  }

  /** What a key may still get through without a further eviction, before the interval ends: the rest of
      its window, and a whole window more unless its window began inside the interval. */
  function Reserve(cfg: Config, w: Option<Window>, from: int): int {
    if w.None? then cfg.limit
    else Left(cfg, w.value) + (if w.value.start < from then cfg.limit else 0)
  }

  function Quota(cfg: Config, evicted: nat): int {
    2 * cfg.limit - 1 + cfg.limit * evicted
  }

  ghost predicate WithinQuota(cfg: Config, w: Option<Window>, admitted: nat, evicted: nat, from: int) {
    && (w.Some? ==> w.value.count >= 1)
    && admitted + Reserve(cfg, w, from) <= Quota(cfg, evicted)
  }

  /** An event that does not evict the key moves its admissions from the reserve. */
  lemma {:induction false} EventWithinQuota(cfg: Config, w: Option<Window>, w': Option<Window>, hit: bool, ok: bool, at: int,
      admitted: nat, evicted: nat, from: int, to: int)
    requires ValidConfig(cfg) && cfg.limit >= 1 && to - from <= cfg.window && at <= to
    requires if hit then w' == Some(Decide(cfg, w, at).0) && ok == Decide(cfg, w, at).1
             else w' == w || (w'.None? && at - w.value.start > CleanTTL(cfg))
    requires WithinQuota(cfg, w, admitted, evicted, from)
    requires at < from ==> admitted == 0
    ensures WithinQuota(cfg, w', admitted + (if hit && ok && from <= at then 1 else 0), evicted, from)
  {
  }

  lemma {:induction false} EvictedWithinQuota(cfg: Config, w: Option<Window>, admitted: nat, evicted: nat, from: int)
    requires cfg.limit >= 1 && WithinQuota(cfg, w, admitted, evicted, from)
    ensures WithinQuota(cfg, None, admitted, evicted + 1, from)
    ensures admitted == 0 ==> WithinQuota(cfg, None, admitted, evicted, from)
  {
    assert cfg.limit * (evicted + 1) == cfg.limit * evicted + cfg.limit;
    assert cfg.limit * evicted >= 0;
  }

  /** The entry of an evicted key is gone, and its eviction admits no request of its own. */
  lemma {:induction false} EvictedStep(cfg: Config, m: Clients, e: Event, m': Clients, admitted: bool, evicted: set<string>, key: string)
    requires StepOk(cfg, m, e, m', admitted, evicted) && key in evicted
    ensures Lookup(m', key).None? && !(e.Request? && e.key == key)
  {
  }

  lemma {:induction false} NothingBefore(t: Trace, key: string, from: int, to: int, n: nat)
    requires n <= |t.events| && |t.admitted| == |t.events|
    requires forall i :: 0 <= i < n ==> t.events[i].at < from
    ensures RealAdmitted(t, key, from, to, n) == 0
  {
    if n > 0 {
      NothingBefore(t, key, from, to, n - 1);
    }
  }

  lemma {:induction false} NothingPast(t: Trace, key: string, from: int, to: int, n: nat)
    requires 0 < n <= |t.events| && |t.admitted| == |t.events| && t.events[n - 1].at > to
    ensures RealAdmitted(t, key, from, to, n) == RealAdmitted(t, key, from, to, n - 1)
  {
  }

  lemma {:induction false} StepWithinQuota(cfg: Config, m: Clients, ev: Event, m': Clients, admitted: bool, evicted: set<string>,
      key: string, a: nat, e: nat, from: int, to: int)
    requires ValidConfig(cfg) && cfg.limit >= 1 && key != "" && to - from <= cfg.window
    requires StepOk(cfg, m, ev, m', admitted, evicted) && ev.at <= to && (ev.at < from ==> a == 0)
    requires WithinQuota(cfg, Lookup(m, key), a, e, from)
    ensures WithinQuota(cfg, Lookup(m', key),
              a + (if ev.Request? && ev.key == key && admitted && from <= ev.at then 1 else 0),
              e + (if key in evicted && from <= ev.at then 1 else 0), from)
  {
    if key in evicted {
      EvictedStep(cfg, m, ev, m', admitted, evicted, key);
      EvictedWithinQuota(cfg, Lookup(m, key), a, e, from);
    } else {
      StepForKey(cfg, m, ev, m', admitted, evicted, key);
      EventWithinQuota(cfg, Lookup(m, key), Lookup(m', key), ev.Request? && ev.key == key, admitted, ev.at, a, e, from, to);
    }
  }

  lemma {:induction false} WithinQuotaIsBounded(cfg: Config, w: Option<Window>, a: nat, e: nat, from: int)
    requires cfg.limit >= 1 && WithinQuota(cfg, w, a, e, from)
    ensures a <= Quota(cfg, e)
  {
  }

  /** The state of the account after n events. */
  ghost predicate AccountOk(cfg: Config, t: Trace, evictions: seq<set<string>>, key: string, from: int, to: int, n: nat)
    requires n <= |t.events| && |t.maps| == |t.events| + 1 && |t.admitted| == |evictions| == |t.events|
  {
    var a, e := RealAdmitted(t, key, from, to, n), EvictionsOf(t, evictions, key, from, to, n);
    && a <= Quota(cfg, e)
    && (n == 0 || t.events[n - 1].at <= to ==> WithinQuota(cfg, Lookup(t.maps[n], key), a, e, from))
  }

  lemma {:induction false} AccountStep(cfg: Config, t: Trace, evictions: seq<set<string>>, key: string, from: int, to: int, n: nat)
    requires ValidConfig(cfg) && cfg.limit >= 1 && IsRun(cfg, t, evictions) && key != ""
    requires n < |t.events| && to - from <= cfg.window && t.events[n].at <= to
    requires AccountOk(cfg, t, evictions, key, from, to, n)
    ensures AccountOk(cfg, t, evictions, key, from, to, n + 1)
  {
    var ev := t.events[n];
    var a, e := RealAdmitted(t, key, from, to, n), EvictionsOf(t, evictions, key, from, to, n);
    assert n > 0 ==> t.events[n - 1].at <= ev.at;
    if ev.at < from {
      NothingBefore(t, key, from, to, n);
    }
    StepWithinQuota(cfg, t.maps[n], ev, t.maps[n + 1], t.admitted[n], evictions[n], key, a, e, from, to);
    WithinQuotaIsBounded(cfg, Lookup(t.maps[n + 1], key), RealAdmitted(t, key, from, to, n + 1),
      EvictionsOf(t, evictions, key, from, to, n + 1), from);
  }

  lemma {:induction false} AdmittedWithinQuota(cfg: Config, t: Trace, evictions: seq<set<string>>, key: string,
      from: int, to: int, n: nat)
    requires ValidConfig(cfg) && cfg.limit >= 1 && IsRun(cfg, t, evictions) && key != ""
    requires n <= |t.events| && to - from <= cfg.window
    ensures AccountOk(cfg, t, evictions, key, from, to, n)
  {
    if n == 0 {
      assert cfg.limit * 0 == 0;
    } else {
      AdmittedWithinQuota(cfg, t, evictions, key, from, to, n - 1);
      if t.events[n - 1].at <= to {
        AccountStep(cfg, t, evictions, key, from, to, n - 1);
      } else {
        NothingPast(t, key, from, to, n);
      }
    }
  }

  /** In every run and for every key: at most 2 * limit - 1 requests get through in any closed interval no
      longer than the window, plus one limit for each time the key was evicted in it. */
  lemma {:induction false} EvictionsCostOneLimitEach(cfg: Config, t: Trace, evictions: seq<set<string>>, key: string, from: int, to: int)
    requires ValidConfig(cfg) && cfg.limit >= 1 && IsRun(cfg, t, evictions) && key != "" && to - from <= cfg.window
    ensures RealAdmitted(t, key, from, to, |t.events|) <=
            2 * cfg.limit - 1 + cfg.limit * EvictionsOf(t, evictions, key, from, to, |t.events|)
  {
    AdmittedWithinQuota(cfg, t, evictions, key, from, to, |t.events|);
  }

  // ---- Nobody is refused without reason ----

  function AtLeastOne(n: int): int {
    if n >= 1 then n else 1
  }

  /** A window counts no more requests than were admitted since it opened, until its quota is used up. */
  ghost predicate PaidFor(cfg: Config, w: Option<Window>, admitted: nat, now: int) {
    w.Some? ==>
      && w.value.count >= 1 && w.value.start <= now
      && (admitted >= w.value.count || admitted >= AtLeastOne(cfg.limit))
  }

  lemma {:induction false} RequestPaidFor(cfg: Config, w: Option<Window>, at: int, before: nat, since: nat)
    requires PaidFor(cfg, w, before, at)
    ensures var (w', ok) := Decide(cfg, w, at);
            && (Opens(cfg, w, at) && since >= 1 ==> PaidFor(cfg, Some(w'), since, at))
            && (!Opens(cfg, w, at) ==>
                  PaidFor(cfg, Some(w'), before + (if ok then 1 else 0), at))
  {
  }

  /** What the key was granted since its window opened. */
  function Granted(t: Trace, key: string, w: Option<Window>, to: int, n: nat): nat
    requires n <= |t.events| && |t.admitted| == |t.events|
  {
    if w.Some? then RealAdmitted(t, key, w.value.start, to, n) else 0
  }

  /** The key's window after n events is paid for at an instant, by requests up to event m. */
  ghost predicate PaidAt(cfg: Config, t: Trace, key: string, n: nat, m: nat, now: int)
    requires n <= m < |t.events| && |t.maps| == |t.events| + 1 && |t.admitted| == |t.events|
  {
    var w := Lookup(t.maps[n], key);
    PaidFor(cfg, w, Granted(t, key, w, t.events[m].at, n), now)
  }

  lemma {:induction false} StepPaidFor(cfg: Config, t: Trace, evictions: seq<set<string>>, key: string, n: nat, m: nat)
    requires |t.maps| == |t.events| + 1 && |t.admitted| == |evictions| == |t.events| && key != "" && n < m < |t.events|
    requires StepOk(cfg, t.maps[n], t.events[n], t.maps[n + 1], t.admitted[n], evictions[n])
    requires t.events[n].at <= t.events[m].at && PaidAt(cfg, t, key, n, m, t.events[n].at)
    ensures PaidAt(cfg, t, key, n + 1, m, t.events[n].at)
  {
    var e, w := t.events[n], Lookup(t.maps[n], key);
    var to := t.events[m].at;
    if key in evictions[n] {
      EvictedStep(cfg, t.maps[n], e, t.maps[n + 1], t.admitted[n], evictions[n], key);
    } else {
      StepForKey(cfg, t.maps[n], e, t.maps[n + 1], t.admitted[n], evictions[n], key);
      if e.Request? && e.key == key {
        RequestPaidFor(cfg, w, e.at, Granted(t, key, w, to, n), RealAdmitted(t, key, e.at, to, n + 1));
      }
    }
  }

  lemma {:induction false} StillPaidFor(cfg: Config, t: Trace, key: string, n: nat, m: nat, now: int, later: int)
    requires n <= m < |t.events| && |t.maps| == |t.events| + 1 && |t.admitted| == |t.events|
    requires PaidAt(cfg, t, key, n, m, now) && now <= later
    ensures PaidAt(cfg, t, key, n, m, later)
  {
  }

  /** Event n, if it comes before event m, keeps windows paid for. */
  ghost predicate KeepsPaid(cfg: Config, t: Trace, key: string, n: nat, m: nat)
    requires n < m < |t.events| && |t.maps| == |t.events| + 1 && |t.admitted| == |t.events|
  {
    PaidAt(cfg, t, key, n, m, t.events[n].at) ==> PaidAt(cfg, t, key, n + 1, m, t.events[n + 1].at)
  }

  lemma {:induction false} EventKeepsPaid(cfg: Config, t: Trace, evictions: seq<set<string>>, key: string, n: nat, m: nat)
    requires |t.maps| == |t.events| + 1 && |t.admitted| == |evictions| == |t.events| && key != "" && n < m < |t.events|
    requires StepOk(cfg, t.maps[n], t.events[n], t.maps[n + 1], t.admitted[n], evictions[n])
    requires t.events[n].at <= t.events[n + 1].at && t.events[n].at <= t.events[m].at
    ensures KeepsPaid(cfg, t, key, n, m)
  {
    if PaidAt(cfg, t, key, n, m, t.events[n].at) {
      StepPaidFor(cfg, t, evictions, key, n, m);
      StillPaidFor(cfg, t, key, n + 1, m, t.events[n].at, t.events[n + 1].at);
    }
  }

  lemma {:induction false} WindowsArePaidFor(cfg: Config, t: Trace, key: string, n: nat, m: nat)
    requires n <= m < |t.events| && |t.maps| == |t.events| + 1 && |t.admitted| == |t.events| && t.maps[0] == map[]
    requires forall k :: 0 <= k < m ==> KeepsPaid(cfg, t, key, k, m)
    ensures PaidAt(cfg, t, key, n, m, t.events[n].at)
  {
    if n > 0 {
      WindowsArePaidFor(cfg, t, key, n - 1, m);
      assert KeepsPaid(cfg, t, key, n - 1, m);
    }
  }

  lemma {:induction false} EarlierStart(t: Trace, key: string, from: int, from': int, to: int, n: nat)
    requires n <= |t.events| && |t.admitted| == |t.events| && from' <= from
    ensures RealAdmitted(t, key, from, to, n) <= RealAdmitted(t, key, from', to, n)
  {
    if n > 0 {
      EarlierStart(t, key, from, from', to, n - 1);
    }
  }

  /** In every run and for every key, evicted or not: a request is denied only if the key got a full limit of
      requests through, and at least one, in the window's length up to that instant. Denials push nothing
      back: whoever got fewer through is let in, however often it was refused meanwhile. */
  lemma {:induction false} DeniedOnlyAfterFullLimit(cfg: Config, t: Trace, evictions: seq<set<string>>, i: nat)
    requires IsRun(cfg, t, evictions) && i < |t.events| && t.events[i].Request? && !t.admitted[i]
    ensures var key, at := t.events[i].key, t.events[i].at;
            var granted := RealAdmitted(t, key, at - cfg.window, at, i);
            granted >= cfg.limit && granted >= 1
  {
    var e := t.events[i];
    assert StepOk(cfg, t.maps[i], e, t.maps[i + 1], t.admitted[i], evictions[i]);
    forall k | 0 <= k < i ensures KeepsPaid(cfg, t, e.key, k, i) {
      EventKeepsPaid(cfg, t, evictions, e.key, k, i);
    }
    WindowsArePaidFor(cfg, t, e.key, i, i);
    var w := Lookup(t.maps[i], e.key);
    EarlierStart(t, e.key, w.value.start, e.at - cfg.window, e.at, i);
  }

  // ---- The bound is attained ----

  function Repeat(at: int, n: nat): (r: seq<int>)
    ensures |r| == n && forall i :: 0 <= i < n ==> r[i] == at
  {
    seq(n, _ => at)
  }

  lemma {:induction false} BurstAdmitted(cfg: Config, w: Window, at: int, n: nat, rest: seq<int>, from: int, to: int)
    requires from <= at <= to && at - w.start <= cfg.window && w.count + n <= cfg.limit
    ensures AdmittedWithin(cfg, Some(w), Repeat(at, n) + rest, from, to) ==
            n + AdmittedWithin(cfg, Some(Window(w.count + n, w.start)), rest, from, to)
    decreases n
  {
    var times := Repeat(at, n) + rest;
    if n > 0 {
      assert times[1..] == Repeat(at, n - 1) + rest;
      BurstAdmitted(cfg, Window(w.count + 1, w.start), at, n - 1, rest, from, to);
    } else {
      assert times == rest;
    }
  }

  /** One request at time 0, the rest of the quota at the end of that window, a full quota right after:
      for every limit and window this puts 2 * limit - 1 admissions into two adjacent instants. */
  lemma {:induction false} BoundIsAttained(cfg: Config)
    requires ValidConfig(cfg) && cfg.limit >= 1
    ensures var w := cfg.window;
            var times := [0] + Repeat(w, cfg.limit - 1) + Repeat(w + 1, cfg.limit);
            Ordered(times) && AdmittedWithin(cfg, None, times, w, w + 1) == 2 * cfg.limit - 1
  {
    var w := cfg.window;
    var late := Repeat(w + 1, cfg.limit);
    var times := [0] + Repeat(w, cfg.limit - 1) + late;
    assert times[1..] == Repeat(w, cfg.limit - 1) + late;
    BurstAdmitted(cfg, Window(1, 0), w, cfg.limit - 1, late, w, w + 1);
    assert late[1..] == Repeat(w + 1, cfg.limit - 1) + [];
    BurstAdmitted(cfg, Window(1, w + 1), w + 1, cfg.limit - 1, [], w, w + 1);
  }
}
