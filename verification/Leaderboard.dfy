/** The leaderboard of a competition (aggregateLeaderboard in internal/handler/comp_leaderboard.go):
    score every active registration, rank, and attach the registration data. */
module Leaderboard {
  import opened Wrappers
  import opened Seqs
  import opened Floats
  import opened Scoring
  import opened Ranking
  import opened Comparing

  datatype Registration = Registration(
    id: string,
    category: string,
    name: string,
    bib: Option<int>,
    withdrawn: bool)

  /** The competition's rule: a name that no scorer has, a scorer whose configuration does not parse, or
      a scorer ready to use. */
  datatype Rule = UnknownScorer | BadConfig | Known(scorer: Scorer)

  datatype Entry = Entry(
    rank: int,
    registration: string,
    name: string,
    bib: Option<int>,
    category: string,
    points: Float,
    tops: int,
    zones: int,
    attemptsToTop: int,
    attemptsToZone: int)

  datatype Board = Entries(entries: seq<Entry>) | ConfigError

  /** The attempts of one registration, in order. */
  function Own(attempts: seq<Attempt>, registration: string): seq<Attempt> {
    if |attempts| == 0 then []
    else
      Own(attempts[..|attempts| - 1], registration)
        + (if attempts[|attempts| - 1].registration == registration then [attempts[|attempts| - 1]] else [])
  }

  function OrEmpty(m: map<string, seq<Attempt>>, key: string): seq<Attempt> {
    if key in m then m[key] else []
  }

  method IndexAttempts(attempts: seq<Attempt>) returns (byReg: map<string, seq<Attempt>>)
    ensures forall r :: OrEmpty(byReg, r) == Own(attempts, r)
  {
    byReg := map[];
    for i := 0 to |attempts|
      invariant forall r :: OrEmpty(byReg, r) == Own(attempts[..i], r)
    {
      var a := attempts[i];
      ghost var before := byReg;
      assert attempts[..i + 1][..i] == attempts[..i];
      byReg := byReg[a.registration := OrEmpty(byReg, a.registration) + [a]];
      forall r ensures OrEmpty(byReg, r) == Own(attempts[..i + 1], r) {
        assert OrEmpty(before, r) == Own(attempts[..i], r);
      }
    }
    assert attempts[..|attempts|] == attempts;
  }

  function ActiveOnes(regs: seq<Registration>): seq<Registration> {
    if |regs| == 0 then []
    else ActiveOnes(regs[..|regs| - 1]) + (if regs[|regs| - 1].withdrawn then [] else [regs[|regs| - 1]])
  }

  /** One score per active registration, each from that registration's own attempts only. */
  function Scores(scorer: Scorer, active: seq<Registration>, attempts: seq<Attempt>, problems: seq<Problem>)
    : (r: seq<ClimberScore>)
    ensures |r| == |active|
    ensures forall i :: 0 <= i < |r| ==> r[i] == ScoreOf(scorer, active[i].id, Own(attempts, active[i].id), problems)
  {
    seq(|active|, i requires 0 <= i < |active| => ScoreOf(scorer, active[i].id, Own(attempts, active[i].id), problems))
  }

  method ScoreAll(scorer: Scorer, regs: seq<Registration>, attempts: seq<Attempt>, problems: seq<Problem>)
    returns (scores: seq<ClimberScore>)
    ensures scores == Scores(scorer, ActiveOnes(regs), attempts, problems)
  {
    var byReg := IndexAttempts(attempts);
    scores := [];
    for i := 0 to |regs|
      invariant scores == Scores(scorer, ActiveOnes(regs[..i]), attempts, problems)
    {
      assert regs[..i + 1][..i] == regs[..i];
      if regs[i].withdrawn {
        assert ActiveOnes(regs[..i]) + [] == ActiveOnes(regs[..i]);
        continue;
      }
      var score := Score(scorer, regs[i].id, OrEmpty(byReg, regs[i].id), problems);
      scores := scores + [score];
    }
    assert regs[..|regs|] == regs;
  }

  /** The last registration listed with an id. */
  function RegById(regs: seq<Registration>, id: string): (r: Option<Registration>)
    ensures r.Some? ==> r.value in regs && r.value.id == id
    ensures r.None? ==> forall i :: 0 <= i < |regs| ==> regs[i].id != id
  {
    if |regs| == 0 then None
    else if regs[|regs| - 1].id == id then Some(regs[|regs| - 1])
    else RegById(regs[..|regs| - 1], id)
  }

  method IndexRegs(regs: seq<Registration>) returns (byId: map<string, Registration>)
    ensures forall id :: (id in byId <==> RegById(regs, id).Some?) && (id in byId ==> RegById(regs, id) == Some(byId[id]))
  {
    byId := map[];
    for i := 0 to |regs|
      invariant forall id :: (id in byId <==> RegById(regs[..i], id).Some?)
                             && (id in byId ==> RegById(regs[..i], id) == Some(byId[id]))
    {
      assert regs[..i + 1][..i] == regs[..i];
      byId := byId[regs[i].id := regs[i]];
    }
    assert regs[..|regs|] == regs;
  }

  /** The points are narrowed to float32 for the reply, after ranking. */
  function EntryFor(rank: int, s: ClimberScore, reg: Registration): Entry {
    Entry(rank, s.registration, reg.name, reg.bib, reg.category, Narrow(s.points), s.tops, s.zones, s.attemptsToTop,
      s.attemptsToZone)
  }

  ghost predicate AllRegistered(regs: seq<Registration>, sorted: seq<ClimberScore>) {
    forall i :: 0 <= i < |sorted| ==> RegById(regs, sorted[i].registration).Some?
  }

  /** The ranked climbers with their registration data; a score without a registration is skipped. */
  method Attach(sorted: seq<ClimberScore>, ranks: seq<int>, regs: seq<Registration>) returns (entries: seq<Entry>)
    requires |ranks| == |sorted|
    ensures AllRegistered(regs, sorted) ==>
      && |entries| == |sorted|
      && forall i :: 0 <= i < |sorted| ==>
           entries[i] == EntryFor(ranks[i], sorted[i], RegById(regs, sorted[i].registration).value)
  {
    var byId := IndexRegs(regs);
    entries := [];
    for i := 0 to |sorted|
      invariant (forall j :: 0 <= j < i ==> RegById(regs, sorted[j].registration).Some?) ==>
        && |entries| == i
        && forall j :: 0 <= j < i ==>
             entries[j] == EntryFor(ranks[j], sorted[j], RegById(regs, sorted[j].registration).value)
    {
      if sorted[i].registration in byId {
        entries := entries + [EntryFor(ranks[i], sorted[i], byId[sorted[i].registration])];
      }
    }
  }

  /** What the entries are, given the scores of the active registrations. */
  ghost predicate BoardOk(cmp: (ClimberScore, ClimberScore) -> int, scores: seq<ClimberScore>,
      regs: seq<Registration>, entries: seq<Entry>)
  {
    var sorted := StableSort(cmp, scores);
    && |entries| == |scores|
    && forall i :: 0 <= i < |entries| ==>
         && RegById(regs, sorted[i].registration).Some?
         && entries[i] == EntryFor(StandardRanks(cmp, sorted)[i], sorted[i], RegById(regs, sorted[i].registration).value)
  }

  lemma {:induction false} ActiveAreRegistered(regs: seq<Registration>, all: seq<Registration>)
    requires Within(regs, all)
    ensures forall i :: 0 <= i < |ActiveOnes(regs)| ==>
              ActiveOnes(regs)[i] in all && RegById(all, ActiveOnes(regs)[i].id).Some?
  {
    if |regs| > 0 {
      ActiveAreRegistered(regs[..|regs| - 1], all);
    }
  }

  lemma {:induction false} SortedAreRegistered(cmp: (ClimberScore, ClimberScore) -> int, scorer: Scorer, regs: seq<Registration>,
      attempts: seq<Attempt>, problems: seq<Problem>)
    ensures AllRegistered(regs, StableSort(cmp, Scores(scorer, ActiveOnes(regs), attempts, problems)))
  {
    var scores := Scores(scorer, ActiveOnes(regs), attempts, problems);
    ActiveAreRegistered(regs, regs);
    SortWithin(cmp, scores, scores);
    var sorted := StableSort(cmp, scores);
    forall i | 0 <= i < |sorted| ensures RegById(regs, sorted[i].registration).Some? {
      assert sorted[i] in scores;
      var k :| 0 <= k < |scores| && scores[k] == sorted[i];
    }
  }

  lemma {:induction false} SomeActive(regs: seq<Registration>, i: nat)
    requires i < |regs| && !regs[i].withdrawn
    ensures ActiveOnes(regs) != []
  {
    if i < |regs| - 1 {
      SomeActive(regs[..|regs| - 1], i);
    }
  }

  /** With a configuration that does not parse, the first active registration to be scored fails. */
  method AnyActive(regs: seq<Registration>) returns (found: bool)
    ensures found <==> ActiveOnes(regs) != []
  {
    for i := 0 to |regs|
      invariant ActiveOnes(regs[..i]) == []
    {
      assert regs[..i + 1][..i] == regs[..i];
      if !regs[i].withdrawn {
        SomeActive(regs, i);
        return true;
      }
    }
    assert regs[..|regs|] == regs;
    return false;
  }

  method RankAll(scorer: Scorer, regs: seq<Registration>, problems: seq<Problem>, attempts: seq<Attempt>)
    returns (entries: seq<Entry>)
    ensures BoardOk(CmpOf(scorer), Scores(scorer, ActiveOnes(regs), attempts, problems), regs, entries)
  {
    var cmp := CmpOf(scorer);
    var scores := ScoreAll(scorer, regs, attempts, problems);
    var sorted := StableSort(cmp, scores);
    var ranks := AssignStandardRanks(cmp, sorted);
    assert AllRegistered(regs, sorted) by {
      SortedAreRegistered(cmp, scorer, regs, attempts, problems);
    }
    entries := Attach(sorted, ranks, regs);
  }

  method Aggregate(rule: Rule, regs: seq<Registration>, problems: seq<Problem>, attempts: seq<Attempt>)
    returns (board: Board)
    ensures rule.UnknownScorer? ==> board == Entries([])
    ensures rule.BadConfig? ==> board == if ActiveOnes(regs) != [] then ConfigError else Entries([])
    ensures rule.Known? ==>
      && board.Entries?
      && BoardOk(CmpOf(rule.scorer), Scores(rule.scorer, ActiveOnes(regs), attempts, problems), regs, board.entries)
  {
    match rule
    case UnknownScorer => return Entries([]);
    case BadConfig =>
      var found := AnyActive(regs);
      return if found then ConfigError else Entries([]);
    case Known(scorer) =>
      var entries := RankAll(scorer, regs, problems, attempts);
      return Entries(entries);
  }

  // ---- Fair standings ----

  /** The entry places a climber at one plus the number of climbers strictly better. */
  ghost predicate Places(cmp: (ClimberScore, ClimberScore) -> int, scores: seq<ClimberScore>, s: ClimberScore, e: Entry) {
    e.registration == s.registration && e.rank == 1 + CountBetter(cmp, scores, s)
  }

  /** Some entry places the climber. */
  ghost predicate Placed(cmp: (ClimberScore, ClimberScore) -> int, scores: seq<ClimberScore>, entries: seq<Entry>,
      s: ClimberScore)
  {
    exists i :: 0 <= i < |entries| && Places(cmp, scores, s, entries[i])
  }

  /** The entry places some climber. */
  ghost predicate Earned(cmp: (ClimberScore, ClimberScore) -> int, scores: seq<ClimberScore>, e: Entry) {
    exists k :: 0 <= k < |scores| && Places(cmp, scores, scores[k], e)
  }

  /** Every climber has an entry with the right rank, every entry belongs to a climber, and there are as
      many entries as climbers. */
  ghost predicate FairlyRanked(cmp: (ClimberScore, ClimberScore) -> int, scores: seq<ClimberScore>, entries: seq<Entry>) {
    && |entries| == |scores|
    && (forall k :: 0 <= k < |scores| ==> Placed(cmp, scores, entries, scores[k]))
    && (forall i :: 0 <= i < |entries| ==> Earned(cmp, scores, entries[i]))
  }

  /** The i-th entry places the i-th climber of the sorted list. */
  lemma {:induction false} EntryIsPlace(cmp: (ClimberScore, ClimberScore) -> int, scores: seq<ClimberScore>, regs: seq<Registration>,
      entries: seq<Entry>, i: nat)
    requires BoardOk(cmp, scores, regs, entries) && Consistent(cmp, scores) && i < |entries|
    ensures Places(cmp, scores, StableSort(cmp, scores)[i], entries[i])
  {
    SortPermutes(cmp, scores);
    SortSorts(cmp, scores, scores);
    RankIsPlace(cmp, scores, StableSort(cmp, scores), i);
  }

  lemma {:induction false} BoardIsFair(cmp: (ClimberScore, ClimberScore) -> int, scores: seq<ClimberScore>, regs: seq<Registration>,
      entries: seq<Entry>)
    requires BoardOk(cmp, scores, regs, entries) && Consistent(cmp, scores)
    ensures FairlyRanked(cmp, scores, entries)
  {
    var sorted := StableSort(cmp, scores);
    assert |entries| == |sorted|;
    forall i | 0 <= i < |entries| ensures Places(cmp, scores, sorted[i], entries[i]) {
      EntryIsPlace(cmp, scores, regs, entries, i);
    }
    SortPermutes(cmp, scores);
    SameElements(scores, sorted);
    SameElements(sorted, scores);
    forall k | 0 <= k < |scores| ensures Placed(cmp, scores, entries, scores[k]) {
      AllPlaced(cmp, scores, sorted, entries, scores[k]);
    }
    forall i | 0 <= i < |entries| ensures Earned(cmp, scores, entries[i]) {
      AllEarned(cmp, scores, sorted[i], entries[i]);
    }
  }

  lemma {:induction false} AllPlaced(cmp: (ClimberScore, ClimberScore) -> int, scores: seq<ClimberScore>, sorted: seq<ClimberScore>,
      entries: seq<Entry>, s: ClimberScore)
    requires |entries| == |sorted| && s in sorted
    requires forall i :: 0 <= i < |entries| ==> Places(cmp, scores, sorted[i], entries[i])
    ensures Placed(cmp, scores, entries, s)
  {
  }

  lemma {:induction false} AllEarned(cmp: (ClimberScore, ClimberScore) -> int, scores: seq<ClimberScore>, s: ClimberScore, e: Entry)
    requires s in scores && Places(cmp, scores, s, e)
    ensures Earned(cmp, scores, e)
  {
  }

  predicate TopsZoned(attempts: seq<Attempt>) {
    forall i :: 0 <= i < |attempts| ==> (attempts[i].topReached ==> attempts[i].zoneReached)
  }

  lemma {:induction false} OwnZoned(attempts: seq<Attempt>, registration: string)
    requires TopsZoned(attempts)
    ensures TopsZoned(Own(attempts, registration))
  {
    if |attempts| > 0 {
      OwnZoned(attempts[..|attempts| - 1], registration);
    }
  }

  lemma {:induction false} LinesZoned(scorer: Scorer, index: map<string, Problem>, attempts: seq<Attempt>)
    requires TopsZoned(attempts)
    ensures TopsHaveZones(Lines(scorer, index, attempts))
  {
    if |attempts| > 0 {
      LinesZoned(scorer, index, attempts[..|attempts| - 1]);
    }
  }

  lemma {:induction false} ScoresShaped(scorer: Scorer, active: seq<Registration>, attempts: seq<Attempt>, problems: seq<Problem>)
    requires TopsZoned(attempts)
    ensures var scores := Scores(scorer, active, attempts, problems);
            forall i :: 0 <= i < |scores| ==> Shaped(scores[i])
  {
    var scores := Scores(scorer, active, attempts, problems);
    forall i | 0 <= i < |scores| ensures Shaped(scores[i]) {
      var own := Own(attempts, active[i].id);
      OwnZoned(attempts, active[i].id);
      LinesZoned(scorer, IndexProblems(problems), own);
    }
  }

  /** What the scores must satisfy for their comparison to be consistent: totals that are numbers, or no
      pair cut short that anybody tells apart. */
  ghost predicate Comparable(scorer: Scorer, scores: seq<ClimberScore>) {
    if scorer.TopZone? then CutsAreHarmless(scores)
    else forall i :: 0 <= i < |scores| ==> !scores[i].points.NaN?
  }

  lemma {:induction false} ComparableIff(scorer: Scorer, scores: seq<ClimberScore>)
    ensures Consistent(CmpOf(scorer), scores) <==> Comparable(scorer, scores)
  {
    if scorer.TopZone? {
      TopZoneConsistentIff(scores);
    } else {
      PointsConsistentIff(scores);
    }
  }

  /** Whenever the comparison of the scores is consistent, every climber gets one plus the number of
      strictly better climbers. */
  lemma {:induction false} StandingsAreFair(scorer: Scorer, regs: seq<Registration>, problems: seq<Problem>, attempts: seq<Attempt>,
      entries: seq<Entry>)
    requires Comparable(scorer, Scores(scorer, ActiveOnes(regs), attempts, problems))
    requires BoardOk(CmpOf(scorer), Scores(scorer, ActiveOnes(regs), attempts, problems), regs, entries)
    ensures FairlyRanked(CmpOf(scorer), Scores(scorer, ActiveOnes(regs), attempts, problems), entries)
  {
    var scores := Scores(scorer, ActiveOnes(regs), attempts, problems);
    ComparableIff(scorer, scores);
    BoardIsFair(CmpOf(scorer), scores, regs, entries);
  }

  // ---- What makes scores comparable ----

  predicate TriesFit(attempts: seq<Attempt>) {
    forall i :: 0 <= i < |attempts| ==> attempts[i].attempts <= MAX_INT4
  }

  lemma {:induction false} OwnFits(attempts: seq<Attempt>, registration: string)
    requires TriesFit(attempts)
    ensures TriesFit(Own(attempts, registration))
  {
    if |attempts| > 0 {
      OwnFits(attempts[..|attempts| - 1], registration);
    }
  }

  /** Attempts on which every top has its zone, and settings that are not negative. */
  lemma {:induction false} SaneIsComparable(scorer: Scorer, active: seq<Registration>, attempts: seq<Attempt>, problems: seq<Problem>)
    requires TopsZoned(attempts) && TriesFit(attempts) && Sane(scorer, problems)
    ensures Comparable(scorer, Scores(scorer, active, attempts, problems))
  {
    var scores := Scores(scorer, active, attempts, problems);
    if scorer.TopZone? {
      ScoresShaped(scorer, active, attempts, problems);
      ShapedAreHarmless(scores);
    } else {
      forall i | 0 <= i < |scores| ensures !scores[i].points.NaN? {
        OwnFits(attempts, active[i].id);
        ScoreIsNumber(scorer, active[i].id, Own(attempts, active[i].id), problems);
      }
    }
  }

  // ---- Who stands where ----

  /** Ahead on the shown totals: more tops, then more zones, then fewer tries to top, then to zone. */
  predicate ShownAhead(e: Entry, f: Entry) {
    || e.tops > f.tops
    || (e.tops == f.tops && e.zones > f.zones)
    || (e.tops == f.tops && e.zones == f.zones && e.attemptsToTop < f.attemptsToTop)
    || (e.tops == f.tops && e.zones == f.zones && e.attemptsToTop == f.attemptsToTop
        && e.attemptsToZone < f.attemptsToZone)
  }

  lemma {:induction false} TotalsDecide(scores: seq<ClimberScore>)
    ensures Consistent(CmpTotals, scores) && Refines(CmpTopZone, CmpTotals, scores)
  {
  }

  /** On every board by tops and zones, consistent or not, an entry that is ahead on the totals it shows has a
      better rank: nobody with fewer tops ever stands beside or before somebody with more. */
  lemma {:induction false} BetterTotalsRankAhead(scores: seq<ClimberScore>, regs: seq<Registration>, entries: seq<Entry>,
      i: nat, j: nat)
    requires BoardOk(CmpOf(TopZone), scores, regs, entries) && i < |entries| && j < |entries|
    requires ShownAhead(entries[i], entries[j])
    ensures entries[i].rank < entries[j].rank
  {
    var sorted := StableSort(CmpTopZone, scores);
    TotalsOrder(sorted[i], sorted[j]);
    TotalsDecide(scores);
    BetterRanksAhead(CmpTopZone, CmpTotals, scores, i, j);
  }

  lemma {:induction false} ShownMoreIsMore(a: Float, b: Float)
    requires !a.NaN? && !b.NaN? && MorePoints(Narrow(a), Narrow(b))
    ensures MorePoints(a, b)
  {
    if !MorePoints(a, b) {
      NarrowMonotone(a, b);
    }
  }

  /** On a board by points whose totals are numbers, the entry of a climber with more points, or with more
      shown points, has a better rank. */
  lemma {:induction false} MorePointsRankAhead(scorer: Scorer, scores: seq<ClimberScore>, regs: seq<Registration>, entries: seq<Entry>,
      i: nat, j: nat)
    requires !scorer.TopZone? && BoardOk(CmpOf(scorer), scores, regs, entries) && i < |entries| && j < |entries|
    requires AllNumbers(scores)
    requires var sorted := StableSort(CmpPoints, scores);
             MorePoints(sorted[i].points, sorted[j].points) || MorePoints(entries[i].points, entries[j].points)
    ensures entries[i].rank < entries[j].rank
  {
    var sorted := StableSort(CmpPoints, scores);
    SortWithin(CmpPoints, scores, scores);
    assert sorted[i] in scores && sorted[j] in scores;
    if !MorePoints(sorted[i].points, sorted[j].points) {
      ShownMoreIsMore(sorted[i].points, sorted[j].points);
    }
    MorePointsBetterRank(scores, i, j);
  }

  // ---- Who is on the board ----

  predicate Entered(regs: seq<Registration>, k: int, id: string) {
    0 <= k < |regs| && !regs[k].withdrawn && regs[k].id == id
  }

  ghost predicate HasId(regs: seq<Registration>, id: string) {
    exists i :: 0 <= i < |regs| && regs[i].id == id
  }

  lemma {:induction false} HasIdSnoc(regs: seq<Registration>, r: Registration, id: string)
    ensures HasId(regs + [r], id) <==> HasId(regs, id) || r.id == id
  {
    if i :| 0 <= i < |regs| && regs[i].id == id {
      assert (regs + [r])[i] == regs[i];
    }
    assert (regs + [r])[|regs|] == r;
  }

  lemma {:induction false} ActiveAreEntered(regs: seq<Registration>, id: string)
    ensures HasId(ActiveOnes(regs), id) <==> exists k :: Entered(regs, k, id)
    ensures |ActiveOnes(regs)| == |set k | 0 <= k < |regs| && !regs[k].withdrawn|
  {
    if |regs| > 0 {
      var n := |regs| - 1;
      ActiveAreEntered(regs[..n], id);
      ActiveCount(regs);
      HasIdSnoc(ActiveOnes(regs[..n]), regs[n], id);
      assert ActiveOnes(regs[..n]) + [] == ActiveOnes(regs[..n]);
      EnteredSnoc(regs, id);
    }
  }

  lemma {:induction false} EnteredSnoc(regs: seq<Registration>, id: string)
    requires |regs| > 0
    ensures var n := |regs| - 1;
            (exists k :: Entered(regs, k, id)) <==>
            (exists k :: Entered(regs[..n], k, id)) || (!regs[n].withdrawn && regs[n].id == id)
  {
    var n := |regs| - 1;
    if k :| Entered(regs, k, id) {
      assert k == n || Entered(regs[..n], k, id);
    }
    if k :| Entered(regs[..n], k, id) {
      assert Entered(regs, k, id);
    }
    if !regs[n].withdrawn && regs[n].id == id {
      assert Entered(regs, n, id);
    }
  }

  lemma {:induction false} ActiveCount(regs: seq<Registration>)
    requires |regs| > 0
    ensures var n := |regs| - 1;
            |set k | 0 <= k < |regs| && !regs[k].withdrawn| ==
              |set k | 0 <= k < |regs[..n]| && !regs[..n][k].withdrawn| + (if regs[n].withdrawn then 0 else 1)
  {
    var n := |regs| - 1;
    var before := set k | 0 <= k < |regs[..n]| && !regs[..n][k].withdrawn;
    var after := set k | 0 <= k < |regs| && !regs[k].withdrawn;
    assert after == if regs[n].withdrawn then before else before + {n};
  }

  /** The entry shows the name, bib and category of a registration with its id. */
  ghost predicate Described(regs: seq<Registration>, e: Entry) {
    exists r :: r in regs && r.id == e.registration && e.name == r.name && e.bib == r.bib && e.category == r.category
  }

  ghost predicate HasEntry(entries: seq<Entry>, id: string) {
    exists i :: 0 <= i < |entries| && entries[i].registration == id
  }

  /** The entries are for the ids that the sorted scores are for, and so for those of the list sorted. */
  lemma {:induction false} EntriesOfScores(scores: seq<ClimberScore>, sorted: seq<ClimberScore>, active: seq<Registration>,
      entries: seq<Entry>, id: string)
    requires |entries| == |sorted| && |scores| == |active| && multiset(sorted) == multiset(scores)
    requires forall i :: 0 <= i < |entries| ==> entries[i].registration == sorted[i].registration
    requires forall i :: 0 <= i < |scores| ==> scores[i].registration == active[i].id
    ensures HasEntry(entries, id) <==> HasId(active, id)
  {
    SameElements(sorted, scores);
    SameElements(scores, sorted);
    if i :| 0 <= i < |entries| && entries[i].registration == id {
      assert sorted[i] in scores;
      var k :| 0 <= k < |scores| && scores[k] == sorted[i];
      assert active[k].id == id;
    }
    if k :| 0 <= k < |active| && active[k].id == id {
      assert scores[k] in sorted;
      var i :| 0 <= i < |sorted| && sorted[i] == scores[k];
      assert entries[i].registration == id;
    }
  }

  lemma {:induction false} EntriesDescribed(cmp: (ClimberScore, ClimberScore) -> int, scores: seq<ClimberScore>,
      regs: seq<Registration>, entries: seq<Entry>)
    requires BoardOk(cmp, scores, regs, entries)
    ensures |entries| == |scores|
    ensures forall i :: 0 <= i < |entries| ==> entries[i].registration == StableSort(cmp, scores)[i].registration
    ensures forall i :: 0 <= i < |entries| ==> Described(regs, entries[i])
  {
    var sorted := StableSort(cmp, scores);
    forall i | 0 <= i < |entries| ensures Described(regs, entries[i]) {
      assert RegById(regs, sorted[i].registration).value in regs;
    }
  }

  /** Every climber who has not withdrawn has an entry, nobody else has, there are no more entries than that,
      and each carries the data of its own registration. */
  lemma {:induction false} BoardListsEntered(cmp: (ClimberScore, ClimberScore) -> int, scorer: Scorer, regs: seq<Registration>,
      problems: seq<Problem>, attempts: seq<Attempt>, entries: seq<Entry>, id: string)
    requires BoardOk(cmp, Scores(scorer, ActiveOnes(regs), attempts, problems), regs, entries)
    ensures HasEntry(entries, id) <==> exists k :: Entered(regs, k, id)
    ensures |entries| == |set k | 0 <= k < |regs| && !regs[k].withdrawn|
    ensures forall i :: 0 <= i < |entries| ==> Described(regs, entries[i])
  {
    var active := ActiveOnes(regs);
    var scores := Scores(scorer, active, attempts, problems);
    ActiveAreEntered(regs, id);
    SortPermutes(cmp, scores);
    EntriesDescribed(cmp, scores, regs, entries);
    EntriesOfScores(scores, StableSort(cmp, scores), active, entries, id);
  }

  // ---- What the totals count ----

  predicate Listed(problems: seq<Problem>, id: string) {
    exists k :: 0 <= k < |problems| && problems[k].id == id
  }

  lemma {:induction false} IndexedIffListed(problems: seq<Problem>, id: string)
    ensures id in IndexProblems(problems) <==> Listed(problems, id)
  {
    if |problems| > 0 {
      var n := |problems| - 1;
      IndexedIffListed(problems[..n], id);
      if k :| 0 <= k < |problems| && problems[k].id == id {
        assert k == n || problems[..n][k].id == id;
      }
    }
  }

  /** Attempts of the climber on problems that still exist, with a top or with a zone. */
  predicate CountsTop(id: string, problems: seq<Problem>, a: Attempt) {
    a.registration == id && Listed(problems, a.problem) && a.topReached
  }

  predicate CountsZone(id: string, problems: seq<Problem>, a: Attempt) {
    a.registration == id && Listed(problems, a.problem) && a.zoneReached
  }

  function TopOf(id: string, problems: seq<Problem>): Attempt -> real {
    (a: Attempt) => if CountsTop(id, problems, a) then 1.0 else 0.0
  }

  function ZoneOf(id: string, problems: seq<Problem>): Attempt -> real {
    (a: Attempt) => if CountsZone(id, problems, a) then 1.0 else 0.0
  }

  function TopTriesOf(id: string, problems: seq<Problem>): Attempt -> real {
    (a: Attempt) => if CountsTop(id, problems, a) then a.attempts as real else 0.0
  }

  function ZoneTriesOf(id: string, problems: seq<Problem>): Attempt -> real {
    (a: Attempt) =>
      if CountsZone(id, problems, a) && a.zoneAttempts.Some? then a.zoneAttempts.value as real else 0.0
  }

  lemma {:induction false} LinesOfOwn(scorer: Scorer, index: map<string, Problem>, own: seq<Attempt>, a: Attempt)
    ensures Lines(scorer, index, own + [a]) ==
            if a.problem in index then Lines(scorer, index, own) + [Line(scorer, index[a.problem], a)]
            else Lines(scorer, index, own)
  {
    assert (own + [a])[..|own|] == own;
  }

  /** What one more attempt adds to a climber's totals. */
  ghost predicate AddsTo(s: ClimberScore, s': ClimberScore, id: string, problems: seq<Problem>, a: Attempt) {
    var top, zone := CountsTop(id, problems, a), CountsZone(id, problems, a);
    && s'.tops == s.tops + (if top then 1 else 0)
    && s'.zones == s.zones + (if zone then 1 else 0)
    && s'.attemptsToTop == s.attemptsToTop + (if top then a.attempts else 0)
    && s'.attemptsToZone == s.attemptsToZone + (if zone && a.zoneAttempts.Some? then a.zoneAttempts.value else 0)
  }

  lemma {:induction false} OneMoreAttempt(scorer: Scorer, id: string, attempts: seq<Attempt>, problems: seq<Problem>)
    requires |attempts| > 0
    ensures var n := |attempts| - 1;
            AddsTo(ScoreOf(scorer, id, Own(attempts[..n], id), problems), ScoreOf(scorer, id, Own(attempts, id), problems),
              id, problems, attempts[n])
  {
    var n := |attempts| - 1;
    var a, own, index := attempts[n], Own(attempts[..n], id), IndexProblems(problems);
    IndexedIffListed(problems, a.problem);
    if a.registration == id {
      LinesOfOwn(scorer, index, own, a);
      if a.problem in index {
        TotalPush(id, Lines(scorer, index, own), Line(scorer, index[a.problem], a));
      }
    } else {
      assert own + [] == own;
    }
  }

  /** The totals add up the tops and zones, and the tries they took. */
  ghost predicate Tallied(s: ClimberScore, id: string, attempts: seq<Attempt>, problems: seq<Problem>) {
    && s.tops as real == SumOf(TopOf(id, problems), attempts)
    && s.zones as real == SumOf(ZoneOf(id, problems), attempts)
    && s.attemptsToTop as real == SumOf(TopTriesOf(id, problems), attempts)
    && s.attemptsToZone as real == SumOf(ZoneTriesOf(id, problems), attempts)
  }

  lemma {:induction false} TalliedOn(s: ClimberScore, s': ClimberScore, id: string, attempts: seq<Attempt>, problems: seq<Problem>)
    requires |attempts| > 0 && Tallied(s, id, attempts[..|attempts| - 1], problems)
    requires AddsTo(s, s', id, problems, attempts[|attempts| - 1])
    ensures Tallied(s', id, attempts, problems)
  {
  }

  /** A climber's totals count the tops and zones of the climber's own attempts on existing problems, with the
      tries these took, whatever else the attempts table holds. */
  lemma {:induction false} TotalsCountOwnAttempts(scorer: Scorer, id: string, attempts: seq<Attempt>, problems: seq<Problem>)
    ensures Tallied(ScoreOf(scorer, id, Own(attempts, id), problems), id, attempts, problems)
  {
    if |attempts| > 0 {
      var n := |attempts| - 1;
      TotalsCountOwnAttempts(scorer, id, attempts[..n], problems);
      OneMoreAttempt(scorer, id, attempts, problems);
      TalliedOn(ScoreOf(scorer, id, Own(attempts[..n], id), problems), ScoreOf(scorer, id, Own(attempts, id), problems),
        id, attempts, problems);
    }
  }
}
