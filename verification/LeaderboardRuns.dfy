/** From the action log to the standings: which runs lead to fair leaderboards, and two reachable inputs
    on which the order of rows or registrations decides. */
module LeaderboardRuns {
  import opened Wrappers
  import opened Seqs
  import opened Floats
  import opened Scoring
  import opened Ranking
  import opened Comparing
  import opened Leaderboard
  import LeaderboardOrder
  import AttemptStore
  import CompActions
  import CompHistory

  function IdOf(a: Attempt): AttemptStore.AttemptId {
    AttemptStore.AttemptId(a.registration, a.problem)
  }

  /** The attempts were read from the attempt rows. */
  ghost predicate ReadFrom(s: AttemptStore.Store, attempts: seq<Attempt>) {
    forall i :: 0 <= i < |attempts| ==>
      && IdOf(attempts[i]) in s.rows
      && StateOf(attempts[i]).(notes := s.rows[IdOf(attempts[i])].notes) == s.rows[IdOf(attempts[i])]
  }

  function StateOf(a: Attempt): AttemptStore.AttemptState {
    AttemptStore.AttemptState(a.attempts, a.zoneAttempts, a.zoneReached, a.topReached, None)
  }

  /** After any run of climber actions, undos and overrides none of which asserted an ill-formed state,
      and with settings that are not negative, every leaderboard is fair. */
  lemma {:induction false} RunsGiveFairStandings(steps: seq<CompHistory.Step>, scorer: Scorer, regs: seq<Registration>,
      problems: seq<Problem>, attempts: seq<Attempt>, entries: seq<Entry>)
    requires CompHistory.NeverBroken(steps) && Sane(scorer, problems) && TriesFit(attempts)
    requires ReadFrom(CompHistory.Run(AttemptStore.EMPTY_STORE, steps), attempts)
    requires BoardOk(CmpOf(scorer), Scores(scorer, ActiveOnes(regs), attempts, problems), regs, entries)
    ensures FairlyRanked(CmpOf(scorer), Scores(scorer, ActiveOnes(regs), attempts, problems), entries)
  {
    CompHistory.UnbrokenIsPlausible(steps);
    var s := CompHistory.Run(AttemptStore.EMPTY_STORE, steps);
    forall i | 0 <= i < |attempts| ensures attempts[i].topReached ==> attempts[i].zoneReached {
      assert CompHistory.Plausible(s.rows[IdOf(attempts[i])]);
    }
    SaneIsComparable(scorer, ActiveOnes(regs), attempts, problems);
    StandingsAreFair(scorer, regs, problems, attempts, entries);
  }

  // ---- Any rows can be reached ----

  ghost predicate DistinctRows(attempts: seq<Attempt>) {
    forall i, j :: 0 <= i < j < |attempts| ==> IdOf(attempts[i]) != IdOf(attempts[j])
  }

  ghost predicate CountsValid(attempts: seq<Attempt>) {
    forall i :: 0 <= i < |attempts| ==> CompActions.ValidOverride(CompHistory.BodyOf(StateOf(attempts[i])))
  }

  function RowsOf(attempts: seq<Attempt>): map<AttemptStore.AttemptId, AttemptStore.AttemptState> {
    if |attempts| == 0 then map[]
    else RowsOf(attempts[..|attempts| - 1])[IdOf(attempts[|attempts| - 1]) := StateOf(attempts[|attempts| - 1])]
  }

  lemma {:induction false} RowsOfHolds(attempts: seq<Attempt>)
    requires DistinctRows(attempts)
    ensures forall i :: 0 <= i < |attempts| ==>
              IdOf(attempts[i]) in RowsOf(attempts) && RowsOf(attempts)[IdOf(attempts[i])] == StateOf(attempts[i])
    ensures forall id :: id in RowsOf(attempts) ==>
              exists i :: 0 <= i < |attempts| && IdOf(attempts[i]) == id && RowsOf(attempts)[id] == StateOf(attempts[i])
  {
    if |attempts| > 0 {
      RowsOfHolds(attempts[..|attempts| - 1]);
    }
  }

  /** Every list of attempts on open problems, one per climber and problem, with counts that are not
      negative, is what the leaderboard reads after some run of actions and overrides. */
  lemma {:induction false} AttemptsReachable(attempts: seq<Attempt>, comp: CompActions.Competition, now: int)
    returns (steps: seq<CompHistory.Step>)
    requires DistinctRows(attempts) && CountsValid(attempts)
    requires forall i :: 0 <= i < |attempts| ==> CompActions.ClosedReason(comp, now, attempts[i].problem).None?
    ensures CompHistory.ClockForward(steps) && ReadFrom(CompHistory.Run(AttemptStore.EMPTY_STORE, steps), attempts)
  {
    RowsOfHolds(attempts);
    var rows := RowsOf(attempts);
    forall id | id in rows
      ensures CompActions.ClosedReason(comp, now, id.problem).None?
      ensures CompActions.ValidOverride(CompHistory.BodyOf(rows[id]))
    {
      var i :| 0 <= i < |attempts| && IdOf(attempts[i]) == id && rows[id] == StateOf(attempts[i]);
    }
    steps := CompHistory.EveryStateReachable(comp, now, rows);
  }

  // ---- Reading one climber's rows out of all ----

  lemma {:induction false} OwnAll(rows: seq<Attempt>, r: string)
    requires forall i :: 0 <= i < |rows| ==> rows[i].registration == r
    ensures Own(rows, r) == rows
  {
    if |rows| > 0 {
      OwnAll(rows[..|rows| - 1], r);
    }
  }

  lemma {:induction false} OwnNone(rows: seq<Attempt>, r: string)
    requires forall i :: 0 <= i < |rows| ==> rows[i].registration != r
    ensures Own(rows, r) == []
  {
    if |rows| > 0 {
      OwnNone(rows[..|rows| - 1], r);
    }
  }

  lemma {:induction false} LinesAre(scorer: Scorer, index: map<string, Problem>, rows: seq<Attempt>)
    requires forall i :: 0 <= i < |rows| ==> rows[i].problem in index
    ensures var lines := Lines(scorer, index, rows);
            |lines| == |rows| && forall i :: 0 <= i < |rows| ==> lines[i] == Line(scorer, index[rows[i].problem], rows[i])
  {
    if |rows| > 0 {
      LinesAre(scorer, index, rows[..|rows| - 1]);
    }
  }

  /** The lines of a climber whose rows stand together. */
  lemma {:induction false} LinesAmong(scorer: Scorer, index: map<string, Problem>, before: seq<Attempt>, mine: seq<Attempt>,
      after: seq<Attempt>, r: string)
    requires forall i :: 0 <= i < |mine| ==> mine[i].registration == r && mine[i].problem in index
    requires forall i :: 0 <= i < |before| ==> before[i].registration != r
    requires forall i :: 0 <= i < |after| ==> after[i].registration != r
    ensures Own(before + mine + after, r) == mine
    ensures var lines := Lines(scorer, index, Own(before + mine + after, r));
            |lines| == |mine| && forall i :: 0 <= i < |mine| ==> lines[i] == Line(scorer, index[mine[i].problem], mine[i])
  {
    LeaderboardOrder.OwnConcat(before + mine, after, r);
    LeaderboardOrder.OwnConcat(before, mine, r);
    OwnNone(before, r);
    OwnAll(mine, r);
    OwnNone(after, r);
    LinesAre(scorer, index, mine);
  }

  const PROBLEMS := [Problem("p1", None, 0), Problem("p2", None, 0), Problem("p3", None, 0)]

  const INDEX := map["p1" := Problem("p1", None, 0)]["p2" := Problem("p2", None, 0)]["p3" := Problem("p3", None, 0)]

  lemma IndexOfProblems()
    ensures IndexProblems(PROBLEMS) == INDEX
  {
    var p := PROBLEMS;
    assert p[..2] == [p[0], p[1]] && p[..2][..1] == [p[0]] && p[..2][..1][..0] == [];
    assert IndexProblems(p[..2][..1]) == map["p1" := p[0]];
    assert IndexProblems(p[..2]) == map["p1" := p[0]]["p2" := p[1]];
  }

  function Climber(name: string): Registration {
    Registration(name, "open", name, None, false)
  }

  // ---- A zone overridden away ----

  function Top(r: string, problem: string, zone: Option<int>): Attempt {
    Attempt(r, problem, 3, zone, zone.Some?, true)
  }

  function Zone(r: string, problem: string, zone: int): Attempt {
    Attempt(r, problem, zone, Some(zone), true, false)
  }

  const ANN_ROWS := [Top("ann", "p1", Some(2)), Top("ann", "p2", Some(2))]
  const BO_ROWS := [Top("bo", "p1", Some(3)), Top("bo", "p2", None), Zone("bo", "p3", 1)]
  const CY_ROWS := [Top("cy", "p1", Some(2)), Top("cy", "p2", None), Zone("cy", "p3", 2)]

  const ROWS := ANN_ROWS + BO_ROWS + CY_ROWS

  lemma AnnScore()
    ensures ScoreOf(TopZone, "ann", Own(ROWS, "ann"), PROBLEMS) == ANN
  {
    IndexOfProblems();
    assert ROWS == [] + ANN_ROWS + (BO_ROWS + CY_ROWS);
    LinesAmong(TopZone, INDEX, [], ANN_ROWS, BO_ROWS + CY_ROWS, "ann");
    assert Lines(TopZone, INDEX, Own(ROWS, "ann")) == ANN.perProblem;
  }

  lemma BoScore()
    ensures ScoreOf(TopZone, "bo", Own(ROWS, "bo"), PROBLEMS) == BO
  {
    IndexOfProblems();
    LinesAmong(TopZone, INDEX, ANN_ROWS, BO_ROWS, CY_ROWS, "bo");
    assert Lines(TopZone, INDEX, Own(ROWS, "bo")) == BO.perProblem;
  }

  lemma CyScore()
    ensures ScoreOf(TopZone, "cy", Own(ROWS, "cy"), PROBLEMS) == CY
  {
    IndexOfProblems();
    assert ROWS == (ANN_ROWS + BO_ROWS) + CY_ROWS + [];
    LinesAmong(TopZone, INDEX, ANN_ROWS + BO_ROWS, CY_ROWS, [], "cy");
    assert Lines(TopZone, INDEX, Own(ROWS, "cy")) == CY.perProblem;
  }

  const EVENT := CompActions.Competition(map["p1" := "e", "p2" := "e", "p3" := "e"], map["e" := 0])

  lemma RowsAreFit()
    ensures DistinctRows(ROWS) && CountsValid(ROWS)
    ensures forall i :: 0 <= i < |ROWS| ==> CompActions.ClosedReason(EVENT, 0, ROWS[i].problem).None?
  {
  }

  lemma ThreeScores()
    ensures Scores(TopZone, [Climber("cy"), Climber("ann"), Climber("bo")], ROWS, PROBLEMS) == [CY, ANN, BO]
    ensures Scores(TopZone, [Climber("bo"), Climber("cy"), Climber("ann")], ROWS, PROBLEMS) == [BO, CY, ANN]
  {
    AnnScore();
    BoScore();
    CyScore();
  }

  /** Staff overrides lead to attempt rows, one per climber and problem, for which the standings depend on
      the order of the registrations: listed cy, ann, bo all three are first, listed bo, cy, ann only
      bo. */
  lemma MissingZoneMakesOrderMatter() returns (steps: seq<CompHistory.Step>)
    ensures CompHistory.ClockForward(steps)
    ensures ReadFrom(CompHistory.Run(AttemptStore.EMPTY_STORE, steps), ROWS) && DistinctRows(ROWS)
    ensures var s := Scores(TopZone, [Climber("cy"), Climber("ann"), Climber("bo")], ROWS, PROBLEMS);
            StableSort(CmpTopZone, s) == s && StandardRanks(CmpTopZone, s) == [1, 1, 1]
    ensures var s := Scores(TopZone, [Climber("bo"), Climber("cy"), Climber("ann")], ROWS, PROBLEMS);
            StableSort(CmpTopZone, s) == s && StandardRanks(CmpTopZone, s) == [1, 2, 2]
  {
    RowsAreFit();
    steps := AttemptsReachable(ROWS, EVENT, 0);
    ThreeScores();
    CircleOfThree();
  }

  // ---- Rows in two orders ----

  function Sent(r: string, problem: string, tries: int): Attempt {
    Attempt(r, problem, tries, Some(1), true, true)
  }

  function FlashFirst(r: string): seq<Attempt> {
    [Sent(r, "p1", 1), Sent(r, "p2", 4), Sent(r, "p3", 8)]
  }

  function FlashLast(r: string): seq<Attempt> {
    [Sent(r, "p2", 4), Sent(r, "p3", 8), Sent(r, "p1", 1)]
  }

  /** ann's rows best first, bo's best last. */
  const MIXED := FlashFirst("ann") + FlashLast("bo")

  /** The same rows, both best first. */
  const ALIGNED := FlashFirst("ann") + FlashFirst("bo")

  lemma {:induction false} DefaultLine(p: Problem, r: string, tries: int)
    requires tries == 1 || tries == 4 || tries == 8
    ensures Line(DEFAULT_DECAY, p, Sent(r, p.id, tries)).points == DefaultPoints(tries)
  {
    DefaultWorth(p, Sent(r, p.id, tries));
  }

  lemma {:induction false} FirstTotal(r: string, before: seq<Attempt>, after: seq<Attempt>)
    requires forall i :: 0 <= i < |before| ==> before[i].registration != r
    requires forall i :: 0 <= i < |after| ==> after[i].registration != r
    ensures var s := ScoreOf(DEFAULT_DECAY, r, Own(before + FlashFirst(r) + after, r), PROBLEMS);
            s.points == Fin(FLASH_FIRST) && s.attemptsToTop == 13
  {
    IndexOfProblems();
    LinesAmong(DEFAULT_DECAY, INDEX, before, FlashFirst(r), after, r);
    var lines := Lines(DEFAULT_DECAY, INDEX, Own(before + FlashFirst(r) + after, r));
    DefaultLine(INDEX["p1"], r, 1);
    DefaultLine(INDEX["p2"], r, 4);
    DefaultLine(INDEX["p3"], r, 8);
    TotalFlashFirst(r, lines);
  }

  lemma {:induction false} LastTotal(r: string, before: seq<Attempt>, after: seq<Attempt>)
    requires forall i :: 0 <= i < |before| ==> before[i].registration != r
    requires forall i :: 0 <= i < |after| ==> after[i].registration != r
    ensures var s := ScoreOf(DEFAULT_DECAY, r, Own(before + FlashLast(r) + after, r), PROBLEMS);
            s.points == Fin(FLASH_LAST) && s.attemptsToTop == 13
  {
    IndexOfProblems();
    LinesAmong(DEFAULT_DECAY, INDEX, before, FlashLast(r), after, r);
    var lines := Lines(DEFAULT_DECAY, INDEX, Own(before + FlashLast(r) + after, r));
    DefaultLine(INDEX["p1"], r, 1);
    DefaultLine(INDEX["p2"], r, 4);
    DefaultLine(INDEX["p3"], r, 8);
    TotalFlashLast(r, lines);
  }

  lemma MixedScores()
    ensures var s := Scores(DEFAULT_DECAY, [Climber("ann"), Climber("bo")], MIXED, PROBLEMS);
            && s[0].points == Fin(FLASH_FIRST) && s[1].points == Fin(FLASH_LAST)
            && s[0].attemptsToTop == s[1].attemptsToTop
  {
    assert MIXED == [] + FlashFirst("ann") + FlashLast("bo");
    FirstTotal("ann", [], FlashLast("bo"));
    assert MIXED == FlashFirst("ann") + FlashLast("bo") + [];
    LastTotal("bo", FlashFirst("ann"), []);
  }

  lemma AlignedScores()
    ensures var s := Scores(DEFAULT_DECAY, [Climber("ann"), Climber("bo")], ALIGNED, PROBLEMS);
            && s[0].points == Fin(FLASH_FIRST) && s[1].points == Fin(FLASH_FIRST)
            && s[0].attemptsToTop == s[1].attemptsToTop
  {
    assert ALIGNED == [] + FlashFirst("ann") + FlashFirst("bo");
    FirstTotal("ann", [], FlashFirst("bo"));
    assert ALIGNED == FlashFirst("ann") + FlashFirst("bo") + [];
    FirstTotal("bo", FlashFirst("ann"), []);
  }

  lemma {:induction false} RanksOfTwo(x: ClimberScore, y: ClimberScore)
    ensures StandardRanks(CmpPoints, [x, y]) == [1, if CmpPoints(y, x) == 0 then 1 else 2]
    ensures StableSort(CmpPoints, [x, y]) == if CmpPoints(y, x) < 0 then [y, x] else [x, y]
  {
    var s := [x, y];
    RankAt(CmpPoints, s, 0);
    RankAt(CmpPoints, s, 1);
    SortOfChain(CmpPoints, [x]);
    assert s[..1] == [x] && [x][..0] == [];
    assert Insert(CmpPoints, [], y) == [y];
    assert StableSort(CmpPoints, s) == Insert(CmpPoints, [x], y);
  }

  /** With the default decay settings, two climbers who each topped the same three problems in 1, 4 and 8
      tries: they tie if their rows come in the same order, and bo is ahead of ann if bo's flash comes
      last. */
  lemma RowOrderMovesAClimber()
    ensures multiset(MIXED) == multiset(ALIGNED)
    ensures var s := Scores(DEFAULT_DECAY, [Climber("ann"), Climber("bo")], MIXED, PROBLEMS);
            StableSort(CmpPoints, s) == [s[1], s[0]] && StandardRanks(CmpPoints, [s[1], s[0]]) == [1, 2]
    ensures var s := Scores(DEFAULT_DECAY, [Climber("ann"), Climber("bo")], ALIGNED, PROBLEMS);
            StableSort(CmpPoints, s) == s && StandardRanks(CmpPoints, s) == [1, 1]
  {
    SameMultisets();
    MixedScores();
    AlignedScores();
    TwoClimbers(Scores(DEFAULT_DECAY, [Climber("ann"), Climber("bo")], MIXED, PROBLEMS));
    TwoClimbers(Scores(DEFAULT_DECAY, [Climber("ann"), Climber("bo")], ALIGNED, PROBLEMS));
  }

  lemma SameMultisets()
    ensures multiset(MIXED) == multiset(ALIGNED)
  {
    assert multiset(FlashFirst("bo")) == multiset(FlashLast("bo"));
  }

  /** Two climbers with equal attempts, the second at least as good by points. */
  lemma {:induction false} TwoClimbers(s: seq<ClimberScore>)
    requires |s| == 2 && s[0].attemptsToTop == s[1].attemptsToTop && s[0].points == Fin(FLASH_FIRST)
    requires s[1].points == Fin(FLASH_FIRST) || s[1].points == Fin(FLASH_LAST)
    ensures s[1].points == Fin(FLASH_LAST) ==>
              StableSort(CmpPoints, s) == [s[1], s[0]] && StandardRanks(CmpPoints, [s[1], s[0]]) == [1, 2]
    ensures s[1].points == Fin(FLASH_FIRST) ==> StableSort(CmpPoints, s) == s && StandardRanks(CmpPoints, s) == [1, 1]
  {
    RanksOfTwo(s[0], s[1]);
    RanksOfTwo(s[1], s[0]);
    assert s == [s[0], s[1]];
  }
}
