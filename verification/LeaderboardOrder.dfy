/** The attempt rows reach the leaderboard in no particular order (ListByCompetition in
    internal/repository/competition_attempt.go has no ORDER BY): when that shows. */
module LeaderboardOrder {
  import opened Wrappers
  import opened Seqs
  import opened Floats
  import opened Scoring
  import opened Ranking
  import opened Comparing
  import opened Leaderboard

  // ---- The same rows give the same scorecards, up to the order of the lines ----

  lemma {:induction false} LinesConcat(scorer: Scorer, index: map<string, Problem>, a: seq<Attempt>, b: seq<Attempt>)
    ensures Lines(scorer, index, a + b) == Lines(scorer, index, a) + Lines(scorer, index, b)
  {
    if b == [] {
      assert a + b == a;
    } else {
      assert (a + b)[..|a + b| - 1] == a + b[..|b| - 1];
      LinesConcat(scorer, index, a, b[..|b| - 1]);
    }
  }

  lemma {:induction false} OwnConcat(a: seq<Attempt>, b: seq<Attempt>, registration: string)
    ensures Own(a + b, registration) == Own(a, registration) + Own(b, registration)
  {
    if b == [] {
      assert a + b == a;
    } else {
      assert (a + b)[..|a + b| - 1] == a + b[..|b| - 1];
      OwnConcat(a, b[..|b| - 1], registration);
    }
  }

  /** The lines of one registration. */
  function LinesFor(scorer: Scorer, index: map<string, Problem>, attempts: seq<Attempt>, registration: string)
    : seq<ProblemScore>
  {
    Lines(scorer, index, Own(attempts, registration))
  }

  lemma {:induction false} LinesForConcat(scorer: Scorer, index: map<string, Problem>, a: seq<Attempt>, b: seq<Attempt>, r: string)
    ensures LinesFor(scorer, index, a + b, r) == LinesFor(scorer, index, a, r) + LinesFor(scorer, index, b, r)
  {
    OwnConcat(a, b, r);
    LinesConcat(scorer, index, Own(a, r), Own(b, r));
  }

  lemma {:induction false} LinesForMoved(scorer: Scorer, index: map<string, Problem>, b: seq<Attempt>, k: nat, r: string)
    requires k < |b|
    ensures multiset(LinesFor(scorer, index, b, r)) ==
            multiset(LinesFor(scorer, index, Without(b, k), r)) + multiset(LinesFor(scorer, index, [b[k]], r))
  {
    var front, back := b[..k], b[k + 1..];
    assert b == front + ([b[k]] + back);
    LinesForConcat(scorer, index, front, [b[k]] + back, r);
    LinesForConcat(scorer, index, [b[k]], back, r);
    LinesForConcat(scorer, index, front, back, r);
  }

  lemma {:induction false} LinesForPermutation(scorer: Scorer, index: map<string, Problem>, a: seq<Attempt>,
      b: seq<Attempt>, r: string)
    requires multiset(a) == multiset(b)
    ensures multiset(LinesFor(scorer, index, a, r)) == multiset(LinesFor(scorer, index, b, r))
  {
    if |a| > 0 {
      var n := |a| - 1;
      var k := LastFound(a, b);
      LinesForPermutation(scorer, index, a[..n], Without(b, k), r);
      LinesForMoved(scorer, index, b, k, r);
      LinesForMoved(scorer, index, a, n, r);
      assert Without(a, n) == a[..n];
    } else {
      SameElements(a, b);
    }
  }

  lemma {:induction false} ScoresHaveSameRows(scorer: Scorer, active: seq<Registration>, problems: seq<Problem>, a: seq<Attempt>,
      b: seq<Attempt>, k: nat)
    requires multiset(a) == multiset(b) && k < |active|
    ensures SameRows(Scores(scorer, active, a, problems)[k], Scores(scorer, active, b, problems)[k])
  {
    LinesForPermutation(scorer, IndexProblems(problems), a, b, active[k].id);
  }

  lemma {:induction false} TopZoneEarnsNothing(r: string, index: map<string, Problem>, attempts: seq<Attempt>)
    ensures Total(r, Lines(TopZone, index, attempts)).points == ZERO
  {
    if |attempts| > 0 {
      var n := |attempts| - 1;
      var before, a := Lines(TopZone, index, attempts[..n]), attempts[n];
      TopZoneEarnsNothing(r, index, attempts[..n]);
      if a.problem in index {
        TotalPush(r, before, Line(TopZone, index[a.problem], a));
        SmallIntegerExact(0);
        assert Add(ZERO, ZERO) == ZERO;
      } else {
        assert before + [] == before;
      }
    }
  }

  // ---- Lists that compare alike rank alike ----

  /** Equal but for the order of the lines, and equal to every comparison. */
  ghost predicate Alike(cmp: (ClimberScore, ClimberScore) -> int, x: ClimberScore, y: ClimberScore) {
    SameCounts(x, y) && x.points == y.points && forall z :: cmp(x, z) == cmp(y, z) && cmp(z, x) == cmp(z, y)
  }

  ghost predicate AllAlike(cmp: (ClimberScore, ClimberScore) -> int, s: seq<ClimberScore>, t: seq<ClimberScore>) {
    |s| == |t| && forall i :: 0 <= i < |s| ==> Alike(cmp, s[i], t[i])
  }

  lemma {:induction false} AlikePairs(cmp: (ClimberScore, ClimberScore) -> int, x: ClimberScore, x': ClimberScore, y: ClimberScore,
      y': ClimberScore)
    requires Alike(cmp, x, x') && Alike(cmp, y, y')
    ensures cmp(x, y) == cmp(x', y')
  {
    assert cmp(x, y) == cmp(x', y);
    assert cmp(x', y) == cmp(x', y');
  }

  lemma {:induction false} InsertAlike(cmp: (ClimberScore, ClimberScore) -> int, s: seq<ClimberScore>,
      t: seq<ClimberScore>, x: ClimberScore, y: ClimberScore)
    requires AllAlike(cmp, s, t) && Alike(cmp, x, y)
    ensures AllAlike(cmp, Insert(cmp, s, x), Insert(cmp, t, y))
  {
    if |s| > 0 {
      var n := |s| - 1;
      AlikePairs(cmp, x, y, s[n], t[n]);
      InsertAlike(cmp, s[..n], t[..n], x, y);
    }
  }

  lemma {:induction false} SortAlike(cmp: (ClimberScore, ClimberScore) -> int, s: seq<ClimberScore>, t: seq<ClimberScore>)
    requires AllAlike(cmp, s, t)
    ensures AllAlike(cmp, StableSort(cmp, s), StableSort(cmp, t))
  {
    if |s| > 0 {
      var n := |s| - 1;
      SortAlike(cmp, s[..n], t[..n]);
      InsertAlike(cmp, StableSort(cmp, s[..n]), StableSort(cmp, t[..n]), s[n], t[n]);
    }
  }

  lemma {:induction false} RanksAlike(cmp: (ClimberScore, ClimberScore) -> int, s: seq<ClimberScore>,
      t: seq<ClimberScore>)
    requires AllAlike(cmp, s, t)
    ensures StandardRanks(cmp, s) == StandardRanks(cmp, t)
  {
    if |s| > 0 {
      var n := |s| - 1;
      RanksAlike(cmp, s[..n], t[..n]);
      if n > 0 {
        AlikePairs(cmp, s[n], t[n], s[n - 1], t[n - 1]);
      }
    }
  }

  lemma {:induction false} BoardsAlike(cmp: (ClimberScore, ClimberScore) -> int, s: seq<ClimberScore>, t: seq<ClimberScore>,
      regs: seq<Registration>, e: seq<Entry>, f: seq<Entry>)
    requires AllAlike(cmp, s, t) && BoardOk(cmp, s, regs, e) && BoardOk(cmp, t, regs, f)
    ensures e == f
  {
    SortAlike(cmp, s, t);
    RanksAlike(cmp, StableSort(cmp, s), StableSort(cmp, t));
    var u, v := StableSort(cmp, s), StableSort(cmp, t);
    forall i | 0 <= i < |e| ensures e[i] == f[i] {
      assert Alike(cmp, u[i], v[i]);
    }
  }

  // ---- When the order of the rows shows ----

  ghost predicate SumsAgree(s: seq<ClimberScore>, t: seq<ClimberScore>) {
    |s| == |t| && forall k :: 0 <= k < |s| ==> s[k].points == t[k].points
  }

  lemma {:induction false} ScoreAlike(scorer: Scorer, active: seq<Registration>, problems: seq<Problem>, a: seq<Attempt>,
      b: seq<Attempt>, k: nat)
    requires multiset(a) == multiset(b) && k < |active|
    requires var s, t := Scores(scorer, active, a, problems), Scores(scorer, active, b, problems);
             scorer.TopZone? || s[k].points == t[k].points
    ensures var s, t := Scores(scorer, active, a, problems), Scores(scorer, active, b, problems);
            Alike(CmpOf(scorer), s[k], t[k])
  {
    var x, y := Scores(scorer, active, a, problems)[k], Scores(scorer, active, b, problems)[k];
    ScoresHaveSameRows(scorer, active, problems, a, b, k);
    SameRowsCount(x, y);
    if scorer.TopZone? {
      TopZoneEarnsNothing(active[k].id, IndexProblems(problems), Own(a, active[k].id));
      TopZoneEarnsNothing(active[k].id, IndexProblems(problems), Own(b, active[k].id));
      forall z ensures CmpTopZone(x, z) == CmpTopZone(y, z) && CmpTopZone(z, x) == CmpTopZone(z, y) {
        TopZoneOrderIrrelevant(x, y, z);
      }
    } else {
      forall z ensures CmpPoints(x, z) == CmpPoints(y, z) && CmpPoints(z, x) == CmpPoints(z, y) {
        SameTotalsCompareAlike(x, y, z);
      }
    }
  }

  /** By tops and zones the whole leaderboard is independent of the order of the rows; by points it is if
      the rounded sums of every climber agree in both orders. */
  lemma {:induction false} RowOrderIrrelevant(scorer: Scorer, regs: seq<Registration>, problems: seq<Problem>, a: seq<Attempt>,
      b: seq<Attempt>, e: seq<Entry>, f: seq<Entry>)
    requires multiset(a) == multiset(b)
    requires var s, t := Scores(scorer, ActiveOnes(regs), a, problems), Scores(scorer, ActiveOnes(regs), b, problems);
             && (scorer.TopZone? || SumsAgree(s, t))
             && BoardOk(CmpOf(scorer), s, regs, e) && BoardOk(CmpOf(scorer), t, regs, f)
    ensures e == f
  {
    var s, t := Scores(scorer, ActiveOnes(regs), a, problems), Scores(scorer, ActiveOnes(regs), b, problems);
    forall k | 0 <= k < |s| ensures Alike(CmpOf(scorer), s[k], t[k]) {
      ScoreAlike(scorer, ActiveOnes(regs), problems, a, b, k);
    }
    BoardsAlike(CmpOf(scorer), s, t, regs, e, f);
  }

  lemma {:induction false} CountOfOne(z: ClimberScore, x: ClimberScore)
    ensures CountBetter(CmpPoints, [z], x) == if Ahead(z, x) then 1 else 0
  {
    assert [z][..0] == [];
  }

  ghost predicate SamePlaceEverywhere(x: ClimberScore, y: ClimberScore) {
    forall field: seq<ClimberScore> :: CountBetter(CmpPoints, field, x) == CountBetter(CmpPoints, field, y)
  }

  lemma {:induction false} EqualSumsSamePlace(x: ClimberScore, y: ClimberScore)
    requires x.attemptsToTop == y.attemptsToTop && x.points == y.points
    ensures SamePlaceEverywhere(x, y)
  {
    forall field: seq<ClimberScore> ensures CountBetter(CmpPoints, field, x) == CountBetter(CmpPoints, field, y) {
      forall i | 0 <= i < |field| ensures CmpPoints(field[i], x) < 0 <==> CmpPoints(field[i], y) < 0 {
        SameTotalsCompareAlike(x, y, field[i]);
      }
      CountForTied(CmpPoints, field, x, y);
    }
  }

  lemma {:induction false} ToldApart(x: ClimberScore, y: ClimberScore, z: ClimberScore)
    requires Ahead(z, x) != Ahead(z, y)
    ensures !SamePlaceEverywhere(x, y)
  {
    CountOfOne(z, x);
    CountOfOne(z, y);
    assert CountBetter(CmpPoints, [z], x) != CountBetter(CmpPoints, [z], y);
  }

  /** By points, a climber's place among every possible field of others is independent of the order of its
      rows if and only if the rounded sums of both orders agree. */
  lemma {:induction false} PlaceIndependentIff(scorer: Scorer, active: seq<Registration>, problems: seq<Problem>, a: seq<Attempt>,
      b: seq<Attempt>, k: nat)
    requires !scorer.TopZone? && multiset(a) == multiset(b) && k < |active|
    ensures var x, y := Scores(scorer, active, a, problems)[k], Scores(scorer, active, b, problems)[k];
            SamePlaceEverywhere(x, y) <==> x.points == y.points
  {
    var x, y := Scores(scorer, active, a, problems)[k], Scores(scorer, active, b, problems)[k];
    ScoresHaveSameRows(scorer, active, problems, a, b, k);
    PointsOrderIff(x, y);
    SameRowsCount(x, y);
    if x.points == y.points {
      EqualSumsSamePlace(x, y);
    } else {
      var z :| Ahead(z, x) != Ahead(z, y);
      ToldApart(x, y, z);
    }
  }

  /** Points with few binary digits (whole points below 2^53 in all, say) make the leaderboard independent
      of the order of the rows. */
  lemma {:induction false} FewDigitsRowOrder(scorer: Scorer, regs: seq<Registration>, problems: seq<Problem>, a: seq<Attempt>,
      b: seq<Attempt>, e: seq<Entry>, f: seq<Entry>, j: nat)
    requires multiset(a) == multiset(b)
    requires var s, t := Scores(scorer, ActiveOnes(regs), a, problems), Scores(scorer, ActiveOnes(regs), b, problems);
             && (forall k :: 0 <= k < |s| ==> FewDigits(s[k].perProblem, j))
             && BoardOk(CmpOf(scorer), s, regs, e) && BoardOk(CmpOf(scorer), t, regs, f)
    ensures e == f
  {
    var s, t := Scores(scorer, ActiveOnes(regs), a, problems), Scores(scorer, ActiveOnes(regs), b, problems);
    forall k | 0 <= k < |s| ensures s[k].points == t[k].points {
      ScoresHaveSameRows(scorer, ActiveOnes(regs), problems, a, b, k);
      FewDigitsOrderIrrelevant(s[k], t[k], j);
    }
    RowOrderIrrelevant(scorer, regs, problems, a, b, e, f);
  }
}
