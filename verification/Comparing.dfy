/** Comparing two climbers (internal/service/competition): by points, and by tops and zones with
    count-back. When the comparisons are consistent, and what they depend on. */
module Comparing {
  import opened Wrappers
  import opened Seqs
  import opened Floats
  import opened Scoring
  import opened Ranking

  function Tier(p: ProblemScore): int {
    if p.topReached then 2 else if p.zoneReached then 1 else 0
  }

  function CmpGoodness(a: ProblemScore, b: ProblemScore): int {
    if Tier(a) != Tier(b) then Tier(b) - Tier(a)
    else if Tier(a) == 2 then a.attempts - b.attempts
    else if Tier(a) == 1 then OrZero(a.zoneAttempts) - OrZero(b.zoneAttempts)
    else 0
  }

  function SortedByGoodness(lines: seq<ProblemScore>): seq<ProblemScore> {
    StableSort(CmpGoodness, lines)
  }

  /** The first difference, over the lines that both have. */
  function CountBack(a: seq<ProblemScore>, b: seq<ProblemScore>): int {
    if a == [] || b == [] then 0
    else if CmpGoodness(a[0], b[0]) != 0 then CmpGoodness(a[0], b[0])
    else CountBack(a[1..], b[1..])
  }

  method CompareCountBack(x: ClimberScore, y: ClimberScore) returns (c: int)
    ensures c == CountBack(SortedByGoodness(x.perProblem), SortedByGoodness(y.perProblem))
  {
    var a, b := SortedByGoodness(x.perProblem), SortedByGoodness(y.perProblem);
    var n := if |b| < |a| then |b| else |a|;
    for i := 0 to n
      invariant CountBack(a, b) == CountBack(a[i..], b[i..])
    {
      c := CmpGoodness(a[i], b[i]);
      if c != 0 {
        return;
      }
      assert a[i..][1..] == a[i + 1..] && b[i..][1..] == b[i + 1..];
    }
    c := 0;
  }

  function CmpTotals(a: ClimberScore, b: ClimberScore): int {
    if a.tops != b.tops then b.tops - a.tops
    else if a.zones != b.zones then b.zones - a.zones
    else if a.attemptsToTop != b.attemptsToTop then a.attemptsToTop - b.attemptsToTop
    else a.attemptsToZone - b.attemptsToZone
  }

  function CmpTopZone(a: ClimberScore, b: ClimberScore): int {
    if CmpTotals(a, b) != 0 then CmpTotals(a, b)
    else CountBack(SortedByGoodness(a.perProblem), SortedByGoodness(b.perProblem))
  }

  /** As in the source: different points decide, and NaN is different from everything. */
  function CmpPoints(a: ClimberScore, b: ClimberScore): int {
    if !Equal(a.points, b.points) then if Greater(a.points, b.points) then -1 else 1
    else a.attemptsToTop - b.attemptsToTop
  }

  function CmpOf(scorer: Scorer): (ClimberScore, ClimberScore) -> int {
    if scorer.TopZone? then CmpTopZone else CmpPoints
  }

  /** The comparison by points is consistent exactly when every total is a number. */
  lemma {:induction false} PointsConsistentIff(scores: seq<ClimberScore>)
    ensures Consistent(CmpPoints, scores) <==> forall i :: 0 <= i < |scores| ==> !scores[i].points.NaN?
  {
    if i :| 0 <= i < |scores| && scores[i].points.NaN? {
      assert scores[i] in scores && CmpPoints(scores[i], scores[i]) == 1;
    }
  }

  // ---- Count-back to the end of the longer scorecard ----

  const NOTHING := ProblemScore("", 0, None, ZERO, false, false, 0)

  function Best(s: seq<ProblemScore>): ProblemScore {
    if s == [] then NOTHING else s[0]
  }

  function Rest(s: seq<ProblemScore>): seq<ProblemScore> {
    if s == [] then [] else s[1..]
  }

  /** Count-back in which a missing line counts as neither zone nor top. */
  function FullCountBack(a: seq<ProblemScore>, b: seq<ProblemScore>): int
    decreases |a| + |b|
  {
    if a == [] && b == [] then 0
    else if CmpGoodness(Best(a), Best(b)) != 0 then CmpGoodness(Best(a), Best(b))
    else FullCountBack(Rest(a), Rest(b))
  }

  function CmpFull(a: ClimberScore, b: ClimberScore): int {
    if CmpTotals(a, b) != 0 then CmpTotals(a, b)
    else FullCountBack(SortedByGoodness(a.perProblem), SortedByGoodness(b.perProblem))
  }

  lemma {:induction false} FullCountBackTransitive(a: seq<ProblemScore>, b: seq<ProblemScore>, c: seq<ProblemScore>)
    requires FullCountBack(a, b) <= 0 && FullCountBack(b, c) <= 0
    ensures FullCountBack(a, c) <= 0
    decreases |a| + |b| + |c|
  {
    if a != [] || c != [] {
      if CmpGoodness(Best(a), Best(c)) == 0 {
        FullCountBackTransitive(Rest(a), Rest(b), Rest(c));
      }
    }
  }

  lemma {:induction false} FullTransitive(x: ClimberScore, y: ClimberScore, z: ClimberScore)
    requires CmpFull(x, y) <= 0 && CmpFull(y, z) <= 0
    ensures CmpFull(x, z) <= 0
  {
    if CmpTotals(x, y) == 0 && CmpTotals(y, z) == 0 {
      FullCountBackTransitive(SortedByGoodness(x.perProblem), SortedByGoodness(y.perProblem),
        SortedByGoodness(z.perProblem));
    }
  }

  // ---- When stopping at the shorter scorecard matters ----

  /** The lines run out on one side while the other still has a zone or a top. */
  predicate CutShort(a: seq<ProblemScore>, b: seq<ProblemScore>) {
    if a == [] then b != [] && Tier(b[0]) > 0
    else if b == [] then Tier(a[0]) > 0
    else CmpGoodness(a[0], b[0]) == 0 && CutShort(a[1..], b[1..])
  }

  ghost predicate SameSign(x: int, y: int) {
    (x < 0 <==> y < 0) && (x > 0 <==> y > 0)
  }

  lemma {:induction false} NothingLeft(s: seq<ProblemScore>)
    requires Sorted(CmpGoodness, s) && (s != [] ==> Tier(s[0]) == 0)
    ensures FullCountBack([], s) == 0 && FullCountBack(s, []) == 0
  {
    if s != [] {
      assert |s| > 1 ==> CmpGoodness(s[0], s[1]) <= 0;
      NothingLeft(s[1..]);
    }
  }

  lemma {:induction false} CountBackAgreesIff(a: seq<ProblemScore>, b: seq<ProblemScore>)
    requires Sorted(CmpGoodness, a) && Sorted(CmpGoodness, b)
    ensures SameSign(CountBack(a, b), FullCountBack(a, b)) <==> !CutShort(a, b)
  {
    if a == [] {
      if !CutShort(a, b) {
        NothingLeft(b);
      }
    } else if b == [] {
      if !CutShort(a, b) {
        NothingLeft(a);
      }
    } else if CmpGoodness(a[0], b[0]) == 0 {
      CountBackAgreesIff(a[1..], b[1..]);
    }
  }

  lemma {:induction false} GoodnessConsistent(lines: seq<ProblemScore>)
    ensures Consistent(CmpGoodness, lines)
    ensures Sorted(CmpGoodness, SortedByGoodness(lines))
  {
    SortSorts(CmpGoodness, lines, lines);
  }

  /** The comparison of two climbers is the count-back over all their results exactly when it is not
      cut short: tied totals, tied lines as far as the shorter scorecard goes, and a zone or top left. */
  lemma {:induction false} TopZoneAgreesIff(x: ClimberScore, y: ClimberScore)
    ensures SameSign(CmpTopZone(x, y), CmpFull(x, y)) <==>
            !(CmpTotals(x, y) == 0 && CutShort(SortedByGoodness(x.perProblem), SortedByGoodness(y.perProblem)))
  {
    GoodnessConsistent(x.perProblem);
    GoodnessConsistent(y.perProblem);
    CountBackAgreesIff(SortedByGoodness(x.perProblem), SortedByGoodness(y.perProblem));
  }

  // ---- Exactly when the count-based comparison is consistent ----

  /** The comparison of x and y stops short. */
  predicate Cut(x: ClimberScore, y: ClimberScore) {
    CmpTotals(x, y) == 0 && CutShort(SortedByGoodness(x.perProblem), SortedByGoodness(y.perProblem))
  }

  /** z cannot tell x and y apart. */
  ghost predicate SeenAlike(x: ClimberScore, y: ClimberScore, z: ClimberScore) {
    SameSign(CmpTopZone(x, z), CmpTopZone(y, z))
  }

  ghost predicate CutsAreHarmless(scores: seq<ClimberScore>) {
    forall x, y, z :: x in scores && y in scores && z in scores && Cut(x, y) ==> SeenAlike(x, y, z)
  }

  lemma {:induction false} CountBackMutual(a: seq<ProblemScore>, b: seq<ProblemScore>)
    ensures CountBack(a, b) < 0 <==> CountBack(b, a) > 0
  {
    if a != [] && b != [] && CmpGoodness(a[0], b[0]) == 0 {
      CountBackMutual(a[1..], b[1..]);
    }
  }

  lemma {:induction false} TopZoneMutual(x: ClimberScore, y: ClimberScore)
    ensures CmpTopZone(x, y) < 0 <==> CmpTopZone(y, x) > 0
  {
    CountBackMutual(SortedByGoodness(x.perProblem), SortedByGoodness(y.perProblem));
  }

  lemma {:induction false} CutIsTie(a: seq<ProblemScore>, b: seq<ProblemScore>)
    requires CutShort(a, b)
    ensures CountBack(a, b) == 0
  {
    if a != [] && b != [] {
      CutIsTie(a[1..], b[1..]);
    }
  }

  lemma {:induction false} TiedAreSeenAlike(scores: seq<ClimberScore>, x: ClimberScore, y: ClimberScore, z: ClimberScore)
    requires Consistent(CmpTopZone, scores) && x in scores && y in scores && z in scores && CmpTopZone(x, y) == 0
    ensures SeenAlike(x, y, z)
  {
    TopZoneMutual(x, y);
    TopZoneMutual(y, x);
    TopZoneMutual(x, z);
    TopZoneMutual(y, z);
    TopZoneMutual(z, x);
    TopZoneMutual(z, y);
  }

  lemma {:induction false} HarmlessIsTransitive(scores: seq<ClimberScore>, x: ClimberScore, y: ClimberScore, z: ClimberScore)
    requires CutsAreHarmless(scores) && x in scores && y in scores && z in scores
    requires CmpTopZone(x, y) <= 0 && CmpTopZone(y, z) <= 0
    ensures CmpTopZone(x, z) <= 0
  {
    TopZoneAgreesIff(x, y);
    TopZoneAgreesIff(y, z);
    TopZoneAgreesIff(x, z);
    if Cut(x, y) {
      assert SeenAlike(x, y, z);
    } else if Cut(y, z) {
      assert SeenAlike(y, z, x);
      TopZoneMutual(x, y);
      TopZoneMutual(x, z);
      TopZoneMutual(y, x);
      TopZoneMutual(z, x);
    } else if Cut(x, z) {
      CutIsTie(SortedByGoodness(x.perProblem), SortedByGoodness(z.perProblem));
    } else {
      FullTransitive(x, y, z);
    }
  }

  /** Over a list of climbers the count-based comparison is consistent if and only if every pair that is
      cut short compares alike with everybody. */
  lemma {:induction false} TopZoneConsistentIff(scores: seq<ClimberScore>)
    ensures Consistent(CmpTopZone, scores) <==> CutsAreHarmless(scores)
  {
    if Consistent(CmpTopZone, scores) {
      forall x, y, z | x in scores && y in scores && z in scores && Cut(x, y) ensures SeenAlike(x, y, z) {
        CutIsTie(SortedByGoodness(x.perProblem), SortedByGoodness(y.perProblem));
        TiedAreSeenAlike(scores, x, y, z);
      }
    }
    if CutsAreHarmless(scores) {
      forall x, y | x in scores && y in scores ensures CmpTopZone(x, y) < 0 <==> CmpTopZone(y, x) > 0 {
        TopZoneMutual(x, y);
      }
      forall x, y, z | x in scores && y in scores && z in scores && CmpTopZone(x, y) <= 0 && CmpTopZone(y, z) <= 0
        ensures CmpTopZone(x, z) <= 0
      {
        HarmlessIsTransitive(scores, x, y, z);
      }
    }
  }

  // ---- Scorecards on which every top has its zone ----

  predicate TopsHaveZones(lines: seq<ProblemScore>) {
    forall i :: 0 <= i < |lines| ==> (lines[i].topReached ==> lines[i].zoneReached)
  }

  predicate Shaped(s: ClimberScore) {
    s == Total(s.registration, s.perProblem) && TopsHaveZones(s.perProblem)
  }

  /** How many lines have a zone or a top. */
  function Scored(lines: seq<ProblemScore>): nat {
    if |lines| == 0 then 0
    else Scored(lines[..|lines| - 1]) + (if Tier(lines[|lines| - 1]) > 0 then 1 else 0)
  }

  lemma {:induction false} ScoredFront(lines: seq<ProblemScore>)
    requires |lines| > 0
    ensures Scored(lines) == (if Tier(lines[0]) > 0 then 1 else 0) + Scored(lines[1..])
  {
    if |lines| > 1 {
      ScoredFront(lines[..|lines| - 1]);
      assert lines[..|lines| - 1][1..] == lines[1..][..|lines[1..]| - 1];
    }
  }

  lemma {:induction false} InsertScored(s: seq<ProblemScore>, p: ProblemScore)
    ensures Scored(Insert(CmpGoodness, s, p)) == Scored(s) + (if Tier(p) > 0 then 1 else 0)
  {
    if |s| == 0 || CmpGoodness(p, s[|s| - 1]) >= 0 {
      assert (s + [p])[..|s|] == s;
    } else {
      InsertScored(s[..|s| - 1], p);
      var r := Insert(CmpGoodness, s[..|s| - 1], p);
      assert (r + [s[|s| - 1]])[..|r|] == r;
    }
  }

  lemma {:induction false} SortScored(lines: seq<ProblemScore>)
    ensures Scored(SortedByGoodness(lines)) == Scored(lines)
  {
    if |lines| > 0 {
      SortScored(lines[..|lines| - 1]);
      InsertScored(SortedByGoodness(lines[..|lines| - 1]), lines[|lines| - 1]);
    }
  }

  lemma {:induction false} ScoredIsZones(registration: string, lines: seq<ProblemScore>)
    requires TopsHaveZones(lines)
    ensures Scored(lines) == Total(registration, lines).zones
  {
    if |lines| > 0 {
      ScoredIsZones(registration, lines[..|lines| - 1]);
    }
  }

  lemma {:induction false} EquallyScored(a: seq<ProblemScore>, b: seq<ProblemScore>)
    requires Scored(a) == Scored(b)
    ensures !CutShort(a, b)
  {
    if a != [] {
      ScoredFront(a);
    }
    if b != [] {
      ScoredFront(b);
    }
    if a != [] && b != [] && CmpGoodness(a[0], b[0]) == 0 {
      EquallyScored(a[1..], b[1..]);
    }
  }

  /** Between two scorecards on which every top has its zone, nothing is cut short. */
  lemma {:induction false} ShapedAgree(x: ClimberScore, y: ClimberScore)
    requires Shaped(x) && Shaped(y)
    ensures SameSign(CmpTopZone(x, y), CmpFull(x, y))
  {
    TopZoneAgreesIff(x, y);
    if CmpTotals(x, y) == 0 {
      ScoredIsZones(x.registration, x.perProblem);
      ScoredIsZones(y.registration, y.perProblem);
      SortScored(x.perProblem);
      SortScored(y.perProblem);
      EquallyScored(SortedByGoodness(x.perProblem), SortedByGoodness(y.perProblem));
    }
  }

  /** So no pair of such scorecards is cut short, and the comparison is consistent on them. */
  lemma {:induction false} ShapedAreHarmless(scores: seq<ClimberScore>)
    requires forall i :: 0 <= i < |scores| ==> Shaped(scores[i])
    ensures forall x, y :: x in scores && y in scores ==> !Cut(x, y)
    ensures CutsAreHarmless(scores)
  {
    forall x, y | x in scores && y in scores ensures !Cut(x, y) {
      ShapedAgree(x, y);
      TopZoneAgreesIff(x, y);
    }
  }

  // ---- The order of the lines ----

  lemma {:induction false} TiedLinesCompareAlike(a: seq<ProblemScore>, b: seq<ProblemScore>, c: seq<ProblemScore>)
    requires |a| == |b| && forall i :: 0 <= i < |a| ==> CmpGoodness(a[i], b[i]) == 0
    ensures CountBack(a, c) == CountBack(b, c) && CountBack(c, a) == CountBack(c, b)
  {
    if a != [] && c != [] {
      TiedLinesCompareAlike(a[1..], b[1..], c[1..]);
    }
  }

  lemma {:induction false} SortedPermutationsTie(x: seq<ProblemScore>, y: seq<ProblemScore>)
    requires multiset(x) == multiset(y)
    ensures var a, b := SortedByGoodness(x), SortedByGoodness(y);
            |a| == |b| && forall i :: 0 <= i < |a| ==> CmpGoodness(a[i], b[i]) == 0
  {
    var a, b := SortedByGoodness(x), SortedByGoodness(y);
    SortPermutes(CmpGoodness, x);
    SortPermutes(CmpGoodness, y);
    SameElements(a, x);
    SameElements(b, x);
    GoodnessConsistent(x);
    GoodnessConsistent(y);
    forall i | 0 <= i < |a| ensures CmpGoodness(a[i], b[i]) == 0 {
      SortedUpToTies(CmpGoodness, a, b, i, x);
    }
  }

  /** Scorecards of the same rows in some order. */
  ghost predicate SameRows(x: ClimberScore, y: ClimberScore) {
    && x == Total(x.registration, x.perProblem) && y == Total(x.registration, y.perProblem)
    && multiset(x.perProblem) == multiset(y.perProblem)
  }

  lemma {:induction false} SameRowsCount(x: ClimberScore, y: ClimberScore)
    requires SameRows(x, y)
    ensures SameCounts(x, y)
  {
    CountsOfPermutation(x.registration, x.perProblem, y.perProblem);
  }

  lemma {:induction false} SameCountsCompareAlike(x: ClimberScore, y: ClimberScore, z: ClimberScore)
    requires SameCounts(x, y)
    requires var a, b, c := SortedByGoodness(x.perProblem), SortedByGoodness(y.perProblem), SortedByGoodness(z.perProblem);
             CountBack(a, c) == CountBack(b, c) && CountBack(c, a) == CountBack(c, b)
    ensures CmpTopZone(x, z) == CmpTopZone(y, z) && CmpTopZone(z, x) == CmpTopZone(z, y)
  {
  }

  /** By tops and zones, the order of the rows makes no difference to any comparison. */
  lemma {:induction false} TopZoneOrderIrrelevant(x: ClimberScore, y: ClimberScore, z: ClimberScore)
    requires SameRows(x, y)
    ensures CmpTopZone(x, z) == CmpTopZone(y, z) && CmpTopZone(z, x) == CmpTopZone(z, y)
  {
    SameRowsCount(x, y);
    SortedPermutationsTie(x.perProblem, y.perProblem);
    TiedLinesCompareAlike(SortedByGoodness(x.perProblem), SortedByGoodness(y.perProblem), SortedByGoodness(z.perProblem));
    SameCountsCompareAlike(x, y, z);
  }

  ghost predicate Ahead(z: ClimberScore, x: ClimberScore) {
    CmpPoints(z, x) < 0
  }

  /** A competitor who is ahead of one of two climbers with different totals only. */
  function Between(x: ClimberScore, y: ClimberScore): ClimberScore {
    if x.points.NaN? then y.(points := PosInf, attemptsToTop := y.attemptsToTop - 1)
    else if y.points.NaN? then x.(points := PosInf, attemptsToTop := x.attemptsToTop - 1)
    else if Greater(x.points, y.points) then x else y
  }

  lemma {:induction false} DifferentTotalsShow(x: ClimberScore, y: ClimberScore)
    requires x.attemptsToTop == y.attemptsToTop && x.points != y.points
    ensures !(forall z :: Ahead(z, x) <==> Ahead(z, y)) && CmpPoints(x, y) != 0
  {
    var z := Between(x, y);
    assert Ahead(z, x) != Ahead(z, y);
  }

  lemma {:induction false} SameTotalsCompareAlike(x: ClimberScore, y: ClimberScore, z: ClimberScore)
    requires x.attemptsToTop == y.attemptsToTop && x.points == y.points
    ensures CmpPoints(x, z) == CmpPoints(y, z) && CmpPoints(z, x) == CmpPoints(z, y)
    ensures Ahead(z, x) <==> Ahead(z, y)
  {
  }

  /** By points, no competitor can tell in which order the rows were read if and only if the rounded sums
      of both orders agree; the climber ties with itself exactly if they agree on a number. */
  lemma {:induction false} PointsOrderIff(x: ClimberScore, y: ClimberScore)
    requires SameRows(x, y)
    ensures (forall z :: Ahead(z, x) <==> Ahead(z, y)) <==> x.points == y.points
    ensures CmpPoints(x, y) == 0 <==> x.points == y.points && !x.points.NaN?
  {
    SameRowsCount(x, y);
    if x.points != y.points {
      DifferentTotalsShow(x, y);
    } else {
      forall z ensures Ahead(z, x) <==> Ahead(z, y) {
        SameTotalsCompareAlike(x, y, z);
      }
    }
  }

  /** Whole points, or points with few binary digits, add up to the same total in any order. */
  lemma {:induction false} FewDigitsOrderIrrelevant(x: ClimberScore, y: ClimberScore, j: nat)
    requires SameRows(x, y) && FewDigits(x.perProblem, j)
    ensures x.points == y.points
  {
    FewDigitsAnyOrder(x.registration, x.perProblem, y.perProblem, j);
  }

  // ---- Who ranks better ----

  /** More tops, then more zones, then fewer tries to top, then fewer tries to zone. */
  predicate BetterTotals(x: ClimberScore, y: ClimberScore) {
    || x.tops > y.tops
    || (x.tops == y.tops && x.zones > y.zones)
    || (x.tops == y.tops && x.zones == y.zones && x.attemptsToTop < y.attemptsToTop)
    || (x.tops == y.tops && x.zones == y.zones && x.attemptsToTop == y.attemptsToTop
        && x.attemptsToZone < y.attemptsToZone)
  }

  predicate SameTotals(x: ClimberScore, y: ClimberScore) {
    x.tops == y.tops && x.zones == y.zones && x.attemptsToTop == y.attemptsToTop && x.attemptsToZone == y.attemptsToZone
  }

  predicate ZoneOnly(p: ProblemScore) {
    p.zoneReached && !p.topReached
  }

  predicate Nothing(p: ProblemScore) {
    !p.zoneReached && !p.topReached
  }

  /** A top before a zone before nothing; among tops fewer tries, among zones fewer tries to the zone, where
      a zone without a count counts as none. */
  predicate BetterLine(p: ProblemScore, q: ProblemScore) {
    || (p.topReached && !q.topReached)
    || (p.topReached && q.topReached && p.attempts < q.attempts)
    || (ZoneOnly(p) && Nothing(q))
    || (ZoneOnly(p) && ZoneOnly(q)
        && (if p.zoneAttempts.Some? then p.zoneAttempts.value else 0) < (if q.zoneAttempts.Some? then q.zoneAttempts.value else 0))
  }

  /** No line is better than one before it. */
  ghost predicate BestToWorst(lines: seq<ProblemScore>) {
    forall i, j :: 0 <= i < j < |lines| ==> !BetterLine(lines[j], lines[i])
  }

  /** The first place at which two scorecards differ, and the first is the better one there. */
  ghost predicate WinsAt(a: seq<ProblemScore>, b: seq<ProblemScore>, i: int) {
    && 0 <= i < |a| && i < |b| && BetterLine(a[i], b[i])
    && forall j :: 0 <= j < i ==> !BetterLine(a[j], b[j]) && !BetterLine(b[j], a[j])
  }

  ghost predicate WinsCountBack(a: seq<ProblemScore>, b: seq<ProblemScore>) {
    exists i :: WinsAt(a, b, i)
  }

  lemma {:induction false} TotalsOrder(x: ClimberScore, y: ClimberScore)
    ensures CmpTotals(x, y) < 0 <==> BetterTotals(x, y)
    ensures CmpTotals(x, y) > 0 <==> BetterTotals(y, x)
    ensures CmpTotals(x, y) == 0 <==> SameTotals(x, y)
  {
  }

  lemma {:induction false} LineOrder(p: ProblemScore, q: ProblemScore)
    ensures CmpGoodness(p, q) < 0 <==> BetterLine(p, q)
    ensures CmpGoodness(p, q) > 0 <==> BetterLine(q, p)
  {
  }

  lemma {:induction false} CountBackWins(a: seq<ProblemScore>, b: seq<ProblemScore>)
    ensures CountBack(a, b) < 0 <==> WinsCountBack(a, b)
  {
    if a != [] && b != [] {
      LineOrder(a[0], b[0]);
      if CmpGoodness(a[0], b[0]) == 0 {
        CountBackWins(a[1..], b[1..]);
        WinsLater(a, b);
      } else if CmpGoodness(a[0], b[0]) < 0 {
        assert WinsAt(a, b, 0);
      } else {
        assert forall i :: WinsAt(a, b, i) ==> i == 0;
      }
    }
  }

  lemma {:induction false} WinsLater(a: seq<ProblemScore>, b: seq<ProblemScore>)
    requires a != [] && b != [] && !BetterLine(a[0], b[0]) && !BetterLine(b[0], a[0])
    ensures WinsCountBack(a, b) <==> WinsCountBack(a[1..], b[1..])
  {
    if i :| WinsAt(a, b, i) {
      assert forall j :: 0 <= j < i - 1 ==> a[1..][j] == a[j + 1] && b[1..][j] == b[j + 1];
      assert WinsAt(a[1..], b[1..], i - 1);
    }
    if i :| WinsAt(a[1..], b[1..], i) {
      assert forall j :: 0 < j <= i ==> a[j] == a[1..][j - 1] && b[j] == b[1..][j - 1];
      assert WinsAt(a, b, i + 1);
    }
  }

  /** Any arrangement of the lines from best to worst ties with the sorted one place by place. */
  lemma {:induction false} AnyBestToWorst(lines: seq<ProblemScore>, a: seq<ProblemScore>)
    requires multiset(a) == multiset(lines) && BestToWorst(a)
    ensures var s := SortedByGoodness(lines);
            |a| == |s| && forall i :: 0 <= i < |a| ==> CmpGoodness(a[i], s[i]) == 0
  {
    var s := SortedByGoodness(lines);
    SortPermutes(CmpGoodness, lines);
    SameElements(a, lines);
    SameElements(s, lines);
    GoodnessConsistent(lines);
    forall i, j | 0 <= i < j < |a| ensures CmpGoodness(a[i], a[j]) <= 0 {
      LineOrder(a[i], a[j]);
    }
    forall i | 0 <= i < |a| ensures CmpGoodness(a[i], s[i]) == 0 {
      SortedUpToTies(CmpGoodness, a, s, i, lines);
    }
  }

  /** Who is better by tops and zones: the one with the better totals, and with equal totals the one whose
      results, each climber's taken from best to worst in any way, are the first to be better. */
  lemma {:induction false} BetterByTopZone(x: ClimberScore, y: ClimberScore, a: seq<ProblemScore>, b: seq<ProblemScore>)
    requires multiset(a) == multiset(x.perProblem) && BestToWorst(a)
    requires multiset(b) == multiset(y.perProblem) && BestToWorst(b)
    ensures CmpTopZone(x, y) < 0 <==> BetterTotals(x, y) || (SameTotals(x, y) && WinsCountBack(a, b))
    ensures CmpTopZone(x, y) > 0 <==> BetterTotals(y, x) || (SameTotals(x, y) && WinsCountBack(b, a))
  {
    var s, u := SortedByGoodness(x.perProblem), SortedByGoodness(y.perProblem);
    TotalsOrder(x, y);
    AnyBestToWorst(x.perProblem, a);
    AnyBestToWorst(y.perProblem, b);
    TiedLinesCompareAlike(a, s, b);
    TiedLinesCompareAlike(b, u, s);
    CountBackWins(a, b);
    CountBackWins(b, a);
    CountBackMutual(b, a);
  }

  predicate MorePoints(a: Float, b: Float) {
    || (a.Fin? && b.Fin? && a.value > b.value)
    || (a.PosInf? && (b.Fin? || b.NegInf?))
    || (a.Fin? && b.NegInf?)
  }

  predicate SamePoints(a: Float, b: Float) {
    (a.Fin? && b.Fin? && a.value == b.value) || (a.PosInf? && b.PosInf?) || (a.NegInf? && b.NegInf?)
  }

  /** Who is better by points: the one with more, and with equal points the one with fewer tries to top.
      Nobody is ahead of a total that is no number, and it is ahead of nobody. */
  lemma {:induction false} BetterByPoints(x: ClimberScore, y: ClimberScore)
    ensures CmpPoints(x, y) < 0 <==>
            MorePoints(x.points, y.points) || (SamePoints(x.points, y.points) && x.attemptsToTop < y.attemptsToTop)
    ensures CmpPoints(x, y) == 0 <==> SamePoints(x.points, y.points) && x.attemptsToTop == y.attemptsToTop
  {
  }

  // ---- When more points mean a better rank ----

  /** Ranked in this order, everybody with more points gets a better rank. */
  ghost predicate PointsDecide(scores: seq<ClimberScore>) {
    var sorted, ranks := StableSort(CmpPoints, scores), StandardRanks(CmpPoints, StableSort(CmpPoints, scores));
    forall i, j :: 0 <= i < |sorted| && 0 <= j < |sorted| && MorePoints(sorted[i].points, sorted[j].points) ==>
      ranks[i] < ranks[j]
  }

  predicate AllNumbers(scores: seq<ClimberScore>) {
    forall i :: 0 <= i < |scores| ==> !scores[i].points.NaN?
  }

  lemma {:induction false} MorePointsBetterRank(scores: seq<ClimberScore>, i: nat, j: nat)
    requires i < |scores| && j < |scores| && AllNumbers(scores)
    requires var sorted := StableSort(CmpPoints, scores); MorePoints(sorted[i].points, sorted[j].points)
    ensures var ranks := StandardRanks(CmpPoints, StableSort(CmpPoints, scores)); ranks[i] < ranks[j]
  {
    var sorted := StableSort(CmpPoints, scores);
    PointsConsistentIff(scores);
    BetterByPoints(sorted[i], sorted[j]);
    BetterRanksAhead(CmpPoints, CmpPoints, scores, i, j);
  }

  /** A total that is no number stops everybody behind it from moving up. */
  lemma {:induction false} NaNKeepsTurn(arr: seq<ClimberScore>)
    requires |arr| >= 3 && arr[1].points.NaN?
    ensures InTurn(StableSort(CmpPoints, arr), arr[0], arr[1], arr[2])
  {
    var n := |arr| - 1;
    if n == 2 {
      SortOfChain(CmpPoints, arr);
      assert InTurnAt(arr, 0, 1, 2, arr[0], arr[1], arr[2]);
    } else {
      NaNKeepsTurn(arr[..n]);
      InsertKeepsTurn(CmpPoints, StableSort(CmpPoints, arr[..n]), arr[n], arr[0], arr[1], arr[2]);
    }
  }

  lemma {:induction false} RanksBehind(s: seq<ClimberScore>, k: nat, j: nat)
    requires k <= j < |s| && s[k].points.NaN?
    ensures StandardRanks(CmpPoints, s)[j] >= k + 1
  {
    RankAt(CmpPoints, s, j);
    if j > k && CmpPoints(s[j], s[j - 1]) == 0 {
      RanksBehind(s, k, j - 1);
    }
  }

  lemma {:induction false} NaNHidesMorePoints(arr: seq<ClimberScore>)
    requires |arr| >= 3 && arr[1].points.NaN? && MorePoints(arr[2].points, arr[0].points)
    ensures !PointsDecide(arr)
  {
    var s := StableSort(CmpPoints, arr);
    NaNKeepsTurn(arr);
    var i, k, j :| InTurnAt(s, i, k, j, arr[0], arr[1], arr[2]);
    RankAtMost(CmpPoints, s, i);
    RanksBehind(s, k, j);
    assert MorePoints(s[j].points, s[i].points);
  }

  /** An order of the climbers that starts with three given ones. */
  lemma {:induction false} StartingWith(scores: seq<ClimberScore>, y: ClimberScore, n: ClimberScore, x: ClimberScore)
    returns (arr: seq<ClimberScore>)
    requires y in scores && n in scores && x in scores && y != n && n != x && x != y
    ensures multiset(arr) == multiset(scores) && |arr| >= 3 && arr[0] == y && arr[1] == n && arr[2] == x
  {
    var one := BringForward(scores, y);
    var two := BringForward(one, n);
    var three := BringForward(two, x);
    arr := [y, n, x] + three;
    assert arr == [y] + ([n] + ([x] + three));
  }

  /** A climber without a number as total, and two others of whom one has more points. */
  ghost predicate NaNAmongUnequal(scores: seq<ClimberScore>) {
    && (exists n :: n in scores && n.points.NaN?)
    && exists x, y :: x in scores && y in scores && MorePoints(x.points, y.points)
  }

  /** In whatever order the climbers come, more points mean a better rank: if and only if no total is NaN, or
      nobody has more points than anybody else. */
  lemma {:induction false} PointsDecideIff(scores: seq<ClimberScore>)
    ensures (forall arr :: multiset(arr) == multiset(scores) ==> PointsDecide(arr)) <==> !NaNAmongUnequal(scores)
  {
    if NaNAmongUnequal(scores) {
      var n :| n in scores && n.points.NaN?;
      var x, y :| x in scores && y in scores && MorePoints(x.points, y.points);
      var arr := StartingWith(scores, y, n, x);
      NaNHidesMorePoints(arr);
    } else {
      forall arr | multiset(arr) == multiset(scores) ensures PointsDecide(arr) {
        NumbersDecide(scores, arr);
      }
    }
  }

  lemma {:induction false} NumbersDecide(scores: seq<ClimberScore>, arr: seq<ClimberScore>)
    requires !NaNAmongUnequal(scores) && multiset(arr) == multiset(scores)
    ensures PointsDecide(arr)
  {
    var sorted := StableSort(CmpPoints, arr);
    SameElements(arr, scores);
    SortWithin(CmpPoints, arr, arr);
    forall i, j | 0 <= i < |sorted| && 0 <= j < |sorted| && MorePoints(sorted[i].points, sorted[j].points)
      ensures StandardRanks(CmpPoints, sorted)[i] < StandardRanks(CmpPoints, sorted)[j]
    {
      assert sorted[i] in scores && sorted[j] in scores;
      forall k | 0 <= k < |arr| ensures !arr[k].points.NaN? {
        assert arr[k] in scores;
      }
      MorePointsBetterRank(arr, i, j);
    }
  }

  // ---- A top without its zone ----

  function Topped(problem: string, zone: Option<int>): ProblemScore {
    ProblemScore(problem, 3, zone, ZERO, true, zone.Some?, 0)
  }

  function Zoned(problem: string, zone: int): ProblemScore {
    ProblemScore(problem, zone, Some(zone), ZERO, false, true, 0)
  }

  /** Three climbers with 2 tops, 2 zones, 6 attempts to top and 4 to zone; bo and cy have a top whose
      zone was overridden away. */
  const ANN := Total("ann", [Topped("p1", Some(2)), Topped("p2", Some(2))])
  const BO := Total("bo", [Topped("p1", Some(3)), Topped("p2", None), Zoned("p3", 1)])
  const CY := Total("cy", [Topped("p1", Some(2)), Topped("p2", None), Zoned("p3", 2)])

  lemma {:induction false} TotalOfTwo(registration: string, p: ProblemScore, q: ProblemScore)
    ensures Total(registration, [p, q]) == Total(registration, [p] + [q])
    ensures var s := Total(registration, [p, q]);
            && s.tops == (if p.topReached then 1 else 0) + (if q.topReached then 1 else 0)
            && s.zones == (if p.zoneReached then 1 else 0) + (if q.zoneReached then 1 else 0)
            && s.attemptsToTop == (if p.topReached then p.attempts else 0) + (if q.topReached then q.attempts else 0)
            && s.attemptsToZone == (if p.zoneReached then OrZero(p.zoneAttempts) else 0)
                                   + (if q.zoneReached then OrZero(q.zoneAttempts) else 0)
  {
    TotalPush(registration, [], p);
    assert [] + [p] == [p] && [p] + [q] == [p, q];
    TotalPush(registration, [p], q);
  }

  lemma TotalsOfThree()
    ensures CmpTotals(ANN, BO) == 0 && CmpTotals(ANN, CY) == 0 && CmpTotals(BO, CY) == 0
    ensures CmpTotals(CY, ANN) == 0 && CmpTotals(BO, ANN) == 0 && CmpTotals(CY, BO) == 0
  {
    var t, u, v := Topped("p1", Some(2)), Topped("p2", None), Topped("p1", Some(3));
    TotalOfTwo("ann", t, Topped("p2", Some(2)));
    TotalOfTwo("bo", v, u);
    TotalOfTwo("cy", t, u);
    TotalPush("bo", [v, u], Zoned("p3", 1));
    TotalPush("cy", [t, u], Zoned("p3", 2));
    assert [v, u] + [Zoned("p3", 1)] == [v, u, Zoned("p3", 1)];
    assert [t, u] + [Zoned("p3", 2)] == [t, u, Zoned("p3", 2)];
  }

  lemma {:induction false} CountBackAfterTwo(a: seq<ProblemScore>, b: seq<ProblemScore>)
    requires |a| >= 2 && |b| >= 2 && CmpGoodness(a[0], b[0]) == 0 && CmpGoodness(a[1], b[1]) == 0
    ensures CountBack(a, b) == CountBack(a[2..], b[2..])
  {
  }

  lemma {:induction false} ChainOfTwo(p: ProblemScore, q: ProblemScore)
    requires CmpGoodness(q, p) >= 0
    ensures SortedByGoodness([p, q]) == [p, q]
  {
    SortOfChain(CmpGoodness, [p, q]);
  }

  lemma {:induction false} ChainOfThree(p: ProblemScore, q: ProblemScore, r: ProblemScore)
    requires CmpGoodness(q, p) >= 0 && CmpGoodness(r, q) >= 0
    ensures SortedByGoodness([p, q, r]) == [p, q, r]
  {
    SortOfChain(CmpGoodness, [p, q, r]);
  }

  lemma BestFirst()
    ensures SortedByGoodness(ANN.perProblem) == ANN.perProblem
    ensures SortedByGoodness(BO.perProblem) == BO.perProblem
    ensures SortedByGoodness(CY.perProblem) == CY.perProblem
  {
    ChainOfTwo(Topped("p1", Some(2)), Topped("p2", Some(2)));
    ChainOfThree(Topped("p1", Some(3)), Topped("p2", None), Zoned("p3", 1));
    ChainOfThree(Topped("p1", Some(2)), Topped("p2", None), Zoned("p3", 2));
  }

  lemma {:induction false} TiedWithAnn(s: ClimberScore)
    requires s == BO || s == CY
    ensures CmpTopZone(ANN, s) == 0 && CmpTopZone(s, ANN) == 0
  {
    TotalsOfThree();
    BestFirst();
    CountBackAfterTwo(ANN.perProblem, s.perProblem);
    CountBackAfterTwo(s.perProblem, ANN.perProblem);
  }

  lemma BoBeatsCy()
    ensures CmpTopZone(BO, CY) < 0 < CmpTopZone(CY, BO)
  {
    TotalsOfThree();
    BestFirst();
    CountBackAfterTwo(BO.perProblem, CY.perProblem);
    CountBackAfterTwo(CY.perProblem, BO.perProblem);
    assert BO.perProblem[2..] == [Zoned("p3", 1)] && CY.perProblem[2..] == [Zoned("p3", 2)];
  }

  lemma GoesRoundInCircles()
    ensures !Consistent(CmpTopZone, [ANN, BO, CY])
  {
    TiedWithAnn(BO);
    TiedWithAnn(CY);
    BoBeatsCy();
    var all := [ANN, BO, CY];
    assert all[0] in all && all[1] in all && all[2] in all;
    assert CmpTopZone(CY, ANN) <= 0 && CmpTopZone(ANN, BO) <= 0;
  }

  /** Bo beats cy and both tie with ann, so the standings depend on the order in which the climbers come:
      in the order cy, ann, bo they share first place, in the order bo, cy, ann only bo is first. */
  lemma CircleOfThree()
    ensures !CutsAreHarmless([ANN, BO, CY])
    ensures StableSort(CmpTopZone, [CY, ANN, BO]) == [CY, ANN, BO]
    ensures StandardRanks(CmpTopZone, [CY, ANN, BO]) == [1, 1, 1]
    ensures StableSort(CmpTopZone, [BO, CY, ANN]) == [BO, CY, ANN]
    ensures StandardRanks(CmpTopZone, [BO, CY, ANN]) == [1, 2, 2]
  {
    GoesRoundInCircles();
    TopZoneConsistentIff([ANN, BO, CY]);
    TiedWithAnn(BO);
    TiedWithAnn(CY);
    BoBeatsCy();
    ThreeInOrder(CY, ANN, BO);
    ThreeInOrder(BO, CY, ANN);
  }

  lemma {:induction false} ThreeInOrder(x: ClimberScore, y: ClimberScore, z: ClimberScore)
    requires CmpTopZone(y, x) >= 0 && CmpTopZone(z, y) >= 0
    ensures StableSort(CmpTopZone, [x, y, z]) == [x, y, z]
    ensures var second := if CmpTopZone(y, x) == 0 then 1 else 2;
            StandardRanks(CmpTopZone, [x, y, z]) == [1, second, if CmpTopZone(z, y) == 0 then second else 3]
  {
    var s := [x, y, z];
    SortOfChain(CmpTopZone, s);
    RankAt(CmpTopZone, s, 0);
    RankAt(CmpTopZone, s, 1);
    RankAt(CmpTopZone, s, 2);
  }
}
