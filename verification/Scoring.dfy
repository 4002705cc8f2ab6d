/** Scoring one climber (internal/service/competition): the lines of a scorecard, their totals, and what a
    top is worth. Points are float64 numbers, added in the order of the attempt rows. */
module Scoring {
  import opened Wrappers
  import opened Seqs
  import opened Floats

  datatype Attempt = Attempt(
    registration: string,
    problem: string,
    attempts: int,
    zoneAttempts: Option<int>,
    zoneReached: bool,
    topReached: bool)

  datatype Problem = Problem(id: string, points: Option<Float>, sortOrder: int)

  datatype ProblemScore = ProblemScore(
    problem: string,
    attempts: int,
    zoneAttempts: Option<int>,
    points: Float,
    topReached: bool,
    zoneReached: bool,
    sortOrder: int)

  datatype ClimberScore = ClimberScore(
    registration: string,
    points: Float,
    tops: int,
    zones: int,
    attemptsToTop: int,
    attemptsToZone: int,
    perProblem: seq<ProblemScore>)

  /** The three scorers with their settings. */
  datatype Scorer =
    | TopZone
    | Fixed(flashBonus: Float)
    | Decay(base: Float, rate: Float, flashBonus: Float)

  /** 0.1 as a float64. */
  const RATE := 3602879701896397.0 / 36028797018963968.0

  /** The decay scorer without settings. */
  const DEFAULT_DECAY := Decay(Fin(1000.0), Fin(RATE), ZERO)

  // ---- What a top is worth ----

  function OrElse(points: Option<Float>): Float {
    if points.Some? then points.value else ZERO
  }

  /** The tries after the first; a top without a try counts as one. */
  function Tries(attempts: int): int {
    if attempts < 1 then 0 else attempts - 1
  }

  function Divisor(rate: Float, attempts: int): Float {
    Add(Fin(1.0), Mul(rate, Round(Tries(attempts) as real)))
  }

  function DecayPoints(base: Float, rate: Float, attempts: int): Float {
    Div(base, Divisor(rate, attempts))
  }

  function WithBonus(points: Float, flashBonus: Float, attempts: int): Float {
    if attempts == 1 then Add(points, flashBonus) else points
  }

  function Worth(scorer: Scorer, p: Problem, a: Attempt): Float {
    if !a.topReached then ZERO
    else match scorer
      case TopZone => ZERO
      case Fixed(flashBonus) => WithBonus(OrElse(p.points), flashBonus, a.attempts)
      case Decay(base, rate, flashBonus) => WithBonus(DecayPoints(base, rate, a.attempts), flashBonus, a.attempts)
  }

  // ---- Scoring one climber ----

  function IndexProblems(problems: seq<Problem>): map<string, Problem> {
    if |problems| == 0 then map[]
    else IndexProblems(problems[..|problems| - 1])[problems[|problems| - 1].id := problems[|problems| - 1]]
  }

  method BuildIndex(problems: seq<Problem>) returns (index: map<string, Problem>)
    ensures index == IndexProblems(problems)
  {
    index := map[];
    for i := 0 to |problems|
      invariant index == IndexProblems(problems[..i])
    {
      assert problems[..i + 1][..i] == problems[..i];
      index := index[problems[i].id := problems[i]];
    }
    assert problems[..|problems|] == problems;
  }

  function Line(scorer: Scorer, p: Problem, a: Attempt): ProblemScore {
    ProblemScore(a.problem, a.attempts, a.zoneAttempts, Worth(scorer, p, a), a.topReached, a.zoneReached, p.sortOrder)
  }

  /** One line per attempt on a problem that still exists. */
  function Lines(scorer: Scorer, index: map<string, Problem>, attempts: seq<Attempt>): seq<ProblemScore> {
    if |attempts| == 0 then []
    else
      var a := attempts[|attempts| - 1];
      Lines(scorer, index, attempts[..|attempts| - 1])
        + (if a.problem in index then [Line(scorer, index[a.problem], a)] else [])
  }

  function OrZero(n: Option<int>): int {
    if n.Some? then n.value else 0
  }

  function AddLine(s: ClimberScore, p: ProblemScore): ClimberScore {
    ClimberScore(s.registration,
      if p.topReached then Add(s.points, p.points) else s.points,
      s.tops + (if p.topReached then 1 else 0),
      s.zones + (if p.zoneReached then 1 else 0),
      s.attemptsToTop + (if p.topReached then p.attempts else 0),
      s.attemptsToZone + (if p.zoneReached then OrZero(p.zoneAttempts) else 0),
      s.perProblem + [p])
  }

  /** The totals of a scorecard. */
  function Total(registration: string, lines: seq<ProblemScore>): (s: ClimberScore)
    ensures s.registration == registration && s.perProblem == lines
  {
    if |lines| == 0 then ClimberScore(registration, ZERO, 0, 0, 0, 0, [])
    else
      assert lines == lines[..|lines| - 1] + [lines[|lines| - 1]];
      AddLine(Total(registration, lines[..|lines| - 1]), lines[|lines| - 1])
  }

  function ScoreOf(scorer: Scorer, registration: string, attempts: seq<Attempt>, problems: seq<Problem>): ClimberScore {
    Total(registration, Lines(scorer, IndexProblems(problems), attempts))
  }

  lemma {:induction false} TotalPush(registration: string, lines: seq<ProblemScore>, p: ProblemScore)
    ensures Total(registration, lines + [p]) == AddLine(Total(registration, lines), p)
  {
  }

  lemma {:induction false} LinesPush(scorer: Scorer, index: map<string, Problem>, attempts: seq<Attempt>, i: nat)
    requires i < |attempts|
    ensures var a := attempts[i];
            Lines(scorer, index, attempts[..i + 1]) ==
              if a.problem in index then Lines(scorer, index, attempts[..i]) + [Line(scorer, index[a.problem], a)]
              else Lines(scorer, index, attempts[..i])
  {
    assert attempts[..i + 1][..i] == attempts[..i];
  }

  /** The running totals of one line. */
  method Count(score: ClimberScore, a: Attempt, line: ProblemScore) returns (r: ClimberScore)
    requires line.attempts == a.attempts && line.zoneAttempts == a.zoneAttempts
    requires line.topReached == a.topReached && line.zoneReached == a.zoneReached
    ensures r == AddLine(score, line)
  {
    r := score;
    if a.topReached {
      r := r.(points := Add(r.points, line.points), tops := r.tops + 1, attemptsToTop := r.attemptsToTop + a.attempts);
    }
    if a.zoneReached {
      r := r.(zones := r.zones + 1);
      if a.zoneAttempts.Some? {
        r := r.(attemptsToZone := r.attemptsToZone + a.zoneAttempts.value);
      }
    }
    r := r.(perProblem := r.perProblem + [line]);
  }

  /** Rows of deleted problems are skipped; the totals add up over the remaining lines. */
  method Score(scorer: Scorer, registration: string, attempts: seq<Attempt>, problems: seq<Problem>)
    returns (score: ClimberScore)
    ensures score == ScoreOf(scorer, registration, attempts, problems)
  {
    var index := BuildIndex(problems);
    score := ClimberScore(registration, ZERO, 0, 0, 0, 0, []);
    for i := 0 to |attempts|
      invariant score == Total(registration, Lines(scorer, index, attempts[..i]))
    {
      var a := attempts[i];
      LinesPush(scorer, index, attempts, i);
      if a.problem !in index {
        continue;
      }
      var line := Line(scorer, index[a.problem], a);
      TotalPush(registration, score.perProblem, line);
      score := Count(score, a, line);
    }
    assert attempts[..|attempts|] == attempts;
  }

  // ---- The order of the lines ----

  /** Equal in everything but the points and the order of the lines. */
  ghost predicate SameCounts(x: ClimberScore, y: ClimberScore) {
    && x.registration == y.registration && x.tops == y.tops && x.zones == y.zones
    && x.attemptsToTop == y.attemptsToTop && x.attemptsToZone == y.attemptsToZone
  }

  lemma {:induction false} AddSame(x: ClimberScore, y: ClimberScore, p: ProblemScore)
    requires SameCounts(x, y)
    ensures SameCounts(AddLine(x, p), AddLine(y, p))
  {
  }

  lemma {:induction false} AddsCommute(s: ClimberScore, p: ProblemScore, q: ProblemScore)
    ensures SameCounts(AddLine(AddLine(s, p), q), AddLine(AddLine(s, q), p))
  {
  }

  /** A line may move to the end. */
  lemma {:induction false} CountsMoved(r: string, lines: seq<ProblemScore>, k: nat)
    requires k < |lines|
    ensures SameCounts(Total(r, lines), AddLine(Total(r, Without(lines, k)), lines[k]))
  {
    var n := |lines| - 1;
    var front, q := lines[..n], lines[n];
    assert lines == front + [q];
    if k == n {
      assert Without(lines, k) == front;
    } else {
      CountsMoved(r, front, k);
      assert Without(lines, k) == Without(front, k) + [q];
      TotalPush(r, Without(front, k), q);
      AddSame(Total(r, front), AddLine(Total(r, Without(front, k)), lines[k]), q);
      AddsCommute(Total(r, Without(front, k)), lines[k], q);
    }
  }

  lemma {:induction false} CountsOfPermutation(r: string, a: seq<ProblemScore>, b: seq<ProblemScore>)
    requires multiset(a) == multiset(b)
    ensures SameCounts(Total(r, a), Total(r, b))
  {
    if |a| > 0 {
      var n := |a| - 1;
      var k := LastFound(a, b);
      CountsOfPermutation(r, a[..n], Without(b, k));
      CountsMoved(r, b, k);
      AddSame(Total(r, a[..n]), Total(r, Without(b, k)), a[n]);
    } else {
      SameElements(a, b);
    }
  }

  /** What a line adds to the points, as an exact number. */
  function Earned(p: ProblemScore): real {
    if p.topReached && p.points.Fin? then p.points.value else 0.0
  }

  function SizeAt(j: nat): ProblemScore -> real {
    (p: ProblemScore) => Size(Earned(p), j)
  }

  /** Every top is worth a multiple of 2^-j, and all of them together stay below 2^53 such units: whole
      points with j = 0, quarter points with j = 2. */
  ghost predicate FewDigits(lines: seq<ProblemScore>, j: nat) {
    && (forall i :: 0 <= i < |lines| && lines[i].topReached ==> lines[i].points.Fin? && OnGrid(lines[i].points.value, j))
    && j <= 1074 && SumOf(SizeAt(j), lines) < DIGITS as real
  }

  lemma {:induction false} GridAdds(x: real, y: real, j: nat)
    requires OnGrid(x, j) && OnGrid(y, j)
    ensures OnGrid(x + y, j) && Size(x + y, j) <= Size(x, j) + Size(y, j)
  {
    LiftAdds(x, y, j);
    assert Lift(x, j) + Lift(y, j) == (Lift(x, j).Floor + Lift(y, j).Floor) as real;
  }

  lemma {:induction false} ZeroOnGrid(j: nat)
    requires j <= 1074
    ensures OnGrid(0.0, j) && Size(0.0, j) == 0.0
  {
    if j > 0 {
      ZeroOnGrid(j - 1);
      assert 2.0 * 0.0 == 0.0;
    }
  }

  /** Points with few digits are added without rounding. */
  lemma {:induction false} FewDigitsAddUp(r: string, lines: seq<ProblemScore>, j: nat)
    requires FewDigits(lines, j)
    ensures var sum := SumOf(Earned, lines);
            Total(r, lines).points == Fin(sum) && OnGrid(sum, j) && Size(sum, j) <= SumOf(SizeAt(j), lines)
  {
    ZeroOnGrid(j);
    if |lines| > 0 {
      var n := |lines| - 1;
      var front, p := lines[..n], lines[n];
      assert SumOf(SizeAt(j), lines) == SumOf(SizeAt(j), front) + Size(Earned(p), j);
      FewDigitsAddUp(r, front, j);
      if p.topReached {
        var sum := SumOf(Earned, front);
        GridAdds(sum, Earned(p), j);
        GridExact(sum + Earned(p), j);
        assert Add(Fin(sum), Fin(Earned(p))) == Fin(sum + Earned(p));
      } else {
        assert Earned(p) == 0.0;
      }
    }
  }

  /** With few digits, the total does not depend on the order of the rows. */
  lemma {:induction false} FewDigitsAnyOrder(r: string, a: seq<ProblemScore>, b: seq<ProblemScore>, j: nat)
    requires FewDigits(a, j) && multiset(a) == multiset(b)
    ensures Total(r, a).points == Total(r, b).points
  {
    SumOfPermutation(SizeAt(j), a, b);
    SumOfPermutation(Earned, a, b);
    SameElements(b, a);
    FewDigitsAddUp(r, a, j);
    forall i | 0 <= i < |b| && b[i].topReached ensures b[i].points.Fin? && OnGrid(b[i].points.value, j) {
      assert b[i] in a;
    }
    FewDigitsAddUp(r, b, j);
  }

  // ---- Points that are no number ----

  predicate NonNegative(f: Float) {
    f.PosInf? || (f.Fin? && f.value >= 0.0)
  }

  lemma {:induction false} AddNonNegative(a: Float, b: Float)
    requires NonNegative(a) && NonNegative(b)
    ensures NonNegative(Add(a, b)) && AtMost(a, a)
  {
    if a.Fin? && b.Fin? {
      RoundMonotone(a.value + b.value, a.value + b.value);
    }
  }

  /** Settings under which every top is worth something non-negative: whole competitions can be checked
      for this before they open. */
  predicate Sane(scorer: Scorer, problems: seq<Problem>) {
    match scorer
    case TopZone => true
    case Fixed(flashBonus) =>
      NonNegative(flashBonus) && forall i :: 0 <= i < |problems| ==> NonNegative(OrElse(problems[i].points))
    case Decay(base, rate, flashBonus) =>
      base.Fin? && NonNegative(base) && rate.Fin? && NonNegative(rate) && NonNegative(flashBonus)
  }

  /** The number of tries comes from a 32-bit column. */
  const MAX_INT4 := 0x7fff_ffff

  lemma {:induction false} SmallIntegerExact(n: int)
    requires 0 <= n <= MAX_INT4
    ensures Round(n as real) == Fin(n as real)
  {
    assert Lift(n as real, 0) == n as real;
    GridExact(n as real, 0);
  }

  /** Only a top is worth anything, and by tops and zones not even that. With fixed points a top is worth the
      problem's points, nothing if it has none, and for a flash the rounded sum with the bonus. */
  lemma {:induction false} TopIsWorthItsPoints(scorer: Scorer, p: Problem, a: Attempt)
    ensures !a.topReached || scorer.TopZone? ==> Worth(scorer, p, a) == Fin(0.0)
    ensures a.topReached && scorer.Fixed? && a.attempts != 1 ==>
              Worth(scorer, p, a) == if p.points.Some? then p.points.value else Fin(0.0)
    ensures a.topReached && scorer.Fixed? && a.attempts == 1 && scorer.flashBonus.Fin? && (p.points.Some? ==> p.points.value.Fin?) ==>
              Worth(scorer, p, a) == Round((if p.points.Some? then p.points.value.value else 0.0) + scorer.flashBonus.value)
  {
  }

  /** Points and bonus with few digits add up exactly in a flash. */
  lemma {:induction false} FlashIsExact(p: Problem, a: Attempt, points: real, bonus: real, j: nat)
    requires p.points == Some(Fin(points)) && a.topReached && a.attempts == 1
    requires OnGrid(points, j) && OnGrid(bonus, j) && Size(points, j) + Size(bonus, j) < DIGITS as real
    ensures Worth(Fixed(Fin(bonus)), p, a) == Fin(points + bonus)
  {
    GridAdds(points, bonus, j);
    GridExact(points + bonus, j);
  }

  predicate Exact(x: real) {
    Round(x) == Fin(x)
  }

  /** Where nothing needs rounding, a top in n tries is worth base / (1 + rate * (n - 1)), and a flash the base
      with the bonus. */
  lemma {:induction false} DecayIsTheFormula(base: real, rate: real, bonus: real, p: Problem, a: Attempt, decayed: real)
    requires a.topReached && 1 <= a.attempts <= MAX_INT4
    requires Exact(rate * (a.attempts - 1) as real) && Exact(1.0 + rate * (a.attempts - 1) as real) && Exact(decayed)
    requires 1.0 + rate * (a.attempts - 1) as real != 0.0 && decayed == base / (1.0 + rate * (a.attempts - 1) as real)
    requires a.attempts == 1 ==> Exact(base + bonus)
    ensures Worth(Decay(Fin(base), Fin(rate), Fin(bonus)), p, a) == Fin(if a.attempts == 1 then base + bonus else decayed)
  {
    SmallIntegerExact(a.attempts - 1);
    var x := Times(rate, (a.attempts - 1) as real);
    assert Divisor(Fin(rate), a.attempts) == Fin(1.0 + x);
    assert Over(base, 1.0 + x) == decayed;
    if a.attempts == 1 {
      assert x == 0.0;
    }
  }

  lemma {:induction false} ProductGrows(r: real, m: int, n: int)
    requires r >= 0.0 && 0 <= m <= n
    ensures 0.0 <= Times(r, m as real) <= Times(r, n as real)
  {
  }

  lemma {:induction false} MulIs(rate: Float, n: int)
    requires rate.Fin? && 0 <= n <= MAX_INT4
    ensures Mul(rate, Round(n as real)) == Round(Times(rate.value, n as real))
  {
    SmallIntegerExact(n);
  }

  lemma {:induction false} RoundNonNegative(x: real, y: real)
    requires 0.0 <= x <= y
    ensures NonNegative(Round(x)) && NonNegative(Round(y)) && AtMost(Round(x), Round(y))
  {
    RoundMonotone(x, y);
    RoundMonotone(y, y);
  }

  lemma {:induction false} MulGrows(rate: Float, m: int, n: int)
    requires rate.Fin? && rate.value >= 0.0 && 0 <= m <= n <= MAX_INT4
    ensures var p, q := Mul(rate, Round(m as real)), Mul(rate, Round(n as real));
            NonNegative(p) && NonNegative(q) && AtMost(p, q)
  {
    MulIs(rate, m);
    MulIs(rate, n);
    ProductGrows(rate.value, m, n);
    RoundNonNegative(Times(rate.value, m as real), Times(rate.value, n as real));
  }

  lemma {:induction false} OnePlusGrows(x: Float, y: Float)
    requires NonNegative(x) && NonNegative(y) && AtMost(x, y)
    ensures AtMost(Add(Fin(1.0), x), Add(Fin(1.0), y)) && AtMost(Fin(1.0), Add(Fin(1.0), x))
  {
    SmallIntegerExact(1);
    if x.Fin? {
      RoundMonotone(1.0, 1.0 + x.value);
      if y.Fin? {
        RoundMonotone(1.0 + x.value, 1.0 + y.value);
      }
    }
  }

  /** The divisor is at least one, grows with the tries, and is one for the first. */
  lemma {:induction false} DivisorGrows(rate: Float, a: int, b: int)
    requires rate.Fin? && rate.value >= 0.0 && a <= b <= MAX_INT4
    ensures AtMost(Divisor(rate, a), Divisor(rate, b)) && AtMost(Fin(1.0), Divisor(rate, a))
  {
    MulGrows(rate, Tries(a), Tries(b));
    OnePlusGrows(Mul(rate, Round(Tries(a) as real)), Mul(rate, Round(Tries(b) as real)));
  }

  lemma {:induction false} FirstDivisor(rate: Float, attempts: int)
    requires rate.Fin? && attempts <= 1
    ensures Divisor(rate, attempts) == Fin(1.0)
  {
    SmallIntegerExact(0);
    SmallIntegerExact(1);
    assert Times(rate.value, 0.0) == 0.0;
  }

  lemma {:induction false} QuotientFalls(base: real, x: real, y: real)
    requires base >= 0.0 && 0.0 < x <= y
    ensures 0.0 <= Over(base, y) <= Over(base, x)
  {
  }

  lemma {:induction false} DivFalls(base: Float, x: Float, y: Float)
    requires base.Fin? && base.value >= 0.0 && AtMost(x, y)
    requires AtMost(Fin(1.0), x)
    ensures AtMost(Div(base, y), Div(base, x)) && NonNegative(Div(base, x)) && NonNegative(Div(base, y))
  {
    if x.Fin? {
      QuotientFalls(base.value, x.value, x.value);
      RoundMonotone(Over(base.value, x.value), Over(base.value, x.value));
      if y.Fin? {
        QuotientFalls(base.value, x.value, y.value);
        RoundMonotone(Over(base.value, y.value), Over(base.value, x.value));
      }
    }
  }

  lemma {:induction false} BonusNeverCosts(base: Float, flashBonus: Float)
    requires base.Fin? && base.value >= 0.0 && NonNegative(flashBonus)
    ensures var p := Div(base, Fin(1.0)); AtMost(p, Add(p, flashBonus))
  {
    var p := Div(base, Fin(1.0));
    RoundMonotone(Over(base.value, 1.0), Over(base.value, 1.0));
    if p.Fin? && flashBonus.Fin? {
      RoundIdempotent(Over(base.value, 1.0));
      RoundMonotone(p.value, p.value + flashBonus.value);
    }
  }

  /** With non-negative settings, a send in fewer tries never decays more; with the flash bonus it never
      earns less, as long as a top took at least one try. */
  lemma {:induction false} DecayFalls(base: Float, rate: Float, flashBonus: Float, a: int, b: int)
    requires Sane(Decay(base, rate, flashBonus), []) && a <= b <= MAX_INT4
    ensures AtMost(DecayPoints(base, rate, b), DecayPoints(base, rate, a))
    ensures a >= 1 ==>
      AtMost(WithBonus(DecayPoints(base, rate, b), flashBonus, b), WithBonus(DecayPoints(base, rate, a), flashBonus, a))
  {
    DivisorGrows(rate, a, b);
    DivFalls(base, Divisor(rate, a), Divisor(rate, b));
    if a == 1 {
      FirstDivisor(rate, a);
      BonusNeverCosts(base, flashBonus);
    }
  }

  /** Settings outside that range can make a total that is no number: base 0, rate -1, two tries. */
  lemma NegativeRateGivesNaN()
    ensures DecayPoints(ZERO, Fin(-1.0), 2) == NaN
  {
    SmallIntegerExact(1);
    SmallIntegerExact(0);
    RoundIsOdd(1.0);
    assert Mul(Fin(-1.0), Round(1.0)) == Round(-1.0);
    assert Add(Fin(1.0), Fin(-1.0)) == Round(0.0);
  }

  lemma {:induction false} WorthNonNegative(scorer: Scorer, problems: seq<Problem>, p: Problem, a: Attempt)
    requires Sane(scorer, problems) && p in problems && a.attempts <= MAX_INT4
    ensures NonNegative(Worth(scorer, p, a))
  {
    match scorer
    case TopZone =>
    case Fixed(flashBonus) =>
      if a.attempts == 1 {
        AddNonNegative(OrElse(p.points), flashBonus);
      }
    case Decay(base, rate, flashBonus) =>
      DivisorGrows(rate, a.attempts, a.attempts);
      DivFalls(base, Divisor(rate, a.attempts), Divisor(rate, a.attempts));
      if a.attempts == 1 {
        AddNonNegative(DecayPoints(base, rate, 1), flashBonus);
      }
  }

  predicate AllNonNegative(lines: seq<ProblemScore>) {
    forall i :: 0 <= i < |lines| ==> NonNegative(lines[i].points)
  }

  lemma {:induction false} TotalNonNegative(r: string, lines: seq<ProblemScore>)
    requires AllNonNegative(lines)
    ensures NonNegative(Total(r, lines).points)
  {
    if |lines| > 0 {
      TotalNonNegative(r, lines[..|lines| - 1]);
      AddNonNegative(Total(r, lines[..|lines| - 1]).points, lines[|lines| - 1].points);
    }
  }

  lemma {:induction false} IndexedAreListed(problems: seq<Problem>, id: string)
    requires id in IndexProblems(problems)
    ensures IndexProblems(problems)[id] in problems
  {
    var n := |problems| - 1;
    if problems[n].id != id {
      IndexedAreListed(problems[..n], id);
    }
  }

  lemma {:induction false} LineNonNegative(scorer: Scorer, problems: seq<Problem>, a: Attempt)
    requires Sane(scorer, problems) && a.attempts <= MAX_INT4 && a.problem in IndexProblems(problems)
    ensures NonNegative(Line(scorer, IndexProblems(problems)[a.problem], a).points)
  {
    IndexedAreListed(problems, a.problem);
    WorthNonNegative(scorer, problems, IndexProblems(problems)[a.problem], a);
  }

  lemma {:induction false} LinesNonNegative(scorer: Scorer, problems: seq<Problem>, attempts: seq<Attempt>)
    requires Sane(scorer, problems) && forall i :: 0 <= i < |attempts| ==> attempts[i].attempts <= MAX_INT4
    ensures AllNonNegative(Lines(scorer, IndexProblems(problems), attempts))
  {
    if |attempts| > 0 {
      var a := attempts[|attempts| - 1];
      LinesNonNegative(scorer, problems, attempts[..|attempts| - 1]);
      if a.problem in IndexProblems(problems) {
        LineNonNegative(scorer, problems, a);
      }
    }
  }

  /** With sane settings no total is NaN. */
  lemma {:induction false} ScoreIsNumber(scorer: Scorer, registration: string, attempts: seq<Attempt>, problems: seq<Problem>)
    requires Sane(scorer, problems) && forall i :: 0 <= i < |attempts| ==> attempts[i].attempts <= MAX_INT4
    ensures NonNegative(ScoreOf(scorer, registration, attempts, problems).points)
  {
    LinesNonNegative(scorer, problems, attempts);
    TotalNonNegative(registration, Lines(scorer, IndexProblems(problems), attempts));
  }

  // ---- An order that matters ----

  /** What a top is worth in four and in eight tries with the default settings. */
  const FOUR_TRIES := 6766225401698461.0 / 8796093022208.0

  const EIGHT_TRIES := 5174172366004705.0 / 8796093022208.0

  lemma DivisorOfFour()
    ensures Divisor(Fin(RATE), 4) == Fin(5854679515581645.0 / 4503599627370496.0)
  {
    PowersOfTwo();
    SmallIntegerExact(3);
    RoundsTo(RATE * 3.0, 54, 18014398509481984.0, 5404319552844596, 5404319552844596.0 / 18014398509481984.0);
    RoundsTo(1.0 + 5404319552844596.0 / 18014398509481984.0, 52, 4503599627370496.0, 5854679515581645, 5854679515581645.0 / 4503599627370496.0);
  }

  lemma FourTries()
    ensures DecayPoints(Fin(1000.0), Fin(RATE), 4) == Fin(FOUR_TRIES)
  {
    PowersOfTwo();
    DivisorOfFour();
    RoundsTo(1000.0 / (5854679515581645.0 / 4503599627370496.0), 43, 8796093022208.0, 6766225401698461, FOUR_TRIES);
  }

  lemma DivisorOfEight()
    ensures Divisor(Fin(RATE), 8) == Fin(7656119366529844.0 / 4503599627370496.0)
  {
    PowersOfTwo();
    SmallIntegerExact(7);
    RoundsTo(RATE * 7.0, 53, 9007199254740992.0, 6305039478318695, 6305039478318695.0 / 9007199254740992.0);
    RoundsTo(1.0 + 6305039478318695.0 / 9007199254740992.0, 52, 4503599627370496.0, 7656119366529844, 7656119366529844.0 / 4503599627370496.0);
  }

  lemma EightTries()
    ensures DecayPoints(Fin(1000.0), Fin(RATE), 8) == Fin(EIGHT_TRIES)
  {
    PowersOfTwo();
    DivisorOfEight();
    RoundsTo(1000.0 / (7656119366529844.0 / 4503599627370496.0), 43, 8796093022208.0, 5174172366004705, EIGHT_TRIES);
  }

  lemma {:induction false} DivByOne(x: real)
    ensures Div(Fin(x), Fin(1.0)) == Round(x)
  {
    assert Over(x, 1.0) == x;
  }

  lemma {:induction false} FirstTry(n: int)
    requires 0 <= n <= MAX_INT4
    ensures DecayPoints(Fin(n as real), Fin(RATE), 1) == Fin(n as real)
  {
    FirstDivisor(Fin(RATE), 1);
    DivByOne(n as real);
    SmallIntegerExact(n);
  }

  lemma {:induction false} AddZero(n: int)
    requires 0 <= n <= MAX_INT4
    ensures Add(Fin(n as real), ZERO) == Fin(n as real) && Add(ZERO, Fin(n as real)) == Fin(n as real)
  {
    SmallIntegerExact(n);
  }

  function DefaultPoints(tries: int): Float {
    if tries == 1 then Fin(1000.0) else if tries == 4 then Fin(FOUR_TRIES) else Fin(EIGHT_TRIES)
  }

  lemma {:induction false} DefaultWorth(p: Problem, a: Attempt)
    requires a.topReached && (a.attempts == 1 || a.attempts == 4 || a.attempts == 8)
    ensures Worth(DEFAULT_DECAY, p, a) == DefaultPoints(a.attempts)
  {
    if a.attempts == 1 {
      FirstTry(1000);
      AddZero(1000);
    } else if a.attempts == 4 {
      FourTries();
    } else {
      EightTries();
    }
  }

  const FLASH_FIRST := 5184122697477791.0 / 2199023255552.0

  const FLASH_LAST := 5184122697477792.0 / 2199023255552.0

  lemma SumFlashFirst()
    ensures Add(Add(Add(ZERO, Fin(1000.0)), Fin(FOUR_TRIES)), Fin(EIGHT_TRIES)) == Fin(FLASH_FIRST)
  {
    PowersOfTwo();
    SmallIntegerExact(1000);
    RoundsTo(1000.0 + FOUR_TRIES, 42, 4398046511104.0, 7781159211953230, 7781159211953230.0 / 4398046511104.0);
    RoundsTo(7781159211953230.0 / 4398046511104.0 + EIGHT_TRIES, 41, 2199023255552.0, 5184122697477791, FLASH_FIRST);
  }

  lemma SumFlashLast()
    ensures Add(Add(Add(ZERO, Fin(FOUR_TRIES)), Fin(EIGHT_TRIES)), Fin(1000.0)) == Fin(FLASH_LAST)
  {
    PowersOfTwo();
    RoundsTo(FOUR_TRIES, 43, 8796093022208.0, 6766225401698461, FOUR_TRIES);
    RoundsTo(FOUR_TRIES + EIGHT_TRIES, 42, 4398046511104.0, 5970198883851583, 5970198883851583.0 / 4398046511104.0);
    RoundsTo(5970198883851583.0 / 4398046511104.0 + 1000.0, 41, 2199023255552.0, 5184122697477792, FLASH_LAST);
  }

  lemma {:induction false} TotalOfThree(registration: string, p: ProblemScore, q: ProblemScore, r: ProblemScore)
    requires p.topReached && q.topReached && r.topReached
    ensures Total(registration, [p, q, r]).points == Add(Add(Add(ZERO, p.points), q.points), r.points)
    ensures Total(registration, [p, q, r]).attemptsToTop == p.attempts + q.attempts + r.attempts
  {
    TotalPush(registration, [], p);
    TotalPush(registration, [p], q);
    TotalPush(registration, [p, q], r);
    assert [] + [p] == [p] && [p] + [q] == [p, q] && [p, q] + [r] == [p, q, r];
  }

  lemma {:induction false} TotalFlashFirst(registration: string, lines: seq<ProblemScore>)
    requires |lines| == 3 && lines[0].topReached && lines[1].topReached && lines[2].topReached
    requires lines[0].points == Fin(1000.0) && lines[1].points == Fin(FOUR_TRIES) && lines[2].points == Fin(EIGHT_TRIES)
    ensures Total(registration, lines).points == Fin(FLASH_FIRST)
    ensures Total(registration, lines).attemptsToTop == lines[0].attempts + lines[1].attempts + lines[2].attempts
  {
    assert lines == [lines[0], lines[1], lines[2]];
    TotalOfThree(registration, lines[0], lines[1], lines[2]);
    SumFlashFirst();
  }

  lemma {:induction false} TotalFlashLast(registration: string, lines: seq<ProblemScore>)
    requires |lines| == 3 && lines[0].topReached && lines[1].topReached && lines[2].topReached
    requires lines[0].points == Fin(FOUR_TRIES) && lines[1].points == Fin(EIGHT_TRIES) && lines[2].points == Fin(1000.0)
    ensures Total(registration, lines).points == Fin(FLASH_LAST)
    ensures Total(registration, lines).attemptsToTop == lines[0].attempts + lines[1].attempts + lines[2].attempts
  {
    assert lines == [lines[0], lines[1], lines[2]];
    TotalOfThree(registration, lines[0], lines[1], lines[2]);
    SumFlashLast();
  }
}
