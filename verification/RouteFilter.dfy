/** The route search filter compiled to numbered placeholders: whereBuilder, RouteFilter.buildWhere
    and the LIMIT/OFFSET use in List (internal/repository/route.go), read under SQL's three-valued
    logic (section 9.1 of the PostgreSQL manual). */
module RouteFilter {
  import opened Wrappers
  import opened LikePattern

  datatype Row = Row(
    id: string,
    location: string,
    wall: string,
    status: string,
    routeType: string,
    grade: string,
    circuitColor: Option<string>,
    setter: Option<string>,
    dateSet: int,
    name: Option<string>,
    deletedAt: Option<int>)

  /** What the database brings to a query: reading a text as a date, the case fold of ILIKE, and the
      wall names. */
  datatype Env = Env(day: string -> int, fold: char -> char, walls: map<string, string>)

  datatype Filter = Filter(
    locationID: string,
    wallID: string,
    status: string,
    routeType: string,
    grade: string,
    gradeIn: seq<string>,
    circuitColor: string,
    setterID: string,
    dateFrom: string,
    dateTo: string,
    query: string,
    limit: int,
    offset: int)

  // ---- The compiled form ----

  datatype Column = LocationId | WallId | Status | RouteType | Grade | CircuitColor | SetterId | DateSet | DeletedAt

  datatype Arg = Text(text: string) | Number(number: int)

  /** One condition; the numbers are the placeholders $1, $2, ... it mentions. */
  datatype Cond =
    | IsNull(col: Column)
    | Eq(col: Column, n: nat)
    | Gte(col: Column, n: nat)
    | Lte(col: Column, n: nat)
    | In(col: Column, ns: seq<nat>)
    | Search(n: nat)

  datatype Where = Where(conds: seq<Cond>, args: seq<Arg>)

  function NextArg(w: Where): nat {
    |w.args| + 1
  }

  function FirstWhere(location: string): Where {
    Where([Eq(LocationId, 1), IsNull(DeletedAt)], [Text(location)])
  }

  function WithEq(w: Where, col: Column, val: string): Where {
    if val == "" then w else Where(w.conds + [Eq(col, NextArg(w))], w.args + [Text(val)])
  }

  function WithGte(w: Where, col: Column, val: string): Where {
    if val == "" then w else Where(w.conds + [Gte(col, NextArg(w))], w.args + [Text(val)])
  }

  function WithLte(w: Where, col: Column, val: string): Where {
    if val == "" then w else Where(w.conds + [Lte(col, NextArg(w))], w.args + [Text(val)])
  }

  function Texts(vals: seq<string>): (r: seq<Arg>)
    ensures |r| == |vals|
  {
    seq(|vals|, i requires 0 <= i < |vals| => Text(vals[i]))
  }

  function Numbers(first: nat, count: nat): (r: seq<nat>)
    ensures |r| == count
  {
    seq(count, i => first + i)
  }

  function WithIn(w: Where, col: Column, vals: seq<string>): Where {
    if |vals| == 0 then w
    else Where(w.conds + [In(col, Numbers(NextArg(w), |vals|))], w.args + Texts(vals))
  }

  function WithSearch(w: Where, q: string): Where {
    if q == "" then w else Where(w.conds + [Search(NextArg(w))], w.args + [Text(Escape(q))])
  }

  function Compile(f: Filter): Where {
    var w := FirstWhere(f.locationID);
    var w := WithEq(w, WallId, f.wallID);
    var w := WithEq(w, Status, f.status);
    var w := WithEq(w, RouteType, f.routeType);
    var w := WithEq(w, Grade, f.grade);
    var w := WithIn(w, Grade, f.gradeIn);
    var w := WithEq(w, CircuitColor, f.circuitColor);
    var w := WithEq(w, SetterId, f.setterID);
    var w := WithGte(w, DateSet, f.dateFrom);
    var w := WithLte(w, DateSet, f.dateTo);
    WithSearch(w, f.query)
  }

  /** The builder as the source runs it: three fields updated in place. */
  class WhereBuilder {
    var conds: seq<Cond>
    var args: seq<Arg>
    var argN: nat

    ghost predicate Valid()
      reads this
    {
      argN == |args| + 1
    }

    ghost function Model(): Where
      reads this
    {
      Where(conds, args)
    }

    constructor (firstArg: string)
      ensures Valid() && Model() == FirstWhere(firstArg)
    {
      conds := [Eq(LocationId, 1), IsNull(DeletedAt)];
      args := [Text(firstArg)];
      argN := 2;
    }

    method AddEq(col: Column, val: string)
      requires Valid()
      modifies this
      ensures Valid() && Model() == WithEq(old(Model()), col, val)
    {
      if val == "" {
        return;
      }
      conds := conds + [Eq(col, argN)];
      args := args + [Text(val)];
      argN := argN + 1;
    }

    method AddGte(col: Column, val: string)
      requires Valid()
      modifies this
      ensures Valid() && Model() == WithGte(old(Model()), col, val)
    {
      if val == "" {
        return;
      }
      conds := conds + [Gte(col, argN)];
      args := args + [Text(val)];
      argN := argN + 1;
    }

    method AddLte(col: Column, val: string)
      requires Valid()
      modifies this
      ensures Valid() && Model() == WithLte(old(Model()), col, val)
    {
      if val == "" {
        return;
      }
      conds := conds + [Lte(col, argN)];
      args := args + [Text(val)];
      argN := argN + 1;
    }

    method AddIn(col: Column, vals: seq<string>)
      requires Valid()
      modifies this
      ensures Valid() && Model() == WithIn(old(Model()), col, vals)
    {
      if |vals| == 0 {
        return;
      }
      ghost var first := argN;
      var placeholders: seq<nat> := [];
      for i := 0 to |vals|
        invariant Valid() && argN == first + i && conds == old(conds)
        invariant placeholders == Numbers(first, i)
        invariant args == old(args) + Texts(vals[..i])
      {
        placeholders := placeholders + [argN];
        args := args + [Text(vals[i])];
        argN := argN + 1;
        assert Texts(vals[..i + 1]) == Texts(vals[..i]) + [Text(vals[i])];
      }
      assert vals[..|vals|] == vals;
      conds := conds + [In(col, placeholders)];
    }

    method AddSearch(q: string)
      requires Valid()
      modifies this
      ensures Valid() && Model() == WithSearch(old(Model()), q)
    {
      if q == "" {
        return;
      }
      conds := conds + [Search(argN)];
      args := args + [Text(Escape(q))];
      argN := argN + 1;
    }
  }

  method BuildWhere(f: Filter) returns (wb: WhereBuilder)
    ensures fresh(wb) && wb.Valid() && wb.Model() == Compile(f)
  {
    wb := new WhereBuilder(f.locationID);
    wb.AddEq(WallId, f.wallID);
    wb.AddEq(Status, f.status);
    wb.AddEq(RouteType, f.routeType);
    wb.AddEq(Grade, f.grade);
    wb.AddIn(Grade, f.gradeIn);
    wb.AddEq(CircuitColor, f.circuitColor);
    wb.AddEq(SetterId, f.setterID);
    wb.AddGte(DateSet, f.dateFrom);
    wb.AddLte(DateSet, f.dateTo);
    wb.AddSearch(f.query);
  }

  // ---- What the database makes of it ----

  datatype Truth = True | False | Unknown

  function Known(b: bool): Truth {
    if b then True else False
  }

  function And(a: Truth, b: Truth): Truth {
    if a == False || b == False then False
    else if a == Unknown || b == Unknown then Unknown else True
  }

  function Or(a: Truth, b: Truth): Truth {
    if a == True || b == True then True
    else if a == Unknown || b == Unknown then Unknown else False
  }

  datatype Value = Null | Str(s: string) | Day(d: int)

  function OptStr(o: Option<string>): Value {
    if o.Some? then Str(o.value) else Null
  }

  function ColumnOf(row: Row, col: Column): Value {
    match col
    case LocationId => Str(row.location)
    case WallId => Str(row.wall)
    case Status => Str(row.status)
    case RouteType => Str(row.routeType)
    case Grade => Str(row.grade)
    case CircuitColor => OptStr(row.circuitColor)
    case SetterId => OptStr(row.setter)
    case DateSet => Day(row.dateSet)
    case DeletedAt => if row.deletedAt.Some? then Day(row.deletedAt.value) else Null
  }

  /** A placeholder takes the type of the column it is compared with. */
  function Cast(env: Env, col: Column, arg: Arg): Value {
    if arg.Number? then Day(arg.number)
    else if col == DateSet then Day(env.day(arg.text)) else Str(arg.text)
  }

  function SqlEq(a: Value, b: Value): Truth {
    if a == Null || b == Null then Unknown else Known(a == b)
  }

  function SqlGte(a: Value, b: Value): Truth {
    if a == Null || b == Null then Unknown
    else if a.Day? && b.Day? then Known(a.d >= b.d) else Unknown
  }

  function SqlILike(env: Env, v: Value, pattern: string): Truth {
    if v.Str? then Known(ILike(env.fold, v.s, pattern)) else Unknown
  }

  predicate Placed(n: nat, args: seq<Arg>) {
    1 <= n <= |args|
  }

  predicate EachPlaced(ns: seq<nat>, args: seq<Arg>) {
    forall i :: 0 <= i < |ns| ==> Placed(ns[i], args)
  }

  predicate AllPlaced(c: Cond, args: seq<Arg>) {
    match c
    case IsNull(_) => true
    case Eq(_, n) => Placed(n, args)
    case Gte(_, n) => Placed(n, args)
    case Lte(_, n) => Placed(n, args)
    case In(_, ns) => EachPlaced(ns, args)
    case Search(n) => Placed(n, args) && args[n - 1].Text?
  }

  function EvalIn(env: Env, col: Column, ns: seq<nat>, args: seq<Arg>, row: Row): Truth
    requires EachPlaced(ns, args)
  {
    if |ns| == 0 then False
    else
      assert Placed(ns[0], args);
      Or(SqlEq(ColumnOf(row, col), Cast(env, col, args[ns[0] - 1])), EvalIn(env, col, ns[1..], args, row))
  }

  /** EXISTS over walls is never Unknown. */
  function EvalSearch(env: Env, pattern: string, row: Row): Truth {
    Or(SqlILike(env, OptStr(row.name), pattern),
    Or(SqlILike(env, Str(row.grade), pattern),
    Or(SqlILike(env, OptStr(row.circuitColor), pattern),
       Known(row.wall in env.walls && SqlILike(env, Str(env.walls[row.wall]), pattern) == True))))
  }

  function Eval(env: Env, c: Cond, args: seq<Arg>, row: Row): Truth
    requires AllPlaced(c, args)
  {
    match c
    case IsNull(col) => Known(ColumnOf(row, col) == Null)
    case Eq(col, n) => SqlEq(ColumnOf(row, col), Cast(env, col, args[n - 1]))
    case Gte(col, n) => SqlGte(ColumnOf(row, col), Cast(env, col, args[n - 1]))
    case Lte(col, n) => SqlGte(Cast(env, col, args[n - 1]), ColumnOf(row, col))
    case In(col, ns) => EvalIn(env, col, ns, args, row)
    case Search(n) => EvalSearch(env, SubstringPattern(args[n - 1].text), row)
  }

  ghost predicate WellPlaced(conds: seq<Cond>, args: seq<Arg>) {
    forall i :: 0 <= i < |conds| ==> AllPlaced(conds[i], args)
  }

  function EvalAll(env: Env, conds: seq<Cond>, args: seq<Arg>, row: Row): Truth
    requires WellPlaced(conds, args)
  {
    if |conds| == 0 then True
    else
      var n := |conds| - 1;
      And(EvalAll(env, conds[..n], args, row), Eval(env, conds[n], args, row))
  }

  /** WHERE keeps a row only when the condition is True; Unknown drops it. */
  ghost predicate Selects(env: Env, conds: seq<Cond>, args: seq<Arg>, row: Row) {
    WellPlaced(conds, args) && EvalAll(env, conds, args, row) == True
  }

  // ---- The filter read directly ----

  ghost predicate Found(env: Env, text: string, q: string) {
    Contains(Fold(env.fold, text), Fold(env.fold, q))
  }

  ghost predicate FoundOpt(env: Env, text: Option<string>, q: string) {
    text.Some? && Found(env, text.value, q)
  }

  ghost predicate FoundAnywhere(env: Env, row: Row, q: string) {
    || FoundOpt(env, row.name, q)
    || Found(env, row.grade, q)
    || FoundOpt(env, row.circuitColor, q)
    || (row.wall in env.walls && Found(env, env.walls[row.wall], q))
  }

  ghost predicate Matches(env: Env, f: Filter, row: Row) {
    && row.location == f.locationID
    && row.deletedAt.None?
    && (f.wallID != "" ==> row.wall == f.wallID)
    && (f.status != "" ==> row.status == f.status)
    && (f.routeType != "" ==> row.routeType == f.routeType)
    && (f.grade != "" ==> row.grade == f.grade)
    && (f.gradeIn != [] ==> row.grade in f.gradeIn)
    && (f.circuitColor != "" ==> row.circuitColor == Some(f.circuitColor))
    && (f.setterID != "" ==> row.setter == Some(f.setterID))
    && (f.dateFrom != "" ==> row.dateSet >= env.day(f.dateFrom))
    && (f.dateTo != "" ==> row.dateSet <= env.day(f.dateTo))
    && (f.query != "" ==> FoundAnywhere(env, row, f.query))
  }

  // ---- Meaning is preserved ----

  /** Later additions never change what an earlier placeholder means. */
  lemma {:induction false} EvalInStable(env: Env, col: Column, ns: seq<nat>, args: seq<Arg>, more: seq<Arg>, row: Row)
    requires EachPlaced(ns, args)
    ensures EachPlaced(ns, args + more)
    ensures EvalIn(env, col, ns, args + more, row) == EvalIn(env, col, ns, args, row)
  {
    if |ns| > 0 {
      assert Placed(ns[0], args);
      EvalInStable(env, col, ns[1..], args, more, row);
    }
  }

  lemma {:induction false} EvalStable(env: Env, c: Cond, args: seq<Arg>, more: seq<Arg>, row: Row)
    requires AllPlaced(c, args)
    ensures AllPlaced(c, args + more) && Eval(env, c, args + more, row) == Eval(env, c, args, row)
  {
    if c.In? {
      EvalInStable(env, c.col, c.ns, args, more, row);
    }
  }

  lemma {:induction false} SelectsStable(env: Env, conds: seq<Cond>, args: seq<Arg>, more: seq<Arg>, row: Row)
    requires WellPlaced(conds, args)
    ensures WellPlaced(conds, args + more)
    ensures EvalAll(env, conds, args + more, row) == EvalAll(env, conds, args, row)
  {
    forall i | 0 <= i < |conds| ensures AllPlaced(conds[i], args + more) {
      EvalStable(env, conds[i], args, more, row);
    }
    if |conds| > 0 {
      var n := |conds| - 1;
      SelectsStable(env, conds[..n], args, more, row);
      EvalStable(env, conds[n], args, more, row);
    }
  }

  /** Adding a condition with its own arguments narrows the selection by exactly that condition. */
  lemma {:induction false} AddedCond(env: Env, w: Where, c: Cond, more: seq<Arg>, row: Row)
    requires WellPlaced(w.conds, w.args) && AllPlaced(c, w.args + more)
    ensures WellPlaced(w.conds + [c], w.args + more)
    ensures Selects(env, w.conds + [c], w.args + more, row) <==>
            Selects(env, w.conds, w.args, row) && Eval(env, c, w.args + more, row) == True
  {
    SelectsStable(env, w.conds, w.args, more, row);
    var conds := w.conds + [c];
    forall i | 0 <= i < |conds| ensures AllPlaced(conds[i], w.args + more) {
      if i < |w.conds| {
        assert AllPlaced(w.conds[i], w.args + more);
      }
    }
    assert conds[..|w.conds|] == w.conds;
  }

  /** The i-th listed argument equals the column. */
  predicate InAt(env: Env, col: Column, ns: seq<nat>, args: seq<Arg>, row: Row, i: nat)
    requires EachPlaced(ns, args) && i < |ns|
  {
    SqlEq(ColumnOf(row, col), Cast(env, col, args[ns[i] - 1])) == True
  }

  lemma {:induction false} EvalInMeaning(env: Env, col: Column, ns: seq<nat>, args: seq<Arg>, row: Row)
    requires EachPlaced(ns, args)
    ensures EvalIn(env, col, ns, args, row) == True <==>
            exists i :: 0 <= i < |ns| && InAt(env, col, ns, args, row, i)
  {
    if |ns| > 0 {
      EvalInMeaning(env, col, ns[1..], args, row);
      assert forall i :: 0 <= i < |ns[1..]| ==> ns[1..][i] == ns[i + 1];
      if i: nat :| i < |ns| && InAt(env, col, ns, args, row, i) {
        assert i > 0 ==> InAt(env, col, ns[1..], args, row, i - 1);
      }
      if i: nat :| i < |ns[1..]| && InAt(env, col, ns[1..], args, row, i) {
        assert InAt(env, col, ns, args, row, i + 1);
      }
      assert SqlEq(ColumnOf(row, col), Cast(env, col, args[ns[0] - 1])) == True <==> InAt(env, col, ns, args, row, 0);
    }
  }

  lemma {:induction false} EqMeaning(env: Env, w: Where, col: Column, val: string, row: Row)
    requires WellPlaced(w.conds, w.args) && col != DateSet
    ensures var w' := WithEq(w, col, val);
            && WellPlaced(w'.conds, w'.args)
            && (Selects(env, w'.conds, w'.args, row) <==>
                 Selects(env, w.conds, w.args, row)
                 && (val != "" ==> ColumnOf(row, col) == Str(val)))
  {
    if val != "" {
      AddedCond(env, w, Eq(col, NextArg(w)), [Text(val)], row);
    }
  }

  lemma {:induction false} InMeaning(env: Env, w: Where, row: Row, vals: seq<string>)
    requires WellPlaced(w.conds, w.args)
    ensures var w' := WithIn(w, Grade, vals);
            && WellPlaced(w'.conds, w'.args)
            && (Selects(env, w'.conds, w'.args, row) <==>
                 Selects(env, w.conds, w.args, row) && (vals != [] ==> row.grade in vals))
  {
    if vals != [] {
      var ns := Numbers(NextArg(w), |vals|);
      var args := w.args + Texts(vals);
      assert forall i :: 0 <= i < |ns| ==> ns[i] == |w.args| + 1 + i && args[ns[i] - 1] == Text(vals[i]);
      AddedCond(env, w, In(Grade, ns), Texts(vals), row);
      EvalInMeaning(env, Grade, ns, args, row);
      if row.grade in vals {
        var i :| 0 <= i < |vals| && vals[i] == row.grade;
        assert InAt(env, Grade, ns, args, row, i);
      }
    }
  }

  lemma {:induction false} DatesMeaning(env: Env, w: Where, from: string, to: string, row: Row)
    requires WellPlaced(w.conds, w.args)
    ensures var w' := WithLte(WithGte(w, DateSet, from), DateSet, to);
            && WellPlaced(w'.conds, w'.args)
            && (Selects(env, w'.conds, w'.args, row) <==>
                 Selects(env, w.conds, w.args, row)
                 && (from != "" ==> row.dateSet >= env.day(from)) && (to != "" ==> row.dateSet <= env.day(to)))
  {
    var w1 := WithGte(w, DateSet, from);
    if from != "" {
      AddedCond(env, w, Gte(DateSet, NextArg(w)), [Text(from)], row);
    }
    if to != "" {
      AddedCond(env, w1, Lte(DateSet, NextArg(w1)), [Text(to)], row);
    }
  }

  /** ILIKE over nullable columns: True exactly when the column is there and contains the query. */
  lemma {:induction false} SearchColumnMeaning(env: Env, text: Option<string>, q: string)
    requires KeepsMeta(env.fold)
    ensures SqlILike(env, OptStr(text), SubstringPattern(Escape(q))) == True <==> FoundOpt(env, text, q)
  {
    if text.Some? {
      EscapedIMatchesSubstring(env.fold, text.value, q);
    }
  }

  lemma {:induction false} SearchMeaning(env: Env, w: Where, q: string, row: Row)
    requires WellPlaced(w.conds, w.args) && KeepsMeta(env.fold)
    ensures var w' := WithSearch(w, q);
            && WellPlaced(w'.conds, w'.args)
            && (Selects(env, w'.conds, w'.args, row) <==>
                 Selects(env, w.conds, w.args, row) && (q != "" ==> FoundAnywhere(env, row, q)))
  {
    if q != "" {
      AddedCond(env, w, Search(NextArg(w)), [Text(Escape(q))], row);
      SearchColumnMeaning(env, row.name, q);
      SearchColumnMeaning(env, Some(row.grade), q);
      SearchColumnMeaning(env, row.circuitColor, q);
      if row.wall in env.walls {
        SearchColumnMeaning(env, Some(env.walls[row.wall]), q);
      }
    }
  }

  /** The first half of Compile: the conditions on NOT NULL columns. */
  function CompileTyped(f: Filter): Where {
    WithEq(WithEq(WithEq(WithEq(FirstWhere(f.locationID), WallId, f.wallID), Status, f.status),
      RouteType, f.routeType), Grade, f.grade)
  }

  lemma {:induction false} TypedMeaning(env: Env, f: Filter, row: Row)
    ensures var w := CompileTyped(f);
            && WellPlaced(w.conds, w.args)
            && (Selects(env, w.conds, w.args, row) <==>
                 && row.location == f.locationID && row.deletedAt.None?
                 && (f.wallID != "" ==> row.wall == f.wallID)
                 && (f.status != "" ==> row.status == f.status)
                 && (f.routeType != "" ==> row.routeType == f.routeType)
                 && (f.grade != "" ==> row.grade == f.grade))
  {
    var w0 := FirstWhere(f.locationID);
    var w2 := WithEq(WithEq(w0, WallId, f.wallID), Status, f.status);
    FirstMeaning(env, f.locationID, row);
    TwoEqs(env, w0, WallId, f.wallID, Status, f.status, row);
    TwoEqs(env, w2, RouteType, f.routeType, Grade, f.grade, row);
  }

  /** Two equality conditions in a row: each column is present and equal, or the filter is empty. */
  lemma {:induction false} TwoEqs(env: Env, w: Where, c1: Column, v1: string, c2: Column, v2: string, row: Row)
    requires WellPlaced(w.conds, w.args) && c1 != DateSet && c2 != DateSet
    ensures var w' := WithEq(WithEq(w, c1, v1), c2, v2);
            && WellPlaced(w'.conds, w'.args)
            && (Selects(env, w'.conds, w'.args, row) <==>
                 Selects(env, w.conds, w.args, row)
                 && (v1 != "" ==> ColumnOf(row, c1) == Str(v1)) && (v2 != "" ==> ColumnOf(row, c2) == Str(v2)))
  {
    EqMeaning(env, w, c1, v1, row);
    EqMeaning(env, WithEq(w, c1, v1), c2, v2, row);
  }

  /** Everything up to the dates. */
  function CompileColumns(f: Filter): Where {
    WithEq(WithEq(WithIn(CompileTyped(f), Grade, f.gradeIn), CircuitColor, f.circuitColor), SetterId, f.setterID)
  }

  lemma {:induction false} ColumnsMeaning(env: Env, f: Filter, row: Row)
    ensures var w := CompileColumns(f);
            && WellPlaced(w.conds, w.args)
            && (Selects(env, w.conds, w.args, row) <==>
                 && row.location == f.locationID && row.deletedAt.None?
                 && (f.wallID != "" ==> row.wall == f.wallID)
                 && (f.status != "" ==> row.status == f.status)
                 && (f.routeType != "" ==> row.routeType == f.routeType)
                 && (f.grade != "" ==> row.grade == f.grade)
                 && (f.gradeIn != [] ==> row.grade in f.gradeIn)
                 && (f.circuitColor != "" ==> row.circuitColor == Some(f.circuitColor))
                 && (f.setterID != "" ==> row.setter == Some(f.setterID)))
  {
    var w4 := CompileTyped(f);
    TypedMeaning(env, f, row);
    InMeaning(env, w4, row, f.gradeIn);
    TwoEqs(env, WithIn(w4, Grade, f.gradeIn), CircuitColor, f.circuitColor, SetterId, f.setterID, row);
  }

  lemma {:induction false} CompileSplits(f: Filter)
    ensures Compile(f) ==
            WithSearch(WithLte(WithGte(CompileColumns(f), DateSet, f.dateFrom), DateSet, f.dateTo), f.query)
  {
  }

  /** The compiled WHERE clause selects a row exactly when the row satisfies the filter, NULL columns
      included. */
  lemma {:induction false} CompiledSelectsExactly(env: Env, f: Filter, row: Row)
    requires KeepsMeta(env.fold)
    ensures WellPlaced(Compile(f).conds, Compile(f).args)
    ensures Selects(env, Compile(f).conds, Compile(f).args, row) <==> Matches(env, f, row)
  {
    var w := CompileColumns(f);
    CompileSplits(f);
    ColumnsMeaning(env, f, row);
    DatesMeaning(env, w, f.dateFrom, f.dateTo, row);
    SearchMeaning(env, WithLte(WithGte(w, DateSet, f.dateFrom), DateSet, f.dateTo), f.query, row);
  }

  lemma {:induction false} FirstMeaning(env: Env, location: string, row: Row)
    ensures var w := FirstWhere(location);
            && WellPlaced(w.conds, w.args)
            && (Selects(env, w.conds, w.args, row) <==> row.location == location && row.deletedAt.None?)
  {
    var w := FirstWhere(location);
    assert w.conds[..1] == [w.conds[0]] && w.conds[..1][..0] == [];
    assert EvalAll(env, w.conds[..1][..0], w.args, row) == True;
    assert EvalAll(env, w.conds[..1], w.args, row) == And(True, Eval(env, w.conds[0], w.args, row));
  }

  // ---- LIMIT and OFFSET ----

  datatype Query = Query(where: Where, limitArg: nat, offsetArg: nat)

  /** The statement List sends: limit and offset appended after the filter's own arguments. */
  function ListQuery(f: Filter): Query {
    var w := Compile(f);
    var limit := if f.limit <= 0 then 50 else f.limit;
    var offset := if f.offset < 0 then 0 else f.offset;
    Query(Where(w.conds, w.args + [Number(limit), Number(offset)]), NextArg(w), NextArg(w) + 1)
  }

  ghost function Selected(env: Env, q: Query, ordered: seq<Row>): seq<Row> {
    if |ordered| == 0 then [] else
      Selected(env, q, ordered[..|ordered| - 1]) +
      (if Selects(env, q.where.conds, q.where.args, ordered[|ordered| - 1]) then [ordered[|ordered| - 1]] else [])
  }

  ghost function Matching(env: Env, f: Filter, ordered: seq<Row>): seq<Row> {
    if |ordered| == 0 then [] else
      Matching(env, f, ordered[..|ordered| - 1]) +
      (if Matches(env, f, ordered[|ordered| - 1]) then [ordered[|ordered| - 1]] else [])
  }

  function Min(a: int, b: int): int {
    if a <= b then a else b
  }

  /** What LIMIT $l OFFSET $o leaves of the rows, in their ORDER BY order. */
  function Page(rows: seq<Row>, limit: nat, offset: nat): seq<Row> {
    rows[Min(offset, |rows|)..Min(offset + limit, |rows|)]
  }

  /** The result of the statement: the page, and the total the window count reports with its rows. */
  ghost function RunList(env: Env, q: Query, ordered: seq<Row>): (seq<Row>, int)
    requires Placed(q.limitArg, q.where.args) && Placed(q.offsetArg, q.where.args)
    requires q.where.args[q.limitArg - 1].Number? && q.where.args[q.limitArg - 1].number >= 0
    requires q.where.args[q.offsetArg - 1].Number? && q.where.args[q.offsetArg - 1].number >= 0
  {
    var rows := Selected(env, q, ordered);
    var page := Page(rows, q.where.args[q.limitArg - 1].number, q.where.args[q.offsetArg - 1].number);
    (page, if page == [] then 0 else |rows|)
  }

  lemma {:induction false} SelectedIsMatching(env: Env, f: Filter, ordered: seq<Row>)
    requires KeepsMeta(env.fold)
    ensures Selected(env, ListQuery(f), ordered) == Matching(env, f, ordered)
  {
    if |ordered| > 0 {
      var n := |ordered| - 1;
      var w, q := Compile(f), ListQuery(f);
      SelectedIsMatching(env, f, ordered[..n]);
      CompiledSelectsExactly(env, f, ordered[n]);
      var extra := q.where.args[|w.args|..];
      assert q.where.args == w.args + extra;
      SelectsStable(env, w.conds, w.args, extra, ordered[n]);
    }
  }

  /** The page skips so many rows and then shows so many, or as many as there are, in their order. */
  ghost predicate IsPage(page: seq<Row>, rows: seq<Row>, limit: nat, offset: nat) {
    && (forall i :: 0 <= i < |page| ==> offset + i < |rows| && page[i] == rows[offset + i])
    && |page| <= limit && (|page| < limit ==> offset + |page| >= |rows|)
  }

  /** List returns the requested page of the matching rows, with limit 50 by default; the reported
      total is right exactly when the page is not past the end of a non-empty result. */
  lemma {:induction false} ListReturnsPage(env: Env, f: Filter, ordered: seq<Row>)
    requires KeepsMeta(env.fold)
    ensures var q := ListQuery(f);
            var rows := Matching(env, f, ordered);
            var limit, offset := if f.limit <= 0 then 50 else f.limit, if f.offset < 0 then 0 else f.offset;
            && Placed(q.limitArg, q.where.args) && q.where.args[q.limitArg - 1] == Number(limit)
            && Placed(q.offsetArg, q.where.args) && q.where.args[q.offsetArg - 1] == Number(offset)
            && IsPage(RunList(env, q, ordered).0, rows, limit, offset)
            && (RunList(env, q, ordered).1 == |rows| <==> rows == [] || offset < |rows|)
  {
    SelectedIsMatching(env, f, ordered);
  }
}
