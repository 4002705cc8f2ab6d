/** Playbook steps of a location: append, delete, and moving a step past its neighbour
    (internal/repository/session.go), with and without the UNIQUE (location_id, sort_order)
    constraint of migration 9. */
module Playbook {
  import opened Seqs
  import opened Wrappers

  datatype Step = Step(location: string, order: int, title: string)

  type Steps = map<string, Step>

  datatype Direction = Up | Down | Sideways(text: string)

  datatype MoveResult = Moved | AtEdge | BadDirection | NotFound | Failed

  /** No two steps of a location share a sort_order. */
  ghost predicate Distinct(steps: Steps) {
    forall a, b :: a in steps && b in steps && a != b && steps[a].location == steps[b].location ==>
      steps[a].order != steps[b].order
  }

  /** What the UNIQUE constraint checks when one row gets a new sort_order. */
  predicate Taken(steps: Steps, id: string, order: int)
    requires id in steps
  {
    exists other :: other in steps && other != id && steps[other].location == steps[id].location
      && steps[other].order == order
  }

  /** Whether b is the first step after a in the direction. */
  ghost predicate IsNeighbour(steps: Steps, a: string, b: string, up: bool)
    requires a in steps
  {
    && Beyond(steps, a, b, up)
    && forall c :: Beyond(steps, a, c, up) ==> Closer(steps[b].order, steps[c].order, up)
  }

  predicate Beyond(steps: Steps, a: string, b: string, up: bool)
    requires a in steps
  {
    b in steps && steps[b].location == steps[a].location
    && if up then steps[b].order < steps[a].order else steps[b].order > steps[a].order
  }

  predicate Closer(x: int, y: int, up: bool) {
    if up then x >= y else x <= y
  }

  function Swapped(steps: Steps, a: string, b: string): Steps
    requires a in steps && b in steps
  {
    steps[a := steps[a].(order := steps[b].order)][b := steps[b].(order := steps[a].order)]
  }

  function Orders(steps: Steps, location: string): set<int> {
    set id | id in steps && steps[id].location == location :: steps[id].order
  }

  method MaxOrder(steps: Steps, location: string) returns (max: Option<int>)
    ensures max.None? <==> Orders(steps, location) == {}
    ensures max.Some? ==> max.value in Orders(steps, location)
    ensures max.Some? ==> forall o :: o in Orders(steps, location) ==> o <= max.value
  {
    max := None;
    var todo := steps.Keys;
    while todo != {}
      invariant todo <= steps.Keys
      invariant max.Some? ==> max.value in Orders(steps, location)
      invariant forall id :: id in steps && id !in todo && steps[id].location == location ==>
                  max.Some? && steps[id].order <= max.value
      decreases |todo|
    {
      var id :| id in todo;
      todo := todo - {id};
      if steps[id].location == location && (max.None? || steps[id].order > max.value) {
        max := Some(steps[id].order);
        assert steps[id].order in Orders(steps, location);
      }
    }
  }

  /** The neighbour query: ORDER BY sort_order LIMIT 1 in the direction. */
  method FindNeighbour(steps: Steps, a: string, up: bool) returns (b: Option<string>)
    requires a in steps
    ensures b.None? ==> forall c :: !Beyond(steps, a, c, up)
    ensures b.Some? ==> IsNeighbour(steps, a, b.value, up)
  {
    b := None;
    var todo := steps.Keys;
    while todo != {}
      invariant todo <= steps.Keys
      invariant b.Some? ==> Beyond(steps, a, b.value, up)
      invariant forall c :: Beyond(steps, a, c, up) && c !in todo ==>
                  b.Some? && Closer(steps[b.value].order, steps[c].order, up)
      decreases |todo|
    {
      var c :| c in todo;
      todo := todo - {c};
      if Beyond(steps, a, c, up) && (b.None? || !Closer(steps[b.value].order, steps[c].order, up)) {
        b := Some(c);
      }
    }
  }

  class Table {
    var steps: Steps
    /** Whether the table carries UNIQUE (location_id, sort_order), checked row by row. */
    const unique: bool

    constructor (unique: bool, steps: Steps)
      ensures this.unique == unique && this.steps == steps
    {
      this.unique := unique;
      this.steps := steps;
    }

    method Create(location: string, title: string, id: string)
      requires id !in steps
      modifies this`steps
      ensures steps.Keys == old(steps).Keys + {id} && steps - {id} == old(steps)
      ensures steps[id].location == location && steps[id].title == title
      ensures forall o :: o in Orders(old(steps), location) ==> o < steps[id].order
      ensures Orders(old(steps), location) == {} ==> steps[id].order == 0
      ensures Orders(old(steps), location) != {} ==> steps[id].order - 1 in Orders(old(steps), location)
    {
      var max := MaxOrder(steps, location);
      ghost var before := steps;
      steps := steps[id := Step(location, if max.Some? then max.value + 1 else 0, title)];
      assert steps - {id} == before;
    }

    method Delete(id: string)
      modifies this`steps
      ensures steps == old(steps) - {id}
    {
      steps := steps - {id};
    }

    /** UPDATE ... SET sort_order WHERE id, refused by the constraint or by a database error. */
    method SetOrder(id: string, order: int, dbFails: bool) returns (ok: bool)
      requires id in steps
      modifies this`steps
      ensures ok <==> !dbFails && !(unique && Taken(old(steps), id, order))
      ensures steps == if ok then old(steps)[id := old(steps)[id].(order := order)] else old(steps)
    {
      if dbFails || (unique && Taken(steps, id, order)) {
        return false;
      }
      steps := steps[id := steps[id].(order := order)];
      return true;
    }

    /** Two single-row updates in one transaction; if either is refused, both are rolled back. */
    method Move(id: string, direction: Direction, firstFails: bool, secondFails: bool) returns (result: MoveResult)
      modifies this`steps
      ensures MoveOk(unique, firstFails || secondFails, old(steps), id, direction, result, steps)
    {
      if direction.Sideways? {
        return BadDirection;
      }
      if id !in steps {
        return NotFound;
      }
      var order := steps[id].order;
      var neighbour := FindNeighbour(steps, id, direction.Up?);
      if neighbour.None? {
        return AtEdge;
      }
      var other := neighbour.value;
      var otherOrder := steps[other].order;
      var saved := steps;
      var ok := SetOrder(id, otherOrder, firstFails);
      if ok {
        ok := SetOrder(other, order, secondFails);
      }
      if !ok {
        steps := saved;
        return Failed;
      }
      return Moved;
    }
  }

  /** What a move does. With the constraint its first update always collides with the neighbour. */
  ghost predicate MoveOk(unique: bool, dbFails: bool, before: Steps, id: string, direction: Direction,
      result: MoveResult, after: Steps)
  {
    if direction.Sideways? then result == BadDirection && after == before
    else if id !in before then result == NotFound && after == before
    else if forall c :: !Beyond(before, id, c, direction.Up?) then result == AtEdge && after == before
    else if unique || dbFails then result == Failed && after == before
    else result == Moved && exists b :: IsNeighbour(before, id, b, direction.Up?) && after == Swapped(before, id, b)
  }

  // ---- The list a location sees ----

  /** s lists exactly the steps of the location in sort order. */
  ghost predicate IsListing(steps: Steps, location: string, s: seq<string>) {
    && (forall i :: 0 <= i < |s| ==> s[i] in steps && steps[s[i]].location == location)
    && (forall id :: id in steps && steps[id].location == location ==> id in s)
    && (forall i, j :: 0 <= i < j < |s| ==> steps[s[i]].order < steps[s[j]].order)
  }

  /** A new step goes to the end of the list. */
  lemma {:induction false} CreateAppends(before: Steps, after: Steps, location: string, id: string, s: seq<string>)
    requires id !in before && id in after && after - {id} == before && after[id].location == location
    requires forall o :: o in Orders(before, location) ==> o < after[id].order
    requires IsListing(before, location, s)
    ensures IsListing(after, location, s + [id])
  {
    var t := s + [id];
    assert forall x :: x in before ==> x in after && after[x] == before[x];
    forall i, j | 0 <= i < j < |t| ensures after[t[i]].order < after[t[j]].order {
      assert before[t[i]].order in Orders(before, location);
    }
    forall x | x in after && after[x].location == location ensures x in t {
      if x != id {
        assert x in before && x in s;
      } else {
        assert t[|s|] == id;
      }
    }
  }

  /** Deleting takes a step out of the list and leaves the others in order. */
  lemma {:induction false} DeleteRemoves(before: Steps, location: string, s: seq<string>, k: nat)
    requires IsListing(before, location, s) && k < |s|
    ensures IsListing(before - {s[k]}, location, Without(s, k))
  {
  }

  lemma {:induction false} LastAgrees(steps: Steps, location: string, s: seq<string>, t: seq<string>)
    requires IsListing(steps, location, s) && IsListing(steps, location, t)
    ensures |s| == 0 <==> |t| == 0
    ensures |s| > 0 ==> s[|s| - 1] == t[|t| - 1]
  {
  }

  lemma {:induction false} LastRemoved(steps: Steps, location: string, s: seq<string>)
    requires IsListing(steps, location, s) && |s| > 0
    ensures IsListing(steps - {s[|s| - 1]}, location, s[..|s| - 1])
  {
    DeleteRemoves(steps, location, s, |s| - 1);
    assert Without(s, |s| - 1) == s[..|s| - 1];
  }

  lemma {:induction false} SameByLast(s: seq<string>, t: seq<string>)
    requires |s| > 0 && |t| > 0
    requires s[..|s| - 1] == t[..|t| - 1] && s[|s| - 1] == t[|t| - 1]
    ensures s == t
  {
  }

  /** There is only one such list. */
  lemma {:induction false} ListingIsUnique(steps: Steps, location: string, s: seq<string>, t: seq<string>)
    requires IsListing(steps, location, s) && IsListing(steps, location, t)
    ensures s == t
    decreases |s|
  {
    LastAgrees(steps, location, s, t);
    if |s| > 0 {
      LastRemoved(steps, location, s);
      LastRemoved(steps, location, t);
      ListingIsUnique(steps - {s[|s| - 1]}, location, s[..|s| - 1], t[..|t| - 1]);
      SameByLast(s, t);
    }
  }

  /** The list after exchanging positions k and k + 1. */
  function Exchange(s: seq<string>, k: nat): (t: seq<string>)
    requires k + 1 < |s|
    ensures |t| == |s|
  {
    s[k := s[k + 1]][k + 1 := s[k]]
  }

  /** Swapping the orders of adjacent steps is exchanging them in the list. */
  lemma {:induction false} SwapExchanges(before: Steps, location: string, s: seq<string>, k: nat)
    requires IsListing(before, location, s) && k + 1 < |s|
    ensures Swapped(before, s[k], s[k + 1]) == Swapped(before, s[k + 1], s[k])
    ensures IsListing(Swapped(before, s[k], s[k + 1]), location, Exchange(s, k))
  {
    var after := Swapped(before, s[k], s[k + 1]);
    var t := Exchange(s, k);
    assert before[s[k]].order < before[s[k + 1]].order;
    forall i | 0 <= i < |s|
      ensures t[i] in after && after[t[i]].location == location && after[t[i]].order == before[s[i]].order
    {
      assert i < k ==> before[s[i]].order < before[s[k]].order;
      assert i > k + 1 ==> before[s[k + 1]].order < before[s[i]].order;
    }
    forall x | x in after && after[x].location == location ensures x in t {
      var p :| 0 <= p < |s| && s[p] == x;
      assert x == t[if p == k then k + 1 else if p == k + 1 then k else p];
    }
  }

  /** In a list, the neighbour of position k is position k - 1 or k + 1. */
  lemma {:induction false} NeighbourIsAdjacent(steps: Steps, location: string, s: seq<string>, k: nat, b: string, up: bool)
    requires IsListing(steps, location, s) && k < |s| && IsNeighbour(steps, s[k], b, up)
    ensures if up then k > 0 && b == s[k - 1] else k + 1 < |s| && b == s[k + 1]
  {
  }

  lemma {:induction false} EdgeIsEnd(steps: Steps, location: string, s: seq<string>, k: nat, up: bool)
    requires IsListing(steps, location, s) && k < |s|
    ensures (forall c :: !Beyond(steps, s[k], c, up)) <==> if up then k == 0 else k == |s| - 1
  {
    if up && k > 0 {
      assert Beyond(steps, s[k], s[k - 1], up);
    }
    if !up && k < |s| - 1 {
      assert Beyond(steps, s[k], s[k + 1], up);
    }
    forall c | Beyond(steps, s[k], c, up) ensures if up then k > 0 else k < |s| - 1 {
      assert c in s;
    }
  }

  /** A location other than the moved step's keeps its list. */
  lemma {:induction false} OtherListsKept(before: Steps, a: string, b: string, location: string, s: seq<string>)
    requires a in before && b in before && before[a].location == before[b].location != location
    requires IsListing(before, location, s)
    ensures IsListing(Swapped(before, a, b), location, s)
  {
  }

  lemma {:induction false} MovedIsExchange(before: Steps, location: string, s: seq<string>, k: nat, up: bool, b: string)
    requires IsListing(before, location, s) && k < |s| && IsNeighbour(before, s[k], b, up)
    ensures var i := if up then k - 1 else k;
            0 <= i < |s| - 1
            && Swapped(before, s[k], b) == Swapped(before, s[i], s[i + 1])
            && IsListing(Swapped(before, s[k], b), location, Exchange(s, i))
  {
    NeighbourIsAdjacent(before, location, s, k, b, up);
    SwapExchanges(before, location, s, if up then k - 1 else k);
  }

  /** A move of the step at position k: at the end of the list nothing happens; elsewhere it exchanges
      the step with its neighbour if, and only if, the table lacks the constraint the schema declares
      (and the database does not fail). */
  lemma {:induction false} MoveIsExchange(unique: bool, dbFails: bool, before: Steps, location: string,
      s: seq<string>, k: nat, direction: Direction, result: MoveResult, after: Steps)
    requires IsListing(before, location, s) && k < |s| && !direction.Sideways?
    requires MoveOk(unique, dbFails, before, s[k], direction, result, after)
    ensures var edge := if direction.Up? then k == 0 else k == |s| - 1;
            if edge then result == AtEdge && after == before
            else if unique || dbFails then result == Failed && after == before
            else result == Moved && IsListing(after, location, Exchange(s, if direction.Up? then k - 1 else k))
  {
    EdgeIsEnd(before, location, s, k, direction.Up?);
    if result == Moved {
      var b :| IsNeighbour(before, s[k], b, direction.Up?) && after == Swapped(before, s[k], b);
      MovedIsExchange(before, location, s, k, direction.Up?, b);
    }
  }

  /** The same move leaves the lists of all other locations alone. */
  lemma {:induction false} MoveKeepsOtherLists(unique: bool, dbFails: bool, before: Steps, id: string, direction: Direction,
      result: MoveResult, after: Steps, location: string, s: seq<string>)
    requires id in before && before[id].location != location && IsListing(before, location, s)
    requires MoveOk(unique, dbFails, before, id, direction, result, after)
    ensures IsListing(after, location, s)
  {
    if result == Moved {
      var b :| IsNeighbour(before, id, b, direction.Up?) && after == Swapped(before, id, b);
      OtherListsKept(before, id, b, location, s);
    }
  }

  /** Without the constraint, up and then down is the identity when the step was not first. */
  lemma {:induction false} UpThenDown(before: Steps, location: string, s: seq<string>, k: nat, mid: Steps, after: Steps)
    requires IsListing(before, location, s) && 0 < k < |s|
    requires MoveOk(false, false, before, s[k], Up, Moved, mid)
    requires MoveOk(false, false, mid, s[k], Down, Moved, after)
    ensures after == before
  {
    var b :| IsNeighbour(before, s[k], b, true) && mid == Swapped(before, s[k], b);
    NeighbourIsAdjacent(before, location, s, k, b, true);
    MovedIsExchange(before, location, s, k, true, b);
    var t := Exchange(s, k - 1);
    assert t[k - 1] == s[k] && t[k] == b;
    var c :| IsNeighbour(mid, s[k], c, false) && after == Swapped(mid, s[k], c);
    NeighbourIsAdjacent(mid, location, t, k - 1, c, false);
    SwapTwice(before, s[k], b);
  }

  lemma {:induction false} SwapTwice(steps: Steps, a: string, b: string)
    requires a in steps && b in steps
    ensures Swapped(Swapped(steps, a, b), a, b) == steps
  {
  }

  /** Create, delete and move keep sort orders distinct, with or without the constraint. */
  lemma {:induction false} MoveKeepsDistinct(unique: bool, dbFails: bool, before: Steps, id: string, direction: Direction,
      result: MoveResult, after: Steps)
    requires Distinct(before) && MoveOk(unique, dbFails, before, id, direction, result, after)
    ensures Distinct(after)
  {
  }

  lemma {:induction false} CreateKeepsDistinct(before: Steps, after: Steps, id: string)
    requires Distinct(before) && id !in before && id in after && after - {id} == before
    requires forall o :: o in Orders(before, after[id].location) ==> o < after[id].order
    ensures Distinct(after)
  {
    assert forall x :: x in before ==> x in after && after[x] == before[x];
    forall x | x in before && before[x].location == after[id].location ensures after[x].order < after[id].order {
      assert before[x].order in Orders(before, after[id].location);
    }
  }
}
