/** Role edits and removals with their guards (internal/handler/team.go) over the fixed role ranks
    (internal/rbac/rbac.go). */
module Team {
  import opened Wrappers

  const CLIMBER := "climber"
  const SETTER := "setter"
  const HEAD_SETTER := "head_setter"
  const GYM_MANAGER := "gym_manager"
  const ORG_ADMIN := "org_admin"

  const RANK: map<string, nat> := map[CLIMBER := 1, SETTER := 2, HEAD_SETTER := 3, GYM_MANAGER := 4, ORG_ADMIN := 5]

  function RankValue(role: string): nat {
    if role in RANK then RANK[role] else 0
  }

  /** At least as privileged as one of the required roles; unknown roles neither have nor grant access. */
  method HasAnyRole(userRole: string, required: seq<string>) returns (ok: bool)
    ensures ok <==> userRole in RANK && exists r :: r in required && r in RANK && RANK[r] <= RANK[userRole]
  {
    if userRole !in RANK {
      return false;
    }
    for i := 0 to |required|
      invariant forall j :: 0 <= j < i && required[j] in RANK ==> RANK[required[j]] > RANK[userRole]
    {
      if required[i] in RANK && RANK[userRole] >= RANK[required[i]] {
        return true;
      }
    }
    return false;
  }

  /** Membership rows in creation order; removal is a soft delete. */
  datatype Membership = Membership(user: string, org: string, location: Option<string>, role: string, deleted: bool)

  type Table = seq<Membership>

  predicate Live(t: Table, i: nat) {
    i < |t| && !t[i].deleted
  }

  function AllowedRoles(callerRole: string): set<string> {
    var rank := RankValue(callerRole);
    if rank >= 5 then {CLIMBER, SETTER, HEAD_SETTER, GYM_MANAGER, ORG_ADMIN}
    else if rank >= 4 then {CLIMBER, SETTER, HEAD_SETTER, GYM_MANAGER}
    else if rank >= 3 then {CLIMBER, SETTER}
    else {}
  }

  /** A caller may assign no role above its own, and from head setter down only lower ones. */
  lemma {:induction false} AllowedRolesBounded(callerRole: string, role: string)
    requires role in AllowedRoles(callerRole)
    ensures 1 <= RankValue(role) <= RankValue(callerRole) && role in RANK
    ensures RankValue(callerRole) <= 3 ==> RankValue(role) < RankValue(callerRole)
  {
  }

  /** GetMemberships: the caller's rows that are not deleted. */
  function MembershipsOf(t: Table, user: string): (r: seq<Membership>)
    ensures forall m :: m in r <==> m in t && m.user == user && !m.deleted
  {
    if |t| == 0 then [] else
      MembershipsOf(t[..|t| - 1], user) +
      (if t[|t| - 1].user == user && !t[|t| - 1].deleted then [t[|t| - 1]] else [])
  }

  /** The highest rank a user holds in an org, 0 for none. */
  function HighestOf(ms: seq<Membership>, org: string): (r: nat)
    ensures r > 0 ==> exists m :: m in ms && m.org == org && RankValue(m.role) == r
    ensures forall m :: m in ms && m.org == org ==> RankValue(m.role) <= r
  {
    if |ms| == 0 then 0
    else
      var best := HighestOf(ms[..|ms| - 1], org);
      var last := ms[|ms| - 1];
      if last.org == org && RankValue(last.role) > best then RankValue(last.role) else best
  }

  function CallerRank(t: Table, caller: string, org: string): nat {
    HighestOf(MembershipsOf(t, caller), org)
  }

  predicate Owns(t: Table, user: string, org: string, i: int) {
    0 <= i < |t| && !t[i].deleted && t[i].user == user && t[i].org == org
  }

  /** The caller's rank is the highest rank among its live rows in the org. */
  lemma {:induction false} CallerRankIsHighest(t: Table, caller: string, org: string)
    ensures var r := CallerRank(t, caller, org);
            && (forall i :: Owns(t, caller, org, i) ==> RankValue(t[i].role) <= r)
            && (r > 0 ==> exists i :: Owns(t, caller, org, i) && RankValue(t[i].role) == r)
  {
  }

  /** The max loop of callerRoleForMembership: a role of the caller in the org with the highest rank. */
  method CallerRole(t: Table, caller: string, org: string) returns (best: string)
    ensures RankValue(best) == CallerRank(t, caller, org)
    ensures best == "" || exists m :: m in t && !m.deleted && m.user == caller && m.org == org && m.role == best
  {
    var ms := MembershipsOf(t, caller);
    best := "";
    var bestRank := 0;
    for i := 0 to |ms|
      invariant bestRank == RankValue(best) == HighestOf(ms[..i], org)
      invariant best == "" || exists m :: m in ms && m.org == org && m.role == best
    {
      assert ms[..i + 1][..i] == ms[..i];
      if ms[i].org == org {
        var rank := RankValue(ms[i].role);
        if rank > bestRank {
          best, bestRank := ms[i].role, rank;
          assert ms[i] in ms;
        }
      }
    }
    assert ms[..|ms|] == ms;
  }

  datatype Verdict = NotFound | Forbidden | Failed | Done

  /** Which database calls of one request fail: loading the target, the caller's memberships (the caller
      then counts as having no role), the write, and reading the changed row back for the reply. */
  datatype Faults = Faults(target: bool, caller: bool, write: bool, reload: bool)

  const NO_FAULTS := Faults(false, false, false, false)

  function SeenRank(t: Table, caller: string, org: string, faults: Faults): nat {
    if faults.caller then 0 else CallerRank(t, caller, org)
  }

  /** UNIQUE (user_id, org_id, location_id, role) over all rows, deleted ones too; a NULL location never
      collides. */
  predicate RoleTaken(t: Table, i: nat, role: string)
    requires i < |t|
  {
    t[i].location.Some? && exists j :: 0 <= j < |t| && j != i && t[j] == t[i].(role := role, deleted := t[j].deleted)
  }

  /** The guards of UpdateMembership, in order. */
  function UpdateVerdict(t: Table, caller: string, i: nat, role: string, faults: Faults): Verdict {
    if faults.target || !Live(t, i) then NotFound
    else
      var rank := SeenRank(t, caller, t[i].org, faults);
      if !MayAssign(rank, role) then Forbidden
      else if t[i].user != caller && RankValue(t[i].role) >= rank then Forbidden
      else if t[i].user == caller && RankValue(role) < RankValue(t[i].role) then Forbidden
      else if faults.write || RoleTaken(t, i, role) then Failed
      else Done
  }

  function RemoveVerdict(t: Table, caller: string, i: nat, faults: Faults): Verdict {
    if faults.target || !Live(t, i) then NotFound
    else
      var rank := SeenRank(t, caller, t[i].org, faults);
      if rank < 4 then Forbidden
      else if t[i].user == caller then Forbidden
      else if RankValue(t[i].role) >= rank then Forbidden
      else if faults.write then Failed
      else Done
  }

  /** The assignable set depends on the rank alone. */
  predicate MayAssign(rank: nat, role: string) {
    role in RANK && (if rank <= 2 then false else if rank == 3 then RANK[role] <= 2 else RANK[role] <= rank)
  }

  lemma {:induction false} AllowedIsMayAssign(callerRole: string, role: string)
    ensures role in AllowedRoles(callerRole) <==> MayAssign(RankValue(callerRole), role)
  {
  }

  class Memberships {
    var rows: Table

    constructor (rows: Table)
      ensures this.rows == rows
    {
      this.rows := rows;
    }

    method UpdateMembership(caller: string, i: nat, role: string, faults: Faults) returns (v: Verdict)
      modifies this
      ensures var verdict := UpdateVerdict(old(rows), caller, i, role, faults);
              && rows == (if verdict == Done then old(rows)[i := old(rows)[i].(role := role)] else old(rows))
              && v == (if verdict == Done && faults.reload then NotFound else verdict)
      ensures faults.target || !Live(old(rows), i) ==> v == NotFound
      ensures v == NotFound ==> faults.target || !Live(old(rows), i) || faults.reload
      ensures v == Failed ==> faults.write || (i < |old(rows)| && RoleTaken(old(rows), i, role))
    {
      if faults.target || !Live(rows, i) {
        return NotFound;
      }
      var target := rows[i];
      var callerRole := "";
      if !faults.caller {
        callerRole := CallerRole(rows, caller, target.org);
      }
      AllowedIsMayAssign(callerRole, role);
      if role !in AllowedRoles(callerRole) {
        return Forbidden;
      }
      var targetRank := RankValue(target.role);
      var callerRank := RankValue(callerRole);
      if target.user != caller && targetRank >= callerRank {
        return Forbidden;
      }
      if target.user == caller {
        var newRank := RankValue(role);
        if newRank < targetRank {
          return Forbidden;
        }
      }
      if faults.write || RoleTaken(rows, i, role) {
        return Failed;
      }
      rows := rows[i := target.(role := role)];
      return if faults.reload then NotFound else Done;
    }

    method RemoveMembership(caller: string, i: nat, faults: Faults) returns (v: Verdict)
      modifies this
      ensures v == RemoveVerdict(old(rows), caller, i, faults)
      ensures v == NotFound <==> faults.target || !Live(old(rows), i)
      ensures v == Failed ==> faults.write
      ensures rows == if v == Done then old(rows)[i := old(rows)[i].(deleted := true)] else old(rows)
    {
      if faults.target || !Live(rows, i) {
        return NotFound;
      }
      var target := rows[i];
      var callerRole := "";
      if !faults.caller {
        callerRole := CallerRole(rows, caller, target.org);
      }
      if RankValue(callerRole) < 4 {
        return Forbidden;
      }
      if target.user == caller {
        return Forbidden;
      }
      if RankValue(target.role) >= RankValue(callerRole) {
        return Forbidden;
      }
      if faults.write {
        return Failed;
      }
      rows := rows[i := target.(deleted := true)];
      return Done;
    }
  }

  // ---- Runs ----

  datatype Edit =
    | Update(caller: string, i: nat, role: string, faults: Faults)
    | Remove(caller: string, i: nat, faults: Faults)

  function Apply(t: Table, e: Edit): (r: Table)
    ensures |r| == |t|
  {
    match e
    case Update(caller, i, role, faults) =>
      if UpdateVerdict(t, caller, i, role, faults) == Done then t[i := t[i].(role := role)] else t
    case Remove(caller, i, faults) =>
      if RemoveVerdict(t, caller, i, faults) == Done then t[i := t[i].(deleted := true)] else t
  }

  function Run(t: Table, edits: seq<Edit>): (r: Table)
    ensures |r| == |t|
  {
    if |edits| == 0 then t else Apply(Run(t, edits[..|edits| - 1]), edits[|edits| - 1])
  }

  /** The highest rank held in an org by any live membership. */
  ghost predicate TopIs(t: Table, org: string, top: nat) {
    && (forall i :: 0 <= i < |t| && !t[i].deleted && t[i].org == org ==> RankValue(t[i].role) <= top)
    && (top > 0 ==> exists i :: HoldsRank(t, org, i, top))
  }

  ghost predicate HoldsRank(t: Table, org: string, i: int, rank: nat) {
    0 <= i < |t| && !t[i].deleted && t[i].org == org && RankValue(t[i].role) == rank
  }

  lemma {:induction false} CallerBelowTop(t: Table, caller: string, org: string, top: nat)
    requires TopIs(t, org, top)
    ensures CallerRank(t, caller, org) <= top
  {
  }

  /** One edit by any caller: no live row of the org rises above its top rank, and a row at the top rank
      keeps its rank and stays. */
  lemma {:induction false} EditKeepsTop(t: Table, e: Edit, org: string, top: nat)
    requires TopIs(t, org, top)
    ensures TopIs(Apply(t, e), org, top)
    ensures forall i :: HoldsRank(t, org, i, top) ==> HoldsRank(Apply(t, e), org, i, top)
  {
    var t' := Apply(t, e);
    CallerBelowTop(t, e.caller, org, top);
    forall i | HoldsRank(t, org, i, top) ensures HoldsRank(t', org, i, top) {
    }
  }

  /** Over every run of role edits and removals, taken one at a time by any callers, the highest rank
      held in an org never changes, and no membership at that rank is ever lowered or removed. */
  lemma {:induction false} TopRankIsStable(t: Table, edits: seq<Edit>, org: string, top: nat)
    requires TopIs(t, org, top)
    ensures TopIs(Run(t, edits), org, top)
    ensures forall i :: HoldsRank(t, org, i, top) ==> HoldsRank(Run(t, edits), org, i, top)
  {
    if |edits| > 0 {
      var n := |edits| - 1;
      TopRankIsStable(t, edits[..n], org, top);
      EditKeepsTop(Run(t, edits[..n]), edits[n], org, top);
    }
  }

  /** A change by one caller: another's row changes only if the caller outranks it; an own row is never
      lowered, and never raised above the caller's rank. */
  lemma {:induction false} ChangedOnlyFromAbove(t: Table, e: Edit, i: nat)
    requires Live(t, i) && Apply(t, e)[i] != t[i]
    ensures e.i == i && Apply(t, e)[i].(role := t[i].role, deleted := t[i].deleted) == t[i]
    ensures t[i].user != e.caller ==> RankValue(t[i].role) < CallerRank(t, e.caller, t[i].org)
    ensures t[i].user == e.caller ==>
              e.Update? && RankValue(t[i].role) <= RankValue(e.role) <= CallerRank(t, e.caller, t[i].org)
  {
  }

  /** The highest rank a caller may assign. */
  function Ceiling(rank: nat): nat {
    if rank <= 2 then 0 else if rank == 3 then 2 else rank
  }

  /** A role above lo and up to hi that the row does not have and that no other row of the user blocks. */
  predicate RoleFree(t: Table, i: nat, lo: nat, hi: nat)
    requires i < |t|
  {
    exists role :: role in RANK && lo < RANK[role] <= hi && role != t[i].role && !RoleTaken(t, i, role)
  }

  /** Someone else's row: outranked, and either removable or with a role of at most setter to move it to.
      The own row: a role between its rank and what the caller may assign. */
  predicate WithinReach(t: Table, caller: string, i: nat)
    requires i < |t|
  {
    var rank, r := CallerRank(t, caller, t[i].org), RankValue(t[i].role);
    if t[i].user == caller then RoleFree(t, i, r, Ceiling(rank))
    else r < rank && (rank >= 4 || (rank == 3 && RoleFree(t, i, 0, 2)))
  }

  ghost predicate CanChange(t: Table, caller: string, i: nat)
    requires i < |t|
  {
    exists e: Edit :: Apply(t, e)[i] != t[i] && e.caller == caller
  }

  lemma {:induction false} RankIdentifies(a: string, b: string)
    ensures RankValue(a) == RankValue(b) > 0 ==> a == b
  {
  }

  lemma {:induction false} UpdateGetsThrough(t: Table, caller: string, i: nat, role: string)
    requires Live(t, i) && !RoleTaken(t, i, role) && role != t[i].role
    requires var rank, r := CallerRank(t, caller, t[i].org), RankValue(t[i].role);
             MayAssign(rank, role) && if t[i].user == caller then r <= RankValue(role) else r < rank
    ensures CanChange(t, caller, i)
  {
    var e := Update(caller, i, role, NO_FAULTS);
    assert UpdateVerdict(t, caller, i, role, NO_FAULTS) == Done;
    assert Apply(t, e)[i] != t[i];
  }

  lemma {:induction false} ReachIsEnough(t: Table, caller: string, i: nat)
    requires Live(t, i) && WithinReach(t, caller, i)
    ensures CanChange(t, caller, i)
  {
    var rank, r := CallerRank(t, caller, t[i].org), RankValue(t[i].role);
    if t[i].user == caller {
      var role :| role in RANK && r < RANK[role] <= Ceiling(rank) && role != t[i].role && !RoleTaken(t, i, role);
      UpdateGetsThrough(t, caller, i, role);
    } else if rank >= 4 {
      var e := Remove(caller, i, NO_FAULTS);
      assert RemoveVerdict(t, caller, i, NO_FAULTS) == Done;
      assert Apply(t, e)[i] != t[i];
    } else {
      var role :| role in RANK && 0 < RANK[role] <= 2 && role != t[i].role && !RoleTaken(t, i, role);
      UpdateGetsThrough(t, caller, i, role);
    }
  }

  lemma {:induction false} UpdateNeedsReach(t: Table, caller: string, i: nat, role: string, faults: Faults)
    requires Live(t, i) && UpdateVerdict(t, caller, i, role, faults) == Done && role != t[i].role
    ensures WithinReach(t, caller, i)
  {
    RankIdentifies(t[i].role, role);
    assert role in RANK && !RoleTaken(t, i, role);
  }

  lemma {:induction false} ChangeNeedsReach(t: Table, e: Edit, i: nat)
    requires Live(t, i) && Apply(t, e)[i] != t[i]
    ensures WithinReach(t, e.caller, i)
  {
    match e
    case Update(caller, j, role, faults) => UpdateNeedsReach(t, caller, i, role, faults);
    case Remove(caller, j, faults) => assert RemoveVerdict(t, caller, i, faults) == Done;
  }

  /** Who can change a row at all: exactly those within whose reach it is. */
  lemma {:induction false} ChangePossibleIff(t: Table, caller: string, i: nat)
    requires Live(t, i)
    ensures CanChange(t, caller, i) <==> WithinReach(t, caller, i)
  {
    if CanChange(t, caller, i) {
      var e: Edit :| Apply(t, e)[i] != t[i] && e.caller == caller;
      ChangeNeedsReach(t, e, i);
    }
    if WithinReach(t, caller, i) {
      ReachIsEnough(t, caller, i);
    }
  }

  // ---- Exactly which edits go through ----

  /** A member of rank 5 may give any role, one of rank 4 any but the highest, one of rank 3 the two
      lowest, and nobody else any. */
  predicate Gives(rank: nat, given: nat) {
    || (rank == 5 && 1 <= given <= 5)
    || (rank == 4 && 1 <= given <= 4)
    || (rank == 3 && 1 <= given <= 2)
  }

  /** Some live row of the caller in the org outranks the row and may give the role. */
  ghost predicate Outranks(t: Table, caller: string, i: nat, given: nat)
    requires i < |t|
  {
    exists k :: Owns(t, caller, t[i].org, k)
      && RankValue(t[i].role) < RankValue(t[k].role) && Gives(RankValue(t[k].role), given)
  }

  ghost predicate SomeRowGives(t: Table, caller: string, org: string, given: nat) {
    exists k :: Owns(t, caller, org, k) && Gives(RankValue(t[k].role), given)
  }

  ghost predicate CanRemove(t: Table, caller: string, i: nat)
    requires i < |t|
  {
    exists k :: Owns(t, caller, t[i].org, k)
      && RankValue(t[k].role) >= 4 && RankValue(t[i].role) < RankValue(t[k].role)
  }

  /** Nothing that the edit needs fails, and the user does not hold the role already. */
  predicate NothingInTheWay(t: Table, i: nat, role: string, faults: Faults)
    requires i < |t|
  {
    !faults.target && !faults.caller && !faults.write && !RoleTaken(t, i, role)
  }

  lemma {:induction false} GivesByHighest(rank: nat, lower: nat, given: nat)
    requires lower <= rank <= 5 && Gives(lower, given)
    ensures Gives(rank, given)
  {
  }

  lemma {:induction false} GivesIsMayAssign(rank: nat, role: string)
    requires rank <= 5
    ensures Gives(rank, RankValue(role)) <==> MayAssign(rank, role)
  {
  }

  /** What some row of the caller gives, the caller's highest rank gives. */
  lemma {:induction false} HighestGives(t: Table, caller: string, org: string, role: string)
    ensures SomeRowGives(t, caller, org, RankValue(role)) <==> MayAssign(CallerRank(t, caller, org), role)
  {
    var rank := CallerRank(t, caller, org);
    CallerRankIsHighest(t, caller, org);
    GivesIsMayAssign(rank, role);
    if k :| Owns(t, caller, org, k) && Gives(RankValue(t[k].role), RankValue(role)) {
      GivesByHighest(rank, RankValue(t[k].role), RankValue(role));
    }
  }

  lemma {:induction false} HighestOutranks(t: Table, caller: string, i: nat, role: string)
    requires i < |t|
    ensures var rank := CallerRank(t, caller, t[i].org);
            Outranks(t, caller, i, RankValue(role)) <==> RankValue(t[i].role) < rank && MayAssign(rank, role)
  {
    var rank := CallerRank(t, caller, t[i].org);
    CallerRankIsHighest(t, caller, t[i].org);
    GivesIsMayAssign(rank, role);
    if k :| Owns(t, caller, t[i].org, k)
            && RankValue(t[i].role) < RankValue(t[k].role) && Gives(RankValue(t[k].role), RankValue(role)) {
      GivesByHighest(rank, RankValue(t[k].role), RankValue(role));
    }
  }

  /** The role of somebody else's row is changed to another one if and only if nothing is in the way and
      some live row of the caller in the org outranks the row and may give the role. */
  lemma {:induction false} UpdateOfAnotherIff(t: Table, caller: string, i: nat, role: string, faults: Faults)
    requires Live(t, i) && t[i].user != caller && role != t[i].role
    ensures Apply(t, Update(caller, i, role, faults))[i].role == role <==>
            NothingInTheWay(t, i, role, faults) && Outranks(t, caller, i, RankValue(role))
  {
    HighestOutranks(t, caller, i, role);
  }

  /** The caller's own row takes another role if and only if nothing is in the way, the role is no lower,
      and some live row of the caller in the org may give it. */
  lemma {:induction false} UpdateOfOwnIff(t: Table, caller: string, i: nat, role: string, faults: Faults)
    requires Live(t, i) && t[i].user == caller && role != t[i].role
    ensures Apply(t, Update(caller, i, role, faults))[i].role == role <==>
            && NothingInTheWay(t, i, role, faults) && RankValue(t[i].role) <= RankValue(role)
            && SomeRowGives(t, caller, t[i].org, RankValue(role))
  {
    HighestGives(t, caller, t[i].org, role);
  }

  /** A row is removed if and only if it is somebody else's, no call fails, and some live row of the caller
      in the org has rank 4 or 5 and outranks it. */
  lemma {:induction false} RemoveIff(t: Table, caller: string, i: nat, faults: Faults)
    requires Live(t, i)
    ensures Apply(t, Remove(caller, i, faults))[i].deleted <==>
            && t[i].user != caller && !faults.target && !faults.caller && !faults.write
            && CanRemove(t, caller, i)
  {
    CallerRankIsHighest(t, caller, t[i].org);
  }

  // ---- Nobody reaches above themselves ----

  ghost predicate CallersBelow(t: Table, edits: seq<Edit>, org: string, k: nat) {
    forall j :: 0 <= j < |edits| ==> CallerRank(t, edits[j].caller, org) <= k
  }

  /** A row of the org at rank k or above is as it was; any other is still at most at rank k. */
  ghost predicate RowFrozen(m: Membership, m': Membership, org: string, k: nat) {
    && m'.user == m.user && m'.org == m.org
    && (m.org == org && !m.deleted && RankValue(m.role) >= k ==> m' == m)
    && (m.org == org && !m'.deleted && RankValue(m.role) < k ==> RankValue(m'.role) <= k)
    && (m.deleted ==> m' == m)
  }

  ghost predicate FrozenFrom(t: Table, t': Table, org: string, k: nat)
    requires |t'| == |t|
  {
    forall i :: 0 <= i < |t| ==> RowFrozen(t[i], t'[i], org, k)
  }

  /** A caller that had at most rank k still has. */
  lemma {:induction false} StillBelow(t: Table, t': Table, org: string, k: nat, caller: string)
    requires |t'| == |t| && FrozenFrom(t, t', org, k) && CallerRank(t, caller, org) <= k
    ensures CallerRank(t', caller, org) <= k
  {
  }

  lemma {:induction false} EditFreezes(t: Table, e: Edit, org: string, k: nat)
    requires CallerRank(t, e.caller, org) <= k
    ensures FrozenFrom(t, Apply(t, e), org, k)
  {
    if Live(t, e.i) {
      EditedRowFrozen(t, e, org, k);
    }
  }

  lemma {:induction false} EditedRowFrozen(t: Table, e: Edit, org: string, k: nat)
    requires Live(t, e.i) && CallerRank(t, e.caller, org) <= k
    ensures RowFrozen(t[e.i], Apply(t, e)[e.i], org, k)
  {
    if e.Update? {
      RankIdentifies(t[e.i].role, e.role);
    }
  }

  /** Over every run of edits by callers whose rank in an org is at most k to begin with, acting alone or
      together: no membership at rank k or above changes in any way, and none below is raised past k. */
  lemma {:induction false} NobodyReachesAbove(t: Table, edits: seq<Edit>, org: string, k: nat)
    requires CallersBelow(t, edits, org, k)
    ensures FrozenFrom(t, Run(t, edits), org, k)
  {
    if |edits| > 0 {
      var n := |edits| - 1;
      var mid := Run(t, edits[..n]);
      NobodyReachesAbove(t, edits[..n], org, k);
      StillBelow(t, mid, org, k, edits[n].caller);
      EditFreezes(mid, edits[n], org, k);
    }
  }
}
