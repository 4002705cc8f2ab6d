/** Route rows and the statements that change their status: the archive paths of
    internal/repository/route.go, and publishing and deleting a setting session
    (internal/repository/session.go). */
module Routes {
  import opened Wrappers

  datatype Status = Draft | Active | Flagged | Archived

  datatype Route = Route(
    wall: string,
    session: Option<string>,
    status: Status,
    dateStripped: Option<int>,
    deleted: bool)

  datatype SessionStatus = Planning | InProgress | Complete | Cancelled

  /** A strip target of a session: a whole wall, or one route. */
  datatype Target = Target(session: string, wall: string, route: Option<string>)

  datatype Gym = Gym(routes: map<string, Route>, sessions: map<string, SessionStatus>, targets: set<Target>)

  predicate Live(g: Gym, id: string) {
    id in g.routes && !g.routes[id].deleted
  }

  /** The first strip date is historical: COALESCE(date_stripped, CURRENT_DATE). */
  function Stripped(r: Route, today: int): Route {
    r.(status := Archived, dateStripped := if r.dateStripped.Some? then r.dateStripped else Some(today))
  }

  function ArchiveAll(routes: map<string, Route>, ids: set<string>, today: int): map<string, Route> {
    map id | id in routes :: if id in ids then Stripped(routes[id], today) else routes[id]
  }

  function ActivateAll(routes: map<string, Route>, ids: set<string>): map<string, Route> {
    map id | id in routes :: if id in ids then routes[id].(status := Active) else routes[id]
  }

  // ---- The rows each statement of the publish transaction touches ----

  function WallStrips(g: Gym, session: string): set<string> {
    set id | id in g.routes && g.routes[id].status == Active && !g.routes[id].deleted
      && Target(session, g.routes[id].wall, None) in g.targets
  }

  predicate Targeted(targets: set<Target>, session: string, id: string) {
    exists t :: t in targets && t.session == session && t.route == Some(id)
  }

  function RouteStrips(g: Gym, session: string): set<string> {
    set id | id in g.routes && g.routes[id].status != Archived && !g.routes[id].deleted
      && Targeted(g.targets, session, id)
  }

  function Drafts(g: Gym, session: string): set<string> {
    set id | id in g.routes && g.routes[id].status == Draft && !g.routes[id].deleted
      && g.routes[id].session == Some(session)
  }

  datatype PublishError = NoSession | AlreadyComplete

  datatype PublishResult = Published(stripped: nat, published: nat) | Refused(error: PublishError)

  /** Why a publish is refused, if it is. */
  function PublishRefusal(g: Gym, session: string): Option<PublishError> {
    if session !in g.sessions then Some(NoSession)
    else if g.sessions[session] == Complete then Some(AlreadyComplete)
    else None
  }

  // ---- The one-pass specification ----

  /** What publishing makes of one route, judged by its state before the transaction. */
  function PublishedRoute(g: Gym, session: string, id: string, today: int): Route
    requires id in g.routes
  {
    var r := g.routes[id];
    if r.deleted then r
    else if (r.status == Active && Target(session, r.wall, None) in g.targets)
         || (r.status != Archived && Targeted(g.targets, session, id)) then Stripped(r, today)
    else if r.status == Draft && r.session == Some(session) then r.(status := Active)
    else r
  }

  function OnePass(g: Gym, session: string, today: int): Gym {
    Gym(map id | id in g.routes :: PublishedRoute(g, session, id, today),
        g.sessions[session := Complete], g.targets)
  }

  function Changed(before: map<string, Route>, after: map<string, Route>): set<string> {
    set id | id in before && id in after && after[id].status != before[id].status
  }

  class Repo {
    var routes: map<string, Route>
    var sessions: map<string, SessionStatus>
    var targets: set<Target>

    function Model(): Gym
      reads this
    {
      Gym(routes, sessions, targets)
    }

    constructor (g: Gym)
      ensures Model() == g
    {
      routes, sessions, targets := g.routes, g.sessions, g.targets;
    }

    /** Three updates and a status flip under the session's row lock, counting rows as they go. */
    method PublishSession(session: string, today: int) returns (result: PublishResult)
      modifies this
      ensures result.Refused? <==> PublishRefusal(old(Model()), session).Some?
      ensures result.Refused? ==>
        Model() == old(Model()) && PublishRefusal(old(Model()), session) == Some(result.error)
      ensures result.Published? ==>
        && Model() == OnePass(old(Model()), session, today)
        && result.stripped + result.published == |Changed(old(routes), routes)|
        && result.published == |set id | id in Changed(old(routes), routes) && routes[id].status == Active|
    {
      if session !in sessions {
        return Refused(NoSession);
      }
      if sessions[session] == Complete {
        return Refused(AlreadyComplete);
      }
      ghost var before := Model();
      var onWalls := WallStrips(Model(), session);
      routes := ArchiveAll(routes, onWalls, today);
      var stripped := |onWalls|;

      var single := RouteStrips(Model(), session);
      routes := ArchiveAll(routes, single, today);
      stripped := stripped + |single|;

      var drafts := Drafts(Model(), session);
      routes := ActivateAll(routes, drafts);
      var published := |drafts|;

      sessions := sessions[session := Complete];
      PublishIsOnePass(before, session, today);
      PublishCounts(before, session, today);
      return Published(stripped, published);
    }

    method UpdateStatus(id: string, status: Status, today: int)
      modifies this`routes
      ensures routes == AfterStatus(old(Model()), id, status, today)
    {
      if id in routes && !routes[id].deleted {
        routes := routes[id := if status == Archived then Stripped(routes[id], today) else routes[id].(status := status)];
      }
    }

    method BulkArchive(ids: set<string>, today: int) returns (count: nat)
      modifies this`routes
      ensures routes == AfterBulk(old(Model()), ids, today)
      ensures count == |Changed(old(routes), routes)|
    {
      var hit := set id | id in ids && id in routes && routes[id].status != Archived && !routes[id].deleted;
      count := |hit|;
      ghost var before := routes;
      routes := ArchiveAll(routes, hit, today);
      assert Changed(before, routes) == hit;
    }

    method BulkArchiveByWall(wall: string, today: int) returns (count: nat)
      modifies this`routes
      ensures routes == AfterWall(old(Model()), wall, today)
      ensures count == |Changed(old(routes), routes)|
    {
      var hit := set id | id in routes && routes[id].wall == wall && routes[id].status == Active && !routes[id].deleted;
      count := |hit|;
      ghost var before := routes;
      routes := ArchiveAll(routes, hit, today);
      assert Changed(before, routes) == hit;
    }

    /** Drafts go with their session; published routes stay and are unlinked. A draft that another
        table still references aborts the transaction. */
    method DeleteSession(session: string, pinned: set<string>) returns (ok: bool)
      modifies this
      ensures Model() == AfterDelete(old(Model()), session, pinned)
      ensures ok <==> session !in old(sessions) || !DeleteBlocked(old(Model()), session, pinned)
    {
      if session !in sessions {
        return true;
      }
      if DeleteBlocked(Model(), session, pinned) {
        return false;
      }
      routes := map id | id in routes && !(routes[id].session == Some(session) && routes[id].status == Draft) :: routes[id];
      routes := map id | id in routes ::
        if routes[id].session == Some(session) then routes[id].(session := None) else routes[id];
      sessions := sessions - {session};
      targets := set t | t in targets && t.session != session;
      return true;
    }
  }

  function AfterStatus(g: Gym, id: string, status: Status, today: int): map<string, Route> {
    if !Live(g, id) then g.routes
    else g.routes[id := if status == Archived then Stripped(g.routes[id], today) else g.routes[id].(status := status)]
  }

  function AfterBulk(g: Gym, ids: set<string>, today: int): map<string, Route> {
    map id | id in g.routes ::
      var r := g.routes[id];
      if id in ids && r.status != Archived && !r.deleted then Stripped(r, today) else r
  }

  function AfterWall(g: Gym, wall: string, today: int): map<string, Route> {
    map id | id in g.routes ::
      var r := g.routes[id];
      if r.wall == wall && r.status == Active && !r.deleted then Stripped(r, today) else r
  }

  /** The rows DELETE ... WHERE status = 'draft' takes, soft-deleted ones included. */
  predicate GoesWith(g: Gym, session: string, id: string) {
    id in g.routes && g.routes[id].session == Some(session) && g.routes[id].status == Draft
  }

  /** A foreign key without cascade refuses the delete: a strip target, or one of the pinned ids that
      other tables (tags, photos, ascents, labor) reference. */
  predicate DeleteBlocked(g: Gym, session: string, pinned: set<string>) {
    exists id :: id in g.routes && GoesWith(g, session, id)
      && (id in pinned || exists t :: t in g.targets && t.route == Some(id))
  }

  function AfterDelete(g: Gym, session: string, pinned: set<string>): Gym {
    if session !in g.sessions || DeleteBlocked(g, session, pinned) then g
    else Gym(map id | id in g.routes && !(g.routes[id].session == Some(session) && g.routes[id].status == Draft) ::
               if g.routes[id].session == Some(session) then g.routes[id].(session := None) else g.routes[id],
             g.sessions - {session},
             set t | t in g.targets && t.session != session)
  }

  // ---- The transaction equals the specification ----

  /** The gym after the first statement, after the second, and after all three. */
  function Step1(g: Gym, session: string, today: int): Gym {
    g.(routes := ArchiveAll(g.routes, WallStrips(g, session), today))
  }

  function Step2(g: Gym, session: string, today: int): Gym {
    var g1 := Step1(g, session, today);
    g1.(routes := ArchiveAll(g1.routes, RouteStrips(g1, session), today))
  }

  function Step3(g: Gym, session: string, today: int): Gym {
    var g2 := Step2(g, session, today);
    g2.(routes := ActivateAll(g2.routes, Drafts(g2, session)))
  }

  /** Three updates in sequence are one pass: fresh drafts escape their own session's wall strip, and a
      route on a stripped wall that is also listed singly is archived once. */
  lemma {:induction false} PublishIsOnePass(g: Gym, session: string, today: int)
    ensures Step3(g, session, today).routes == OnePass(g, session, today).routes
  {
  }

  /** Each changed route was counted by exactly one statement. */
  lemma {:induction false} PublishCounts(g: Gym, session: string, today: int)
    ensures var a, b, c := WallStrips(g, session), RouteStrips(Step1(g, session, today), session),
                           Drafts(Step2(g, session, today), session);
            var after := OnePass(g, session, today).routes;
            && |a| + |b| + |c| == |Changed(g.routes, after)|
            && c == set id | id in Changed(g.routes, after) && after[id].status == Active
  {
    var a, b := WallStrips(g, session), RouteStrips(Step1(g, session, today), session);
    var c := Drafts(Step2(g, session, today), session);
    var after := OnePass(g, session, today).routes;
    PublishIsOnePass(g, session, today);
    ChangedAre(g, session, today);
    assert a !! b && (a + b) !! c;
    assert Changed(g.routes, after) == a + b + c;
    assert c == set id | id in Changed(g.routes, after) && after[id].status == Active;
  }

  lemma {:induction false} ChangedAre(g: Gym, session: string, today: int)
    ensures var a, b, c := WallStrips(g, session), RouteStrips(Step1(g, session, today), session),
                           Drafts(Step2(g, session, today), session);
            var after := OnePass(g, session, today).routes;
            && (forall id :: id in a ==> g.routes[id].status == Active && after[id].status == Archived)
            && (forall id :: id in b ==>
                  id !in a && id in g.routes && g.routes[id].status != Archived && after[id].status == Archived)
            && (forall id :: id in c ==>
                  id !in a && id !in b && id in g.routes && g.routes[id].status == Draft && after[id].status == Active)
            && (forall id :: id in Changed(g.routes, after) ==> id in a || id in b || id in c)
  {
    PublishIsOnePass(g, session, today);
  }

  /** Deleting a published session takes no live route with it: if it goes through, exactly the rows
      that were soft-deleted drafts of the session go, and every other row stays as published,
      unlinked if it was the session's. */
  lemma {:induction false} DeleteAfterPublishKeepsRoutes(g: Gym, session: string, today: int, pinned: set<string>)
    requires session in g.sessions
    ensures var g1 := OnePass(g, session, today);
            var g2 := AfterDelete(g1, session, pinned);
            && (forall id :: GoesWith(g1, session, id) <==> GoesWith(g, session, id) && g.routes[id].deleted)
            && (DeleteBlocked(g1, session, pinned) ==> g2 == g1)
            && (!DeleteBlocked(g1, session, pinned) ==>
                  && (forall id :: id in g2.routes <==> id in g.routes && !GoesWith(g1, session, id))
                  && (forall id :: id in g2.routes ==> g2.routes[id] == Unlinked(g1.routes[id], session)))
  {
  }

  function Unlinked(r: Route, session: string): Route {
    r.(session := if r.session == Some(session) then None else r.session)
  }

  // ---- The strip date over whole runs ----

  datatype Change =
    | Publish(session: string, today: int)
    | SetStatus(id: string, status: Status, today: int)
    | Bulk(ids: set<string>, today: int)
    | Wall(wall: string, today: int)
    | Delete(session: string, pinned: set<string>)

  function Apply(g: Gym, c: Change): Gym {
    match c
    case Publish(session, today) =>
      if PublishRefusal(g, session).Some? then g else OnePass(g, session, today)
    case SetStatus(id, status, today) => g.(routes := AfterStatus(g, id, status, today))
    case Bulk(ids, today) => g.(routes := AfterBulk(g, ids, today))
    case Wall(wall, today) => g.(routes := AfterWall(g, wall, today))
    case Delete(session, pinned) => AfterDelete(g, session, pinned)
  }

  function Run(g: Gym, changes: seq<Change>): Gym {
    if |changes| == 0 then g else Apply(Run(g, changes[..|changes| - 1]), changes[|changes| - 1])
  }

  /** A publish that goes through is refused the second time as already complete, and changes nothing
      then; one that was refused is refused again for the same reason. */
  lemma {:induction false} SecondPublishRefused(g: Gym, session: string, today: int, later: int)
    ensures var g' := Apply(g, Publish(session, today));
            && Apply(g', Publish(session, later)) == g'
            && PublishRefusal(g', session) ==
                 (if PublishRefusal(g, session) == Some(NoSession) then Some(NoSession) else Some(AlreadyComplete))
  {
  }

  /** What publishing one session means for the next: another session finds its drafts and strip targets
      as before, except for drafts of its own that the first session listed for stripping. */
  lemma {:induction false} OtherSessionsDrafts(g: Gym, session: string, other: string, today: int)
    requires session in g.sessions && g.sessions[session] != Complete && other != session
    ensures var g' := Apply(g, Publish(session, today));
            && Drafts(g', other) == Drafts(g, other) - RouteStrips(g, session)
            && g'.targets == g.targets && (other in g'.sessions <==> other in g.sessions)
            && (other in g.sessions ==> g'.sessions[other] == g.sessions[other])
  {
  }

  // ---- What each change does, route by route ----

  /** Off the wall: archived, with the first strip date kept, and otherwise as before. */
  ghost predicate TakenOff(before: Route, after: Route, today: int) {
    && after.status == Archived
    && after.dateStripped == (if before.dateStripped.Some? then before.dateStripped else Some(today))
    && after.wall == before.wall && after.session == before.session && after.deleted == before.deleted
  }

  /** Equal but for the status. */
  ghost predicate OnlyStatus(before: Route, after: Route, status: Status) {
    && after.status == status && after.dateStripped == before.dateStripped
    && after.wall == before.wall && after.session == before.session && after.deleted == before.deleted
  }

  ghost predicate SameIds(g: Gym, g': Gym) {
    g'.routes.Keys == g.routes.Keys
  }

  /** Publishing a session: every live route on a wall to be stripped that was on it comes off, but not the
      session's own fresh drafts; so does every live route listed singly, draft or not; the session's other live
      drafts go up; nothing else changes, and the session is complete. */
  lemma {:induction false} PublishMeans(g: Gym, session: string, today: int, id: string)
    requires PublishRefusal(g, session).None? && id in g.routes
    ensures var g' := Apply(g, Publish(session, today));
            && SameIds(g, g') && g'.targets == g.targets && g'.sessions == g.sessions[session := Complete]
            && var r, r' := g.routes[id], g'.routes[id];
               var listed := exists t :: t in g.targets && t.session == session && t.route == Some(id);
               var onWall := exists t :: t in g.targets && t.session == session && t.wall == r.wall && t.route.None?;
               && (!r.deleted && listed && r.status != Archived ==> TakenOff(r, r', today))
               && (!r.deleted && onWall && r.status == Active ==> TakenOff(r, r', today))
               && (!r.deleted && r.status == Draft && r.session == Some(session) && !listed ==> OnlyStatus(r, r', Active))
               && (r.deleted || r.status == Archived ==> r' == r)
               && (!listed && r.status == Flagged ==> r' == r)
               && (!listed && r.status == Active && !onWall ==> r' == r)
               && (!listed && r.status == Draft && r.session != Some(session) ==> r' == r)
  {
    var r := g.routes[id];
    if t :| t in g.targets && t.session == session && t.wall == r.wall && t.route.None? {
      assert t == Target(session, r.wall, None);
    }
  }

  /** Setting one status, archiving a list, archiving a wall: which routes change, and how. */
  lemma {:induction false} ArchivesMean(g: Gym, id: string, target: string, status: Status, ids: set<string>, wall: string,
      today: int)
    requires id in g.routes
    ensures var one := Apply(g, SetStatus(target, status, today));
            && SameIds(g, one) && one.sessions == g.sessions && one.targets == g.targets
            && if id != target || g.routes[id].deleted then one.routes[id] == g.routes[id]
               else if status == Archived then TakenOff(g.routes[id], one.routes[id], today)
               else OnlyStatus(g.routes[id], one.routes[id], status)
    ensures var bulk := Apply(g, Bulk(ids, today));
            && SameIds(g, bulk) && bulk.sessions == g.sessions && bulk.targets == g.targets
            && if id in ids && !g.routes[id].deleted && g.routes[id].status != Archived
               then TakenOff(g.routes[id], bulk.routes[id], today)
               else bulk.routes[id] == g.routes[id]
    ensures var bare := Apply(g, Wall(wall, today));
            && SameIds(g, bare) && bare.sessions == g.sessions && bare.targets == g.targets
            && if g.routes[id].wall == wall && !g.routes[id].deleted && g.routes[id].status == Active
               then TakenOff(g.routes[id], bare.routes[id], today)
               else bare.routes[id] == g.routes[id]
  {
  }

  /** A draft of the session, soft-deleted or not, that a strip target or another table still points at. */
  ghost predicate Pinned(g: Gym, session: string, pinned: set<string>, id: string) {
    && id in g.routes && g.routes[id].session == Some(session) && g.routes[id].status == Draft
    && (id in pinned || exists t :: t in g.targets && t.route == Some(id))
  }

  /** Deleting a session that exists goes through if and only if none of its drafts is still pointed at. Then the
      session, its targets and its drafts are gone, its other routes stay on no session, and every other route,
      session and target is as before. */
  lemma {:induction false} DeleteMeans(g: Gym, session: string, pinned: set<string>)
    requires session in g.sessions
    ensures var g' := Apply(g, Delete(session, pinned));
            && (session !in g'.sessions <==> forall id :: !Pinned(g, session, pinned, id))
            && (session in g'.sessions ==> g' == g)
            && (session !in g'.sessions ==>
                  && (forall s :: s != session ==> (s in g'.sessions <==> s in g.sessions))
                  && (forall s :: s != session && s in g.sessions ==> g'.sessions[s] == g.sessions[s])
                  && (forall t :: t in g'.targets <==> t in g.targets && t.session != session)
                  && (forall id :: id in g'.routes <==>
                        id in g.routes && (g.routes[id].session != Some(session) || g.routes[id].status != Draft))
                  && (forall id :: id in g'.routes ==> DeletedAround(g.routes[id], g'.routes[id], session)))
  {
    forall id ensures Pinned(g, session, pinned, id) ==> DeleteBlocked(g, session, pinned) {
      if Pinned(g, session, pinned, id) {
        assert GoesWith(g, session, id);
      }
    }
    if DeleteBlocked(g, session, pinned) {
      var id :| id in g.routes && GoesWith(g, session, id)
                && (id in pinned || exists t :: t in g.targets && t.route == Some(id));
      assert Pinned(g, session, pinned, id);
    }
  }

  ghost predicate DeletedAround(before: Route, after: Route, session: string) {
    && after.session == (if before.session == Some(session) then None else before.session)
    && after.status == before.status && after.dateStripped == before.dateStripped
    && after.wall == before.wall && after.deleted == before.deleted
  }

  /** Every archived route carries the date it first came off the wall. */
  ghost predicate DatesKept(g: Gym) {
    forall id :: id in g.routes && g.routes[id].status == Archived ==> g.routes[id].dateStripped.Some?
  }

  lemma {:induction false} ApplyKeepsDates(g: Gym, c: Change)
    requires DatesKept(g)
    ensures DatesKept(Apply(g, c))
    ensures forall id :: id in Apply(g, c).routes ==>
              id in g.routes
              && (g.routes[id].dateStripped.Some? ==> Apply(g, c).routes[id].dateStripped == g.routes[id].dateStripped)
  {
  }

  /** Over any mix of publishes, archives, un-archives and deletes, a strip date once set is never
      overwritten, and every archived route has one. */
  lemma {:induction false} FirstStripDateIsKept(g: Gym, changes: seq<Change>, id: string)
    requires DatesKept(g) && id in Run(g, changes).routes
    ensures DatesKept(Run(g, changes)) && id in g.routes
    ensures g.routes[id].dateStripped.Some? ==>
              Run(g, changes).routes[id].dateStripped == g.routes[id].dateStripped
  {
    RunKeepsDates(g, changes);
    if |changes| > 0 {
      var n := |changes| - 1;
      RunKeepsDates(g, changes[..n]);
      ApplyKeepsDates(Run(g, changes[..n]), changes[n]);
      FirstStripDateIsKept(g, changes[..n], id);
    }
  }

  lemma {:induction false} RunKeepsDates(g: Gym, changes: seq<Change>)
    requires DatesKept(g)
    ensures DatesKept(Run(g, changes))
  {
    if |changes| > 0 {
      RunKeepsDates(g, changes[..|changes| - 1]);
      ApplyKeepsDates(Run(g, changes[..|changes| - 1]), changes[|changes| - 1]);
    }
  }
}
