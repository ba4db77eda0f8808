// The situations the theorems about off-route destroys and cut-off creates speak
// of are reached, from empty stores, under every positive limit.
module LifecycleWitnesses {
  import opened Prelude
  import opened SessionTypes
  import opened LifecycleProtocol
  import opened LifecycleSafety
  import opened LifecycleRecovery
  import opened LifecycleExact
  import opened LifecycleProvenance
  import C = SessionContainer
  import Q = SessionQuota
  import I = SessionIndex

  const FAIR := Weather(Answered, C.Faults(false, C.Started, true, true, true, true, true), "token", "now")
  const START_FAILS := FAIR.(f := FAIR.f.(start := C.StartFailed))
  const LOST := FAIR.(delivery := LostBefore)

  // ---------------------------------------------------------------------------
  // Reaching on

  lemma {:induction false} RunGrows(w: World, actions: seq<Action>, a: Action, limit: int)
    ensures Run(w, actions + [a], limit) == Next(Run(w, actions, limit), a, limit)
    decreases |actions|
  {
    if actions == [] {
      assert actions + [a] == [a] && [a][1..] == [];
    } else {
      assert (actions + [a])[1..] == actions[1..] + [a];
      RunGrows(Next(w, actions[0], limit), actions[1..], a, limit);
    }
  }

  lemma ReachedNext(w: World, a: Action, limit: int)
    requires Reachable(w, limit)
    ensures Reachable(Next(w, a, limit), limit)
  {
    var actions :| w == Run(EMPTY, actions, limit);
    RunGrows(EMPTY, actions, a, limit);
  }

  lemma {:induction false} ReachedCalls(w: World, name: string, v: Weather, count: nat, limit: int)
    requires Reachable(w, limit)
    ensures Reachable(Calls(w, name, v, count, limit), limit)
    decreases count
  {
    if count > 0 {
      ReachedNext(w, Proceed(name, v), limit);
      ReachedCalls(Proceeded(w, name, v, limit), name, v, count - 1, limit);
    }
  }

  /** A start and its calls, with no fault and nobody in between. */
  function Request(w: World, start: Action, limit: int): World {
    Calls(Next(w, start, limit), Subject(start), FAIR, 5, limit)
  }

  lemma ReachedRequest(w: World, start: Action, limit: int)
    requires Reachable(w, limit)
    ensures Reachable(Request(w, start, limit), limit)
  {
    ReachedNext(w, start, limit);
    ReachedCalls(Next(w, start, limit), Subject(start), FAIR, 5, limit);
  }

  lemma RequestKeepsOthers(w: World, start: Action, name: string, limit: int)
    requires Subject(start) != name
    ensures SameObjectAt(w, Request(w, start, limit), name)
  {
    OthersKeepObject(w, start, name, limit);
    CallsKeepOthers(Next(w, start, limit), Subject(start), FAIR, 5, name, limit);
  }

  lemma {:induction false} CallsKeepOthers(w: World, other: string, v: Weather, count: nat, name: string, limit: int)
    requires other != name
    ensures SameObjectAt(w, Calls(w, other, v, count, limit), name)
    decreases count
  {
    if count > 0 {
      OthersKeepObject(w, Proceed(other, v), name, limit);
      CallsKeepOthers(Proceeded(w, other, v, limit), other, v, count - 1, name, limit);
    }
  }

  // ---------------------------------------------------------------------------
  // Creates with room

  lemma {:induction false} CallsFinishPlan(w: World, name: string, plan: Plan, left: nat, limit: int)
    requires Safe(w, limit) && Stage(w, name, plan, left, true)
    ensures Stage(Calls(w, name, FAIR, left, limit), name, plan, 0, true)
    decreases left
  {
    if left > 0 {
      StageAdvances(w, name, plan, FAIR, left, true, limit);
      ActionIsSafe(w, Proceed(name, FAIR), limit);
      CallsFinishPlan(Proceeded(w, name, FAIR, limit), name, plan, left - 1, limit);
    }
  }

  /** An uninterrupted create of a name that is not live, with room in its list, makes the session visible. */
  lemma CreateWithRoom(w: World, name: string, start: Action, job: Job, limit: int)
    requires Safe(w, limit) && name !in w.inFlight && !Do(w, name).Live() && StartsOwnCreate(start, name, job)
    requires |Reservations(w, job.principal)| < limit
    ensures var end := Request(w, start, limit);
            name !in end.inFlight && Visible(end, name, job, true)
  {
    var begun := Next(w, start, limit);
    ActionIsSafe(w, start, limit);
    if start.StartEnsure? {
      ScopedNameFits(start.pub);
    }
    var plan := Creating(job, Do(w, name), name in Reservations(w, job.principal));
    StageAdvances(begun, name, plan, FAIR, 5, true, limit);
    StepIsSafe(begun, name, FAIR, limit);
    var read := Proceeded(begun, name, FAIR, limit);
    assert Reservations(read, job.principal) == Reservations(w, job.principal);
    StepIsSafe(read, name, FAIR, limit);
    var reserved := Proceeded(read, name, FAIR, limit);
    assert reserved.inFlight[name] == Call(job) && Do(reserved, name) == Do(w, name);
    CallsFinishPlan(reserved, name, Creating(job, Do(w, name), true), 3, limit);
    assert Calls(begun, name, FAIR, 5, limit) == Calls(read, name, FAIR, 4, limit);
    assert Calls(read, name, FAIR, 4, limit) == Calls(reserved, name, FAIR, 3, limit);
  }

  function JobOf(pub: Published): Job {
    Job(pub.p, Q.PublishedPrincipal(pub.namespace), true, false)
  }

  function Ensured(pub: Published, limit: int): World {
    Request(EMPTY, StartEnsure(pub), limit)
  }

  lemma EmptyIsReached(limit: int)
    requires 0 <= limit
    ensures Reachable(EMPTY, limit) && Safe(EMPTY, limit)
  {
    assert EMPTY == Run(EMPTY, [], limit);
    ReachableIsSafe(EMPTY, limit);
  }

  /** A live published session, owned by whomever the call names. */
  lemma LivePublishedIsReachable(pub: Published, limit: int)
    requires 1 <= limit && AcceptablePublished(pub)
    ensures var w, name := Ensured(pub, limit), ScopedId(pub);
            && Reachable(w, limit) && IsPublishedScopedId(name)
            && name !in w.inFlight && Do(w, name).Live() && Do(w, name).OwnedBy(pub.p.userId, pub.p.spaceId)
            && Do(w, name).state.value.sessionId == pub.p.sessionId
  {
    var w, name := Ensured(pub, limit), ScopedId(pub);
    EmptyIsReached(limit);
    ScopedNameFits(pub);
    ReachedRequest(EMPTY, StartEnsure(pub), limit);
    CreateWithRoom(EMPTY, name, StartEnsure(pub), JobOf(pub), limit);
    ReachableIsSafe(w, limit);
    SafeEverywhere(w, limit, name);
    LogicalIdIsUnique(name, Do(w, name).state.value.sessionId, pub.p.sessionId);
  }

  // ---------------------------------------------------------------------------
  // A session planted in somebody's list

  /** A published session whose logical id is an ordinary name the session route admits. */
  predicate Plantable(pub: Published) {
    AcceptablePublished(pub) && ValidSessionId(ScopedId(pub)) && !IsPublishedScopedId(pub.p.sessionId)
  }

  /**
   * The input on which the reserved range fails to keep sessions out of GUI lists: one
   * published call naming any user, one session-route destroy of the session. Nobody
   * created anything over the create route, and the list route shows the session to that user.
   */
  lemma PublishedSessionIsPlanted(pub: Published, order: seq<string>, limit: int)
    requires 1 <= limit && Plantable(pub)
    ensures var end := HostDestroyed(Ensured(pub, limit), ScopedId(pub), FAIR, limit);
            && Reachable(end, limit)
            && (I.Enumerates(order, end.index) ==>
                  exists state: SessionState ::
                    && state.userId == pub.p.userId && state.sessionId == pub.p.sessionId
                    && Shown(end, GuiSession(pub.p.userId, None), order, state))
  {
    var w, name := Ensured(pub, limit), ScopedId(pub);
    LivePublishedIsReachable(pub, limit);
    ReachableIsSafe(w, limit);
    ReachedNext(w, StartDestroy(name), limit);
    ReachedCalls(Next(w, StartDestroy(name), limit), name, FAIR, DESTROY_CALLS, limit);
    HostDestroyShowsExactly(w, name, FAIR, GuiSession(pub.p.userId, None), order, limit);
    var stopped := Do(w, name).state.value.(status := Stopped);
    if I.Enumerates(order, HostDestroyed(w, name, FAIR, limit).index) {
      assert Shown(HostDestroyed(w, name, FAIR, limit), GuiSession(pub.p.userId, None), order, stopped);
    }
  }

  // ---------------------------------------------------------------------------
  // Neighbours: a published session, and a host session under its logical id

  function CreateOf(pub: Published): Action {
    StartCreate(Admin, pub.p)
  }

  function Neighbours(pub: Published, limit: int): World {
    Request(Ensured(pub, limit), CreateOf(pub), limit)
  }

  /** Nobody but the published name has a place anywhere. */
  lemma UserListIsEmpty(pub: Published, user: string, limit: int)
    requires 1 <= limit && AcceptablePublished(pub)
    ensures Reservations(Ensured(pub, limit), Q.UserPrincipal(user)) == []
  {
    var w, name := Ensured(pub, limit), ScopedId(pub);
    EmptyIsReached(limit);
    PrincipalsApart(user, pub.namespace);
    forall m
      ensures m !in Reservations(w, Q.UserPrincipal(user))
    {
      if m == name {
        CallsKeepForeignList(Next(EMPTY, StartEnsure(pub), limit), name, JobOf(pub), Q.UserPrincipal(user), 5, limit);
      } else {
        RequestKeepsOthers(EMPTY, StartEnsure(pub), m, limit);
      }
    }
    SomebodyIsListed(Reservations(w, Q.UserPrincipal(user)));
  }

  lemma SomebodyIsListed(ids: seq<string>)
    ensures ids != [] ==> exists id :: id in ids
  {
    if ids != [] {
      assert ids[0] in ids;
    }
  }

  /** An ensure, wherever it stands, counts under its own namespace only. */
  predicate EnsuresUnder(r: Request, principal: string) {
    match r
    case EnsureRead(pub) => Q.PublishedPrincipal(pub.namespace) == principal
    case TouchReserve(job) => job.principal == principal
    case Reserve(job) => job.principal == principal
    case Call(job) => job.principal == principal
    case ReadBack(job) => job.principal == principal
    case Index(job, _) => job.principal == principal
    case UndoStop(job) => job.principal == principal
    case UndoUnindex(job) => job.principal == principal
    case UndoRelease(job) => job.principal == principal
    case _ => false
  }

  lemma {:induction false} CallsKeepForeignList(
    w: World, name: string, job: Job, principal: string, count: nat, limit: int)
    requires name in w.inFlight ==> EnsuresUnder(w.inFlight[name], job.principal)
    requires principal != job.principal
    ensures Reservations(Calls(w, name, FAIR, count, limit), principal) == Reservations(w, principal)
    decreases count
  {
    if count > 0 {
      CallsKeepForeignList(Proceeded(w, name, FAIR, limit), name, job, principal, count - 1, limit);
    }
  }

  /** The host session exists, is exact, and belongs to the same user as the live published one. */
  lemma NeighboursAreReachable(pub: Published, limit: int)
    requires 1 <= limit && Plantable(pub) && Acceptable(Admin, pub.p)
    ensures var w, name := Neighbours(pub, limit), pub.p.sessionId;
            && Reachable(w, limit) && ScopedId(pub) !in w.inFlight && name !in w.inFlight
            && Do(w, ScopedId(pub)).Live() && Do(w, ScopedId(pub)).state.value.sessionId == name
            && Do(w, ScopedId(pub)).state.value.userId == pub.p.userId
            && Do(w, name).Live() && Do(w, name).state.value.userId == pub.p.userId && Exact(w, name)
  {
    var first, w, name, start := Ensured(pub, limit), Neighbours(pub, limit), pub.p.sessionId, CreateOf(pub);
    LivePublishedIsReachable(pub, limit);
    ReachableIsSafe(first, limit);
    RequestKeepsOthers(EMPTY, StartEnsure(pub), name, limit);
    UserListIsEmpty(pub, pub.p.userId, limit);
    CreateWithRoom(first, name, start, Job(pub.p, Q.UserPrincipal(pub.p.userId), false, false), limit);
    ReachedRequest(first, start, limit);
    RequestKeepsOthers(first, start, ScopedId(pub), limit);
    EnsureLeavesNameExact(pub, name, limit);
    ActionIsSafe(first, start, limit);
    SmoothSubject(first, start, limit);
    SmoothStaysOnRoute(first, start, limit);
    CallsKeepStep(Next(first, start, limit), name, FAIR, 5, limit);
  }

  /** A name that an ensure is not about stays blank, unlisted and uncounted. */
  lemma EnsureLeavesNameExact(pub: Published, name: string, limit: int)
    requires 1 <= limit && AcceptablePublished(pub) && name != ScopedId(pub)
    ensures Exact(Ensured(pub, limit), name)
  {
    var start := StartEnsure(pub);
    EmptyIsReached(limit);
    ActionIsSafe(EMPTY, start, limit);
    OthersDoNotDisturb(EMPTY, start, name, limit);
    CallsDoNotDisturb(Next(EMPTY, start, limit), ScopedId(pub), FAIR, 5, name, limit);
    assert ExactAt(EMPTY, name);
    SameAtKeepsExact(EMPTY, Next(EMPTY, start, limit), name);
    SameAtKeepsExact(Next(EMPTY, start, limit), Ensured(pub, limit), name);
    RequestKeepsOthers(EMPTY, start, name, limit);
  }

  /** The stray destroy then marks the live session's entry, */
  lemma LiveNeighbourIsMarked(pub: Published, limit: int)
    requires 1 <= limit && Plantable(pub) && Acceptable(Admin, pub.p)
    ensures !Exact(HostDestroyed(Neighbours(pub, limit), ScopedId(pub), FAIR, limit), pub.p.sessionId)
  {
    NeighboursAreReachable(pub, limit);
    ReachableIsSafe(Neighbours(pub, limit), limit);
    StrayDestroyMarksLiveSession(Neighbours(pub, limit), ScopedId(pub), FAIR, limit);
  }

  /** and lists it again after its own complete destroy. */
  lemma GoneNeighbourIsListedAgain(pub: Published, limit: int)
    requires 1 <= limit && Plantable(pub) && Acceptable(Admin, pub.p)
    ensures var gone := HostDestroyed(Neighbours(pub, limit), pub.p.sessionId, FAIR, limit);
            && Gone(gone, pub.p.sessionId)
            && !Gone(HostDestroyed(gone, ScopedId(pub), FAIR, limit), pub.p.sessionId)
  {
    var w, name, stray := Neighbours(pub, limit), pub.p.sessionId, ScopedId(pub);
    NeighboursAreReachable(pub, limit);
    ReachableIsSafe(w, limit);
    HostDestroyOfHostName(w, name, FAIR, limit);
    HostDestroyIsSafe(w, name, FAIR, limit);
    HostDestroyKeepsIdentity(w, name, FAIR, limit);
    OthersKeepObject(w, StartDestroy(name), stray, limit);
    CallsKeepOthers(Next(w, StartDestroy(name), limit), name, FAIR, DESTROY_CALLS, stray, limit);
    StrayDestroyListsAgain(HostDestroyed(w, name, FAIR, limit), stray, FAIR, limit);
  }

  // ---------------------------------------------------------------------------
  // A place without a session

  /** A create whose start fails and whose compensation is lost at its first call. */
  function CutOff(p: CreatePayload, limit: int): World {
    var w1 := Next(EMPTY, StartCreate(Admin, p), limit);
    var w2 := Proceeded(w1, p.sessionId, FAIR, limit);
    var w3 := Proceeded(w2, p.sessionId, FAIR, limit);
    var w4 := Proceeded(w3, p.sessionId, START_FAILS, limit);
    Proceeded(w4, p.sessionId, LOST, limit)
  }

  lemma CutOffIsReached(p: CreatePayload, limit: int)
    requires 1 <= limit && Acceptable(Admin, p)
    ensures Reachable(CutOff(p, limit), limit)
  {
    var name := p.sessionId;
    EmptyIsReached(limit);
    var w1 := Next(EMPTY, StartCreate(Admin, p), limit);
    ReachedNext(EMPTY, StartCreate(Admin, p), limit);
    var w2 := Proceeded(w1, name, FAIR, limit);
    ReachedNext(w1, Proceed(name, FAIR), limit);
    var w3 := Proceeded(w2, name, FAIR, limit);
    ReachedNext(w2, Proceed(name, FAIR), limit);
    var w4 := Proceeded(w3, name, START_FAILS, limit);
    ReachedNext(w3, Proceed(name, START_FAILS), limit);
    ReachedNext(w4, Proceed(name, LOST), limit);
  }

  function ReservedOnly(p: CreatePayload, limit: int): World {
    var w1 := Next(EMPTY, StartCreate(Admin, p), limit);
    Proceeded(Proceeded(w1, p.sessionId, FAIR, limit), p.sessionId, FAIR, limit)
  }

  lemma ReservedOnlyIsBlank(p: CreatePayload, limit: int)
    requires 1 <= limit && Acceptable(Admin, p)
    ensures var w, name := ReservedOnly(p, limit), p.sessionId;
            && name in w.inFlight && w.inFlight[name] == Call(Job(p, Q.UserPrincipal(p.userId), false, false))
            && Do(w, name) == C.BLANK && name in Reservations(w, Q.UserPrincipal(p.userId))
  {
    var name, job := p.sessionId, Job(p, Q.UserPrincipal(p.userId), false, false);
    var w1 := Next(EMPTY, StartCreate(Admin, p), limit);
    assert w1.inFlight[name] == CreateRead(Admin, p) && Do(w1, name) == C.BLANK;
    var w2 := Proceeded(w1, name, FAIR, limit);
    assert w2.inFlight[name] == Reserve(job) && Do(w2, name) == C.BLANK && w2.quota == map[];
  }

  lemma CutOffIsBlank(p: CreatePayload, limit: int)
    requires 1 <= limit && Acceptable(Admin, p)
    ensures var w, name := CutOff(p, limit), p.sessionId;
            && name !in w.inFlight && Do(w, name).state.None? && name in Reservations(w, Q.UserPrincipal(p.userId))
  {
    var name, w3 := p.sessionId, ReservedOnly(p, limit);
    ReservedOnlyIsBlank(p, limit);
    var w4 := Proceeded(w3, name, START_FAILS, limit);
    assert w4.inFlight[name].UndoStop? && Do(w4, name) == C.BLANK && w4.quota == w3.quota;
  }

  /** It leaves a blank object that holds its place, which a fault-free session-route destroy does not give back. */
  lemma BlankObjectKeepsItsPlace(p: CreatePayload, limit: int)
    requires 1 <= limit && Acceptable(Admin, p)
    ensures var w, name, list := CutOff(p, limit), p.sessionId, Q.UserPrincipal(p.userId);
            && Reachable(w, limit) && name !in w.inFlight && Do(w, name).state.None?
            && name in Reservations(w, list)
            && name in Reservations(HostDestroyed(w, name, FAIR, limit), list)
  {
    CutOffIsReached(p, limit);
    CutOffIsBlank(p, limit);
    ReachableIsSafe(CutOff(p, limit), limit);
    HostDestroyUncountsExactly(CutOff(p, limit), p.sessionId, FAIR, p.userId, limit);
  }
}
