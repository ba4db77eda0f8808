// What a request achieves when its own calls meet no fault, while requests on
// other names step in between at will.
module LifecycleRecovery {
  import opened Prelude
  import opened SessionTypes
  import opened LifecycleProtocol
  import opened LifecycleSafety
  import C = SessionContainer
  import Q = SessionQuota
  import I = SessionIndex

  predicate Clean(v: Weather) {
    v.delivery.Answered? && C.FaultFree(v.f)
  }

  /** How many calls a run grants to the request on a name. */
  function CallsOn(name: string, actions: seq<Action>): nat {
    if actions == [] then 0
    else (if actions[0].Proceed? && actions[0].name == name then 1 else 0) + CallsOn(name, actions[1..])
  }

  /** In a run, whatever concerns the name is a call of its request, without a fault. */
  predicate OnlyCleanCalls(name: string, actions: seq<Action>) {
    forall i :: 0 <= i < |actions| && Subject(actions[i]) == name ==> actions[i].Proceed? && Clean(actions[i].v)
  }

  // ---------------------------------------------------------------------------
  // What other names cannot disturb

  /** The object, the request and the places of a name. */
  ghost predicate SameObjectAt(w: World, next: World, name: string) {
    && Do(next, name) == Do(w, name)
    && (name in next.inFlight <==> name in w.inFlight)
    && (name in w.inFlight ==> next.inFlight[name] == w.inFlight[name])
    && (forall p :: name in Reservations(next, p) <==> name in Reservations(w, p))
  }

  /** The entries under one name's keys. */
  ghost predicate SameEntriesAt(w: World, next: World, name: string) {
    && (forall u :: Key(u, name) in next.index <==> Key(u, name) in w.index)
    && (forall u :: Key(u, name) in w.index ==> next.index[Key(u, name)] == w.index[Key(u, name)])
  }

  /** The stores as one name sees them. */
  ghost predicate SameAt(w: World, next: World, name: string) {
    SameObjectAt(w, next, name) && SameEntriesAt(w, next, name)
  }

  lemma SettleKeepsObject(w: World, stores: World, other: string, after: Option<Request>, name: string)
    requires OnlyTouches(w, stores, other) && other != name
    ensures SameObjectAt(w, Settle(stores, other, after), name)
  {
    var next := Settle(stores, other, after);
    assert Do(next, name) == Do(stores, name);
    assert forall p :: Reservations(next, p) == Reservations(stores, p);
  }

  /** Whatever happens to another name, this one keeps its object, its request and its places. */
  lemma OthersKeepObject(w: World, a: Action, name: string, limit: int)
    requires Subject(a) != name
    ensures SameObjectAt(w, Next(w, a, limit), name)
  {
    var other := Subject(a);
    if a.Proceed? {
      if other in w.inFlight {
        StepTouchesOneName(w, other, w.inFlight[other], a.v, limit);
        var (stores, after) := Step(w, other, w.inFlight[other], a.v, limit);
        SettleKeepsObject(w, stores, other, after, name);
      }
    } else if a.ForwardMcp? {
      SameQuotaSameLists(w, Next(w, a, limit));
    } else if Next(w, a, limit) != w {
      var after := if a.Abandon? then None else Some(Next(w, a, limit).inFlight[other]);
      assert Next(w, a, limit) == Settle(w, other, after);
      SettleKeepsObject(w, w, other, after, name);
    }
  }

  // ---------------------------------------------------------------------------
  // Strays: the session route on a published name writes an entry under the
  // logical id it finds there, and that id may be somebody else's name

  /** A request on another name that will write no entry under this one. */
  predicate StandsAside(other: string, r: Request, name: string) {
    && (r.DestroyRead? ==> !IdOf(other, name))
    && (r.Stop? || r.Mark? ==> (r.t.mark.Some? ==> r.t.mark.value.sessionId != name))
  }

  predicate AsideAt(w: World, other: string, name: string) {
    other != name && other in w.inFlight ==> StandsAside(other, w.inFlight[other], name)
  }

  ghost predicate NobodyStrays(w: World, name: string) {
    forall other :: AsideAt(w, other, name)
  }

  /** No destroy over the session route is aimed at a published name with this logical id. */
  predicate Considerate(a: Action, name: string) {
    a.StartDestroy? && a.name != name ==> !IdOf(a.name, name)
  }

  predicate AllConsiderate(actions: seq<Action>, name: string) {
    forall i :: 0 <= i < |actions| ==> Considerate(actions[i], name)
  }

  lemma StepStaysAside(w: World, other: string, r: Request, v: Weather, name: string, limit: int)
    requires Fits(w, other, Some(r)) && StandsAside(other, r, name) && other != name
    ensures var after := Step(w, other, r, v, limit).1; after.Some? ==> StandsAside(other, after.value, name)
  {
  }

  lemma OneStaysAside(w: World, a: Action, other: string, name: string, limit: int)
    requires Safe(w, limit) && AsideAt(w, other, name) && Considerate(a, name)
    ensures AsideAt(Next(w, a, limit), other, name)
  {
    var subject := Subject(a);
    if a.Proceed? && subject in w.inFlight {
      StepTouchesOneName(w, subject, w.inFlight[subject], a.v, limit);
      if other == subject && other != name {
        SafeEverywhere(w, limit, other);
        StepStaysAside(w, other, w.inFlight[other], a.v, name, limit);
      }
    }
  }

  lemma ActionStaysAside(w: World, a: Action, name: string, limit: int)
    requires Safe(w, limit) && NobodyStrays(w, name) && Considerate(a, name)
    ensures NobodyStrays(Next(w, a, limit), name)
  {
    forall other
      ensures AsideAt(Next(w, a, limit), other, name)
    {
      assert AsideAt(w, other, name);
      OneStaysAside(w, a, other, name, limit);
    }
  }

  lemma {:induction false} RunStaysAside(w: World, actions: seq<Action>, name: string, limit: int)
    requires Safe(w, limit) && NobodyStrays(w, name) && AllConsiderate(actions, name)
    ensures NobodyStrays(Run(w, actions, limit), name)
    decreases |actions|
  {
    if actions != [] {
      ActionIsSafe(w, actions[0], limit);
      ActionStaysAside(w, actions[0], name, limit);
      RunStaysAside(Next(w, actions[0], limit), actions[1..], name, limit);
    }
  }

  /** A write or delete under one name's key leaves every other name's keys. */
  lemma KeysApart(userA: string, a: string, userB: string, b: string)
    requires a != b
    ensures Key(userA, a) != Key(userB, b)
  {
    if Key(userA, a) == Key(userB, b) {
      I.KeyIsInjective(userA, a, userB, b);
    }
  }

  lemma StepWritesElsewhere(w: World, other: string, r: Request, v: Weather, limit: int, u: string, name: string)
    requires Fits(w, other, Some(r)) && StandsAside(other, r, name) && other != name
    ensures var next := Step(w, other, r, v, limit).0;
            && (Key(u, name) in next.index <==> Key(u, name) in w.index)
            && (Key(u, name) in w.index ==> next.index[Key(u, name)] == w.index[Key(u, name)])
  {
    if !IsIndexCall(r) {
      OtherCallsKeepIndex(w, other, r, v, limit);
    } else if r.Index? {
      KeysApart(u, name, r.state.userId, other);
    } else if r.UndoUnindex? {
      KeysApart(u, name, r.job.p.userId, other);
    } else if r.Unindex? {
      KeysApart(u, name, r.t.userId, other);
    } else if r.t.mark.Some? {
      KeysApart(u, name, r.t.mark.value.userId, r.t.mark.value.sessionId);
    }
  }

  /** An action about another name, on any route, changes nothing that concerns this one unless it strays. */
  lemma OthersDoNotDisturb(w: World, a: Action, name: string, limit: int)
    requires Safe(w, limit) && AsideAt(w, Subject(a), name) && Subject(a) != name
    ensures SameAt(w, Next(w, a, limit), name)
  {
    var other, next := Subject(a), Next(w, a, limit);
    OthersKeepObject(w, a, name, limit);
    if a.Proceed? && other in w.inFlight {
      SafeEverywhere(w, limit, other);
      forall u
        ensures Key(u, name) in next.index <==> Key(u, name) in w.index
        ensures Key(u, name) in w.index ==> next.index[Key(u, name)] == w.index[Key(u, name)]
      {
        StepWritesElsewhere(w, other, w.inFlight[other], a.v, limit, u, name);
      }
    } else {
      assert next.index == w.index;
    }
  }

  // ---------------------------------------------------------------------------
  // Plans: what a request has reached, by the calls it has left

  /** A destroy of the session found, a published one that found none, a compensation, a create over a name not live. */
  datatype Plan =
    | Destroying(before: C.Durable)
    | Clearing(userId: string)
    | Undoing(job: Job)
    | Creating(job: Job, before: C.Durable, hadPlace: bool)

  predicate TeardownFits(w: World, name: string, t: Teardown) {
    var state := Do(w, name).state;
    && state.Some? && t.userId == state.value.userId && t.principal == PrincipalOf(name, t.userId)
    && t.mark.Some? && t.mark.value.sessionId == name
  }

  predicate Unlisted(w: World, name: string, userId: string) {
    Key(userId, name) !in w.index
  }

  /** The end of a destroy, as far as no other name can interfere: stopped, and not counted. */
  predicate StoppedAndReleased(w: World, name: string) {
    var state := Do(w, name).state;
    && state.Some? && state.value.status == Stopped
    && name !in Reservations(w, PrincipalOf(name, state.value.userId))
  }

  /** The whole end of a destroy: also not listed under the owner. */
  predicate Gone(w: World, name: string) {
    StoppedAndReleased(w, name) && Unlisted(w, name, Do(w, name).state.value.userId)
  }

  /** `watched`: nobody strays, so that the entries are under the request's control as well. */
  predicate DestroyStage(w: World, name: string, before: C.Durable, left: nat, watched: bool) {
    && C.SameOwner(before, Do(w, name))
    && if left == 0 then
         name !in w.inFlight && StoppedAndReleased(w, name) && (watched ==> Gone(w, name))
       else
         name in w.inFlight &&
         var r := w.inFlight[name];
         if left == 5 then (r.DestroyRead? && !IsPublishedScopedId(name)) || (r.RemoveRead? && RequestFits(w, name, r))
         else if left == 4 then r.Stop? && TeardownFits(w, name, r.t)
         else if left == 3 then r.Mark? && TeardownFits(w, name, r.t) && !Do(w, name).Live()
         else if left == 2 then r.Unindex? && TeardownFits(w, name, r.t) && !Do(w, name).Live()
         else if left == 1 then
           && r.Release? && TeardownFits(w, name, r.t) && !Do(w, name).Live()
           && (watched ==> Unlisted(w, name, r.t.userId))
         else false
  }

  /** A published destroy that finds no state has nothing to mark, and still releases the place. */
  predicate ClearStage(w: World, name: string, userId: string, left: nat, watched: bool) {
    var t := Teardown(userId, PrincipalOf(name, ""), None);
    && Do(w, name).state.None? && IsPublishedScopedId(name)
    && if left == 0 then
         name !in w.inFlight && name !in Reservations(w, t.principal) && (watched ==> Unlisted(w, name, userId))
       else
         name in w.inFlight &&
         var r := w.inFlight[name];
         if left == 4 then r.RemoveRead? && RequestFits(w, name, r) && r.pub.p.userId == userId
         else if left == 3 then r == Stop(t)
         else if left == 2 then r == Unindex(t)
         else if left == 1 then r == Release(t) && (watched ==> Unlisted(w, name, userId))
         else false
  }

  /** Nothing of a session that never became visible. */
  predicate Undone(w: World, name: string, job: Job, watched: bool) {
    !Do(w, name).Live() && name !in Reservations(w, job.principal) && (watched ==> Unlisted(w, name, job.p.userId))
  }

  predicate UndoStage(w: World, name: string, job: Job, left: nat, watched: bool) {
    if left == 0 then name !in w.inFlight && Undone(w, name, job, watched)
    else
      name in w.inFlight &&
      if left == 3 then w.inFlight[name] == UndoStop(job)
      else if left == 2 then w.inFlight[name] == UndoUnindex(job) && !Do(w, name).Live()
      else if left == 1 then
        w.inFlight[name] == UndoRelease(job) && !Do(w, name).Live() && (watched ==> Unlisted(w, name, job.p.userId))
      else false
  }

  predicate Standing(w: World, name: string, job: Job) {
    Do(w, name).OwnedBy(job.p.userId, job.p.spaceId) && Do(w, name).state.value.status == Active
  }

  predicate ListedAs(w: World, name: string, job: Job)
    requires Do(w, name).state.Some?
  {
    var key := Key(job.p.userId, name);
    key in w.index && w.index[key] == Entry(name, job, Do(w, name).state.value)
  }

  /** A session its owner has: active, counted against the principal, listed under the owner. */
  predicate Visible(w: World, name: string, job: Job, watched: bool) {
    Standing(w, name, job) && name in Reservations(w, job.principal) && (watched ==> ListedAs(w, name, job))
  }

  /** A create that found the list full: nothing about the name has changed. */
  predicate TurnedAway(w: World, name: string, job: Job, before: C.Durable) {
    name !in w.inFlight && Do(w, name) == before && name !in Reservations(w, job.principal)
  }

  predicate CreateStage(w: World, name: string, job: Job, before: C.Durable, hadPlace: bool, left: nat, watched: bool) {
    if left <= 3 && !hadPlace && TurnedAway(w, name, job, before) then true
    else if left == 0 then name !in w.inFlight && Visible(w, name, job, watched)
    else
      name in w.inFlight &&
      var r := w.inFlight[name];
      if left == 5 || left == 4 then
        && Do(w, name) == before && !before.Live() && (hadPlace ==> name in Reservations(w, job.principal))
        && !job.hadLive
        && job.principal == (if job.published then PrincipalOf(name, "") else Q.UserPrincipal(job.p.userId))
        && if left == 4 then r == Reserve(job)
           else if job.published then r.EnsureRead? && r.pub.p == job.p && RequestFits(w, name, r)
           else r.CreateRead? && r.p == job.p
      else if left == 3 then r == Call(job) && !Do(w, name).Live()
      else if left == 2 then r == ReadBack(job) && Standing(w, name, job)
      else if left == 1 then Standing(w, name, job) && r == Index(job, Do(w, name).state.value)
      else false
  }

  predicate Stage(w: World, name: string, plan: Plan, left: nat, watched: bool) {
    match plan
    case Destroying(before) => DestroyStage(w, name, before, left, watched)
    case Clearing(userId) => ClearStage(w, name, userId, left, watched)
    case Undoing(job) => UndoStage(w, name, job, left, watched)
    case Creating(job, before, hadPlace) => CreateStage(w, name, job, before, hadPlace, left, watched)
  }

  lemma DestroyStepAdvances(w: World, name: string, before: C.Durable, v: Weather, left: nat, watched: bool, limit: int)
    requires Safe(w, limit) && DestroyStage(w, name, before, left, watched) && left > 0 && Clean(v)
    ensures DestroyStage(Proceeded(w, name, v, limit), name, before, left - 1, watched)
  {
    SafeEverywhere(w, limit, name);
    var r := w.inFlight[name];
    var next := Step(w, name, r, v, limit).0;
    if left == 1 {
      assert name !in Reservations(next, r.t.principal);
    }
  }

  lemma ClearStepAdvances(w: World, name: string, userId: string, v: Weather, left: nat, watched: bool, limit: int)
    requires ClearStage(w, name, userId, left, watched) && left > 0 && Clean(v)
    ensures ClearStage(Proceeded(w, name, v, limit), name, userId, left - 1, watched)
  {
    if left == 4 {
      ScopedNameFits(w.inFlight[name].pub);
    }
  }

  lemma UndoStepAdvances(w: World, name: string, job: Job, v: Weather, left: nat, watched: bool, limit: int)
    requires UndoStage(w, name, job, left, watched) && left > 0 && Clean(v)
    ensures UndoStage(Proceeded(w, name, v, limit), name, job, left - 1, watched)
  {
  }

  lemma AdmissionAdvances(w: World, name: string, plan: Plan, v: Weather, left: nat, watched: bool, limit: int)
    requires Safe(w, limit) && plan.Creating? && Stage(w, name, plan, left, watched) && 4 <= left && Clean(v)
    ensures Stage(Proceeded(w, name, v, limit), name, plan, left - 1, watched)
  {
    SafeEverywhere(w, limit, name);
    var next := Proceeded(w, name, v, limit);
    assert Do(next, name) == Do(w, name);
    if left == 5 && plan.job.published {
      ScopedNameFits(w.inFlight[name].pub);
    }
  }

  lemma CreateStepAdvances(w: World, name: string, plan: Plan, v: Weather, left: nat, watched: bool, limit: int)
    requires Safe(w, limit) && plan.Creating? && Stage(w, name, plan, left, watched) && 0 < left <= 3 && Clean(v)
    ensures Stage(Proceeded(w, name, v, limit), name, plan, left - 1, watched)
  {
    SafeEverywhere(w, limit, name);
    var next := Proceeded(w, name, v, limit);
    assert Reservations(next, plan.job.principal) == Reservations(w, plan.job.principal);
  }

  /** A call without a fault brings its request one stage on. */
  lemma StageAdvances(w: World, name: string, plan: Plan, v: Weather, left: nat, watched: bool, limit: int)
    requires Safe(w, limit) && Stage(w, name, plan, left, watched) && left > 0 && Clean(v)
    ensures Stage(Proceeded(w, name, v, limit), name, plan, left - 1, watched)
  {
    match plan {
      case Destroying(before) => DestroyStepAdvances(w, name, before, v, left, watched, limit);
      case Clearing(userId) => ClearStepAdvances(w, name, userId, v, left, watched, limit);
      case Undoing(job) => UndoStepAdvances(w, name, job, v, left, watched, limit);
      case Creating(_, _, _) =>
        if left >= 4 {
          AdmissionAdvances(w, name, plan, v, left, watched, limit);
        } else {
          CreateStepAdvances(w, name, plan, v, left, watched, limit);
        }
    }
  }

  /** A stage depends only on what other names leave alone. */
  lemma StageSurvives(w: World, next: World, name: string, plan: Plan, left: nat, watched: bool)
    requires Stage(w, name, plan, left, watched)
    requires SameObjectAt(w, next, name) && (watched ==> SameEntriesAt(w, next, name))
    ensures Stage(next, name, plan, left, watched)
  {
  }

  function LeftAfter(name: string, a: Action, left: nat): nat {
    if Subject(a) == name && left > 0 then left - 1 else left
  }

  lemma StagedAction(w: World, name: string, plan: Plan, a: Action, left: nat, watched: bool, limit: int)
    requires Safe(w, limit) && Stage(w, name, plan, left, watched)
    requires Subject(a) == name ==> a.Proceed? && Clean(a.v)
    requires watched ==> NobodyStrays(w, name)
    ensures Stage(Next(w, a, limit), name, plan, LeftAfter(name, a, left), watched)
  {
    if Subject(a) != name {
      OthersKeepObject(w, a, name, limit);
      if watched {
        assert AsideAt(w, Subject(a), name);
        OthersDoNotDisturb(w, a, name, limit);
      }
      StageSurvives(w, Next(w, a, limit), name, plan, left, watched);
    } else if left > 0 {
      StageAdvances(w, name, plan, a.v, left, watched, limit);
    } else {
      assert name !in w.inFlight;
    }
  }

  /** The calls left after a run. */
  function LeftOver(name: string, actions: seq<Action>, left: nat): nat
    decreases |actions|
  {
    if actions == [] then left else LeftOver(name, actions[1..], LeftAfter(name, actions[0], left))
  }

  lemma {:induction false} EnoughCalls(name: string, actions: seq<Action>, left: nat)
    requires OnlyCleanCalls(name, actions) && CallsOn(name, actions) >= left
    ensures LeftOver(name, actions, left) == 0
    decreases |actions|
  {
    if actions != [] {
      EnoughCalls(name, actions[1..], LeftAfter(name, actions[0], left));
    }
  }

  /** Whatever the others do, a request whose own calls meet no fault goes through its plan. */
  lemma {:induction false} StagedRun(
    w: World, name: string, plan: Plan, actions: seq<Action>, left: nat, watched: bool, limit: int)
    requires Safe(w, limit) && Stage(w, name, plan, left, watched) && OnlyCleanCalls(name, actions)
    requires watched ==> NobodyStrays(w, name) && AllConsiderate(actions, name)
    ensures Stage(Run(w, actions, limit), name, plan, LeftOver(name, actions, left), watched)
    decreases |actions|
  {
    if actions != [] {
      var a := actions[0];
      StagedAction(w, name, plan, a, left, watched, limit);
      ActionIsSafe(w, a, limit);
      if watched {
        ActionStaysAside(w, a, name, limit);
      }
      StagedRun(Next(w, a, limit), name, plan, actions[1..], LeftAfter(name, a, left), watched, limit);
    }
  }

  /** Both at once: what holds whatever the others do, and what holds while nobody strays. */
  lemma PlanEnds(w: World, name: string, plan: Plan, actions: seq<Action>, left: nat, limit: int)
    requires Safe(w, limit) && Stage(w, name, plan, left, true) && Stage(w, name, plan, left, false)
    requires OnlyCleanCalls(name, actions) && CallsOn(name, actions) >= left
    ensures Stage(Run(w, actions, limit), name, plan, 0, false)
    ensures NobodyStrays(w, name) && AllConsiderate(actions, name) ==>
              Stage(Run(w, actions, limit), name, plan, 0, true)
  {
    EnoughCalls(name, actions, left);
    StagedRun(w, name, plan, actions, left, false, limit);
    if NobodyStrays(w, name) && AllConsiderate(actions, name) {
      StagedRun(w, name, plan, actions, left, true, limit);
    }
  }

  // ---------------------------------------------------------------------------
  // Destroy

  /** Starting a destroy of a stored session over the route of its name. */
  predicate StartsOwnDestroy(a: Action, name: string) {
    Subject(a) == name && match a
    case StartDestroy(_) => ValidSessionId(name) && !IsPublishedScopedId(name)
    case StartRemove(pub) => AcceptablePublished(pub)
    case _ => false
  }

  lemma StartedDestroy(w: World, name: string, start: Action, actions: seq<Action>, limit: int)
    requires Safe(w, limit) && name !in w.inFlight && Do(w, name).state.Some? && StartsOwnDestroy(start, name)
    requires OnlyCleanCalls(name, actions) && CallsOn(name, actions) >= 5
    ensures var end := Run(Next(w, start, limit), actions, limit);
            && name !in end.inFlight && StoppedAndReleased(end, name) && C.SameOwner(Do(w, name), Do(end, name))
            && (NobodyStrays(w, name) && AllConsiderate(actions, name) ==> Gone(end, name))
  {
    var begun := Next(w, start, limit);
    ActionIsSafe(w, start, limit);
    if NobodyStrays(w, name) {
      ActionStaysAside(w, start, name, limit);
    }
    PlanEnds(begun, name, Destroying(Do(w, name)), actions, 5, limit);
  }

  /**
   * From every reachable state with a stored session, a destroy on the name's own
   * route whose five calls meet no fault ends stopped and released for the owner it
   * had, whatever happens to other names. It also ends unlisted, as long as no
   * session-route destroy of a published name with this logical id is under way.
   */
  lemma DestroyRecovers(w: World, name: string, start: Action, actions: seq<Action>, limit: int)
    requires 0 <= limit && Reachable(w, limit)
    requires name !in w.inFlight && Do(w, name).state.Some? && StartsOwnDestroy(start, name)
    requires OnlyCleanCalls(name, actions) && CallsOn(name, actions) >= 5
    ensures var end := Run(Next(w, start, limit), actions, limit);
            && name !in end.inFlight && StoppedAndReleased(end, name) && C.SameOwner(Do(w, name), Do(end, name))
            && (NobodyStrays(w, name) && AllConsiderate(actions, name) ==> Gone(end, name))
  {
    ReachableIsSafe(w, limit);
    StartedDestroy(w, name, start, actions, limit);
  }

  /** Another name's request writes its stopped entry for this owner under this name. */
  predicate StrayMarks(w: World, a: Action, name: string, owner: string) {
    && a.Proceed? && a.name != name && a.name in w.inFlight && !a.v.delivery.LostBefore?
    && var r := w.inFlight[a.name];
       r.Mark? && r.t.mark.Some? && r.t.mark.value.sessionId == name && r.t.mark.value.userId == owner
  }

  lemma SameKeySameUser(a: string, b: string, name: string)
    ensures Key(a, name) == Key(b, name) <==> a == b
  {
    if Key(a, name) == Key(b, name) {
      I.KeyIsInjective(a, name, b, name);
    }
  }

  lemma IndexCallLists(w: World, other: string, v: Weather, name: string, owner: string, limit: int)
    requires other in w.inFlight && Fits(w, other, Some(w.inFlight[other])) && other != name
    requires IsIndexCall(w.inFlight[other])
    ensures Key(owner, name) in Proceeded(w, other, v, limit).index <==>
            Key(owner, name) in w.index || StrayMarks(w, Proceed(other, v), name, owner)
  {
    var r := w.inFlight[other];
    if r.Index? {
      KeysApart(owner, name, r.state.userId, other);
    } else if r.UndoUnindex? {
      KeysApart(owner, name, r.job.p.userId, other);
    } else if r.Unindex? {
      KeysApart(owner, name, r.t.userId, other);
    } else if r.t.mark.Some? && r.t.mark.value.sessionId == name {
      SameKeySameUser(owner, r.t.mark.value.userId, name);
    } else if r.t.mark.Some? {
      KeysApart(owner, name, r.t.mark.value.userId, r.t.mark.value.sessionId);
    }
  }

  /** Nothing else about other names touches the owner's key, on any route and with any fault. */
  lemma OnlyStraysList(w: World, a: Action, name: string, owner: string, limit: int)
    requires Safe(w, limit) && Subject(a) != name
    ensures Key(owner, name) in Next(w, a, limit).index <==>
            Key(owner, name) in w.index || StrayMarks(w, a, name, owner)
  {
    var other := Subject(a);
    if a.Proceed? && other in w.inFlight {
      SafeEverywhere(w, limit, other);
      if IsIndexCall(w.inFlight[other]) {
        IndexCallLists(w, other, a.v, name, owner, limit);
      } else {
        OtherCallsKeepIndex(w, other, w.inFlight[other], a.v, limit);
      }
    }
  }

  /** A stray marks the name once the destroy has unlisted it. */
  predicate ListedAgain(w: World, name: string, owner: string, actions: seq<Action>, left: nat, limit: int)
    decreases |actions|
  {
    && actions != []
    && (|| (left <= 1 && StrayMarks(w, actions[0], name, owner))
        || ListedAgain(Next(w, actions[0], limit), name, owner, actions[1..], LeftAfter(name, actions[0], left), limit))
  }

  lemma OwnCallUnlists(w: World, name: string, before: C.Durable, v: Weather, left: nat, limit: int)
    requires Safe(w, limit) && DestroyStage(w, name, before, left, false) && left > 0 && Clean(v)
    ensures var key := Key(before.state.value.userId, name);
            left <= 2 ==> (key in Proceeded(w, name, v, limit).index <==> left == 1 && key in w.index)
  {
    var r, next := w.inFlight[name], Proceeded(w, name, v, limit);
    if left == 2 {
      assert next.index == WithoutEntry(w, r.t.userId, name).index;
    } else if left == 1 {
      assert next.index == w.index;
    }
  }

  lemma {:induction false} UnlistedUntilMarked(
    w: World, name: string, before: C.Durable, actions: seq<Action>, left: nat, limit: int)
    requires Safe(w, limit) && DestroyStage(w, name, before, left, false) && OnlyCleanCalls(name, actions)
    ensures var key, owner := Key(before.state.value.userId, name), before.state.value.userId;
            LeftOver(name, actions, left) <= 1 ==>
              (key in Run(w, actions, limit).index <==>
               (left <= 1 && key in w.index) || ListedAgain(w, name, owner, actions, left, limit))
    decreases |actions|
  {
    if actions != [] {
      var a := actions[0];
      if Subject(a) != name {
        OnlyStraysList(w, a, name, before.state.value.userId, limit);
      } else if left > 0 {
        OwnCallUnlists(w, name, before, a.v, left, limit);
      }
      StagedAction(w, name, Destroying(before), a, left, false, limit);
      ActionIsSafe(w, a, limit);
      UnlistedUntilMarked(Next(w, a, limit), name, before, actions[1..], LeftAfter(name, a, left), limit);
    }
  }

  /** Exactly when: the destroy is complete if and only if no stray marks the name for its owner after the unlisting. */
  lemma DestroyIsCompleteExactly(w: World, name: string, start: Action, actions: seq<Action>, limit: int)
    requires 0 <= limit && Reachable(w, limit)
    requires name !in w.inFlight && Do(w, name).state.Some? && StartsOwnDestroy(start, name)
    requires OnlyCleanCalls(name, actions) && CallsOn(name, actions) >= 5
    ensures var begun, owner := Next(w, start, limit), Do(w, name).state.value.userId;
            Gone(Run(begun, actions, limit), name) <==> !ListedAgain(begun, name, owner, actions, 5, limit)
  {
    ReachableIsSafe(w, limit);
    ActionIsSafe(w, start, limit);
    StartedDestroy(w, name, start, actions, limit);
    EnoughCalls(name, actions, 5);
    UnlistedUntilMarked(Next(w, start, limit), name, Do(w, name), actions, 5, limit);
  }

  /**
   * A published destroy on its own route whose calls meet no fault ends uncounted from
   * every reachable state at rest, whatever the object holds: a session, a tombstone, or
   * nothing, as after a create whose compensation was cut off.
   */
  lemma RemoveEndsUncounted(w: World, pub: Published, actions: seq<Action>, limit: int)
    requires 0 <= limit && Reachable(w, limit) && AcceptablePublished(pub) && ScopedId(pub) !in w.inFlight
    requires OnlyCleanCalls(ScopedId(pub), actions) && CallsOn(ScopedId(pub), actions) >= 5
    ensures var name, end := ScopedId(pub), Run(Next(w, StartRemove(pub), limit), actions, limit);
            && name !in end.inFlight && !Do(end, name).Live()
            && name !in Reservations(end, Q.PublishedPrincipal(pub.namespace))
  {
    var name, start := ScopedId(pub), StartRemove(pub);
    ReachableIsSafe(w, limit);
    ScopedNameFits(pub);
    if Do(w, name).state.Some? {
      StartedDestroy(w, name, start, actions, limit);
    } else {
      ActionIsSafe(w, start, limit);
      PlanEnds(Next(w, start, limit), name, Clearing(pub.p.userId), actions, 4, limit);
    }
  }

  // ---------------------------------------------------------------------------
  // Failed attempts

  predicate IsTeardown(r: Request) {
    r.DestroyRead? || r.RemoveRead? || r.Stop? || r.Mark? || r.Unindex? || r.Release?
  }

  /** Attempts on a name: destroys on either route, with any fault or none, cut off anywhere, and forwarded traffic. */
  predicate OnlyAttempts(name: string, actions: seq<Action>) {
    forall i :: 0 <= i < |actions| && Subject(actions[i]) == name ==>
      !actions[i].StartCreate? && !actions[i].StartEnsure?
  }

  predicate OnlyTeardownAt(w: World, name: string) {
    name in w.inFlight ==> IsTeardown(w.inFlight[name])
  }

  lemma TeardownStepKeepsTombstone(w: World, name: string, r: Request, v: Weather, limit: int)
    requires IsTeardown(r) && Do(w, name).state.Some?
    ensures var (next, after) := Step(w, name, r, v, limit);
            C.SameOwner(Do(w, name), Do(next, name)) && (after.Some? ==> IsTeardown(after.value))
  {
  }

  lemma AttemptKeepsTombstone(w: World, name: string, a: Action, limit: int)
    requires Do(w, name).state.Some? && OnlyTeardownAt(w, name)
    requires Subject(a) == name ==> !a.StartCreate? && !a.StartEnsure?
    ensures C.SameOwner(Do(w, name), Do(Next(w, a, limit), name)) && OnlyTeardownAt(Next(w, a, limit), name)
  {
    if Subject(a) != name {
      OthersKeepObject(w, a, name, limit);
    } else if a.Proceed? && name in w.inFlight {
      TeardownStepKeepsTombstone(w, name, w.inFlight[name], a.v, limit);
    }
  }

  /** No attempt at a destroy, however it fails, erases the owner the retry needs. */
  lemma {:induction false} AttemptsKeepTombstone(w: World, name: string, actions: seq<Action>, limit: int)
    requires Do(w, name).state.Some? && OnlyTeardownAt(w, name) && OnlyAttempts(name, actions)
    ensures C.SameOwner(Do(w, name), Do(Run(w, actions, limit), name))
    ensures OnlyTeardownAt(Run(w, actions, limit), name)
    decreases |actions|
  {
    if actions != [] {
      AttemptKeepsTombstone(w, name, actions[0], limit);
      AttemptsKeepTombstone(Next(w, actions[0], limit), name, actions[1..], limit);
    }
  }

  /** Any number of failed destroys on either route, then one on its own without a fault: the cleanup is complete. */
  lemma RetryFinishesCleanup(
    w: World, name: string, attempts: seq<Action>, start: Action, actions: seq<Action>, limit: int)
    requires 0 <= limit && Reachable(w, limit) && Do(w, name).state.Some? && OnlyTeardownAt(w, name)
    requires OnlyAttempts(name, attempts) && name !in Run(w, attempts, limit).inFlight
    requires StartsOwnDestroy(start, name)
    requires OnlyCleanCalls(name, actions) && CallsOn(name, actions) >= 5
    ensures var end := Run(Next(Run(w, attempts, limit), start, limit), actions, limit);
            && name !in end.inFlight && StoppedAndReleased(end, name) && C.SameOwner(Do(w, name), Do(end, name))
            && (NobodyStrays(w, name) && AllConsiderate(attempts, name) && AllConsiderate(actions, name) ==>
                  Gone(end, name))
  {
    ReachableIsSafe(w, limit);
    RunIsSafe(w, attempts, limit);
    AttemptsKeepTombstone(w, name, attempts, limit);
    if NobodyStrays(w, name) && AllConsiderate(attempts, name) {
      RunStaysAside(w, attempts, name, limit);
    }
    StartedDestroy(Run(w, attempts, limit), name, start, actions, limit);
  }

  // ---------------------------------------------------------------------------
  // Compensation

  /** A create that failed and whose three compensating calls meet no fault leaves nothing behind. */
  lemma CompensationUndoes(w: World, name: string, job: Job, actions: seq<Action>, limit: int)
    requires Safe(w, limit) && name in w.inFlight && w.inFlight[name] == UndoStop(job)
    requires OnlyCleanCalls(name, actions) && CallsOn(name, actions) >= 3
    ensures var end := Run(w, actions, limit);
            && name !in end.inFlight && !Do(end, name).Live() && name !in Reservations(end, job.principal)
            && (NobodyStrays(w, name) && AllConsiderate(actions, name) ==> Unlisted(end, name, job.p.userId))
  {
    PlanEnds(w, name, Undoing(job), actions, 3, limit);
  }

  // ---------------------------------------------------------------------------
  // Create

  /** Starting a create or an ensure on the route of the name, and what it asks for. */
  predicate StartsOwnCreate(a: Action, name: string, job: Job) {
    Subject(a) == name && match a
    case StartCreate(scope, p) =>
      var q := ResolvedPayload(scope, p);
      Acceptable(scope, q) && job == Job(q, Q.UserPrincipal(q.userId), false, false)
    case StartEnsure(pub) =>
      AcceptablePublished(pub) && job == Job(pub.p, Q.PublishedPrincipal(pub.namespace), true, false)
    case _ => false
  }

  /**
   * From every reachable state, a create or ensure over a name that is not live, whose
   * five calls meet no fault, ends with a session its owner has, or was turned away by a
   * full list with nothing changed; a name that holds its place is never turned away.
   */
  lemma CreateIsVisibleOrTurnedAway(w: World, name: string, start: Action, job: Job, actions: seq<Action>, limit: int)
    requires 0 <= limit && Reachable(w, limit) && name !in w.inFlight && !Do(w, name).Live()
    requires StartsOwnCreate(start, name, job)
    requires OnlyCleanCalls(name, actions) && CallsOn(name, actions) >= 5
    ensures var end := Run(Next(w, start, limit), actions, limit);
            && name !in end.inFlight
            && (|| Visible(end, name, job, NobodyStrays(w, name) && AllConsiderate(actions, name))
                || (TurnedAway(end, name, job, Do(w, name)) && name !in Reservations(w, job.principal)))
  {
    ReachableIsSafe(w, limit);
    ActionIsSafe(w, start, limit);
    var begun := Next(w, start, limit);
    if start.StartEnsure? {
      ScopedNameFits(start.pub);
    }
    if NobodyStrays(w, name) {
      ActionStaysAside(w, start, name, limit);
    }
    PlanEnds(begun, name, Creating(job, Do(w, name), name in Reservations(w, job.principal)), actions, 5, limit);
  }

  /** Once the place is reserved, nobody is turned away. */
  lemma ReservedCreateBecomesVisible(w: World, name: string, job: Job, actions: seq<Action>, limit: int)
    requires Safe(w, limit) && name in w.inFlight && w.inFlight[name] == Call(job) && !Do(w, name).Live()
    requires OnlyCleanCalls(name, actions) && CallsOn(name, actions) >= 3
    ensures var end := Run(w, actions, limit);
            name !in end.inFlight && Visible(end, name, job, NobodyStrays(w, name) && AllConsiderate(actions, name))
  {
    PlanEnds(w, name, Creating(job, Do(w, name), true), actions, 3, limit);
  }

  // ---------------------------------------------------------------------------
  // The host route on a published name

  /** The next calls of the request on a name, with nobody in between. */
  function Calls(w: World, name: string, v: Weather, count: nat, limit: int): World
    decreases count
  {
    if count == 0 then w else Calls(Proceeded(w, name, v, limit), name, v, count - 1, limit)
  }

  const DESTROY_CALLS := 5

  /** The session route's destroy with no fault and nobody in between. */
  function HostDestroyed(w: World, name: string, v: Weather, limit: int): World {
    Calls(Next(w, StartDestroy(name), limit), name, v, DESTROY_CALLS, limit)
  }

  lemma PrincipalsApart(userId: string, namespace: string)
    ensures Q.UserPrincipal(userId) != Q.PublishedPrincipal(namespace)
  {
    assert Q.UserPrincipal(userId)[0] == 'u' && Q.PublishedPrincipal(namespace)[0] == 'p';
  }

  lemma {:induction false} CallsFinishDestroy(
    w: World, name: string, before: C.Durable, v: Weather, left: nat, limit: int)
    requires Safe(w, limit) && DestroyStage(w, name, before, left, true) && Clean(v)
    ensures DestroyStage(Calls(w, name, v, left, limit), name, before, 0, true)
    decreases left
  {
    if left > 0 {
      DestroyStepAdvances(w, name, before, v, left, true, limit);
      StepIsSafe(w, name, v, limit);
      CallsFinishDestroy(Proceeded(w, name, v, limit), name, before, v, left - 1, limit);
    }
  }

  /** On a host name the route is complete. */
  lemma HostDestroyOfHostName(w: World, name: string, v: Weather, limit: int)
    requires Safe(w, limit) && name !in w.inFlight && Do(w, name).state.Some? && Clean(v)
    requires ValidSessionId(name) && !IsPublishedScopedId(name)
    ensures name !in HostDestroyed(w, name, v, limit).inFlight && Gone(HostDestroyed(w, name, v, limit), name)
  {
    ActionIsSafe(w, StartDestroy(name), limit);
    CallsFinishDestroy(Next(w, StartDestroy(name), limit), name, Do(w, name), v, DESTROY_CALLS, limit);
  }

  function HostTeardown(state: SessionState): Teardown {
    Teardown(state.userId, Q.UserPrincipal(state.userId), Some(state.(status := Stopped)))
  }

  /**
   * The same five calls on a published name: the published reservation is never the
   * one released, and the entry written is the one under the logical id.
   */
  predicate StrayStage(w: World, name: string, state: SessionState, reserved: bool, left: nat) {
    var t, d, key := HostTeardown(state), Do(w, name), Key(state.userId, state.sessionId);
    && (name in Reservations(w, PrincipalOf(name, state.userId)) <==> reserved)
    && d.state == Some(if left >= 4 then state else state.(status := Stopped))
    && (left < 3 ==> key in w.index && w.index[key] == state.(status := Stopped))
    && (left < 2 ==> Unlisted(w, name, state.userId))
    && (left > 0 <==> name in w.inFlight)
    && (left == 5 ==> w.inFlight[name] == DestroyRead)
    && (left == 4 ==> w.inFlight[name] == Stop(t))
    && (left == 3 ==> w.inFlight[name] == Mark(t))
    && (left == 2 ==> w.inFlight[name] == Unindex(t))
    && (left == 1 ==> w.inFlight[name] == Release(t))
  }

  lemma StrayStepAdvances(
    w: World, name: string, state: SessionState, reserved: bool, v: Weather, left: nat, limit: int)
    requires 1 <= left <= 5 && StrayStage(w, name, state, reserved, left) && Clean(v)
    requires IsPublishedScopedId(name) && state.sessionId != name
    ensures StrayStage(Proceeded(w, name, v, limit), name, state, reserved, left - 1)
  {
    PrincipalsApart(state.userId, NamespaceOf(name));
    KeysApart(state.userId, name, state.userId, state.sessionId);
    var next := Step(w, name, w.inFlight[name], v, limit).0;
    var p := PrincipalOf(name, state.userId);
    assert Reservations(next, p) == Reservations(w, p);
  }

  lemma {:induction false} StrayCalls(
    w: World, name: string, state: SessionState, reserved: bool, v: Weather, left: nat, limit: int)
    requires left <= DESTROY_CALLS && StrayStage(w, name, state, reserved, left) && Clean(v)
    requires IsPublishedScopedId(name) && state.sessionId != name
    ensures StrayStage(Calls(w, name, v, left, limit), name, state, reserved, 0)
    decreases left
  {
    if left > 0 {
      StrayStepAdvances(w, name, state, reserved, v, left, limit);
      StrayCalls(Proceeded(w, name, v, limit), name, state, reserved, v, left - 1, limit);
    }
  }

  /** On a published name it releases the wrong principal and leaves an entry under the logical id. */
  lemma HostDestroyOfPublishedName(w: World, name: string, v: Weather, limit: int)
    requires Safe(w, limit) && name !in w.inFlight && Do(w, name).state.Some? && Clean(v)
    requires ValidSessionId(name) && IsPublishedScopedId(name)
    ensures var end, state := HostDestroyed(w, name, v, limit), Do(w, name).state.value;
            && name !in end.inFlight && Do(end, name).state == Some(state.(status := Stopped))
            && (name in Reservations(end, PrincipalOf(name, state.userId)) <==>
                name in Reservations(w, PrincipalOf(name, state.userId)))
            && Unlisted(end, name, state.userId)
            && var key := Key(state.userId, state.sessionId);
               key in end.index && end.index[key] == state.(status := Stopped)
  {
    SafeEverywhere(w, limit, name);
    var state := Do(w, name).state.value;
    var reserved := name in Reservations(w, PrincipalOf(name, state.userId));
    assert |name| != |state.sessionId|;
    var begun, p := Next(w, StartDestroy(name), limit), PrincipalOf(name, state.userId);
    assert Reservations(begun, p) == Reservations(w, p);
    StrayCalls(begun, name, state, reserved, v, DESTROY_CALLS, limit);
  }

  /**
   * A fault-free destroy over the session route leaves a stored session, live or a
   * tombstone, unlisted under its own name and uncounted exactly on the names the route
   * can create and on published ones whose reservation was gone before.
   */
  lemma HostDestroyReleasesExactly(w: World, name: string, v: Weather, limit: int)
    requires 0 <= limit && Reachable(w, limit)
    requires name !in w.inFlight && Do(w, name).state.Some? && ValidSessionId(name) && Clean(v)
    ensures Gone(HostDestroyed(w, name, v, limit), name) <==>
            || !IsPublishedScopedId(name)
            || name !in Reservations(w, PrincipalOf(name, Do(w, name).state.value.userId))
  {
    ReachableIsSafe(w, limit);
    if IsPublishedScopedId(name) {
      HostDestroyOfPublishedName(w, name, v, limit);
    } else {
      HostDestroyOfHostName(w, name, v, limit);
    }
  }

  /** Nothing is left of a session but its tombstone: no place, no key, and its state is nowhere in the index. */
  ghost predicate CleanedUp(w: World, name: string) {
    Gone(w, name) && forall key :: key in w.index ==> w.index[key] != Do(w, name).state.value
  }

  /** It finishes the cleanup exactly on the names it can create. */
  lemma HostDestroyIsCompleteExactlyOnHostNames(w: World, name: string, v: Weather, limit: int)
    requires 0 <= limit && Reachable(w, limit)
    requires name !in w.inFlight && Do(w, name).state.Some? && ValidSessionId(name) && Clean(v)
    ensures CleanedUp(HostDestroyed(w, name, v, limit), name) <==> !IsPublishedScopedId(name)
  {
    ReachableIsSafe(w, limit);
    var end := HostDestroyed(w, name, v, limit);
    if IsPublishedScopedId(name) {
      HostDestroyOfPublishedName(w, name, v, limit);
    } else {
      HostDestroyOfHostName(w, name, v, limit);
      HostDestroyIsSafe(w, name, v, limit);
      SafeEverywhere(end, limit, name);
      forall key | key in end.index
        ensures end.index[key] != Do(end, name).state.value
      {
        assert key == Key(end.index[key].userId, end.index[key].sessionId);
      }
    }
  }

  lemma {:induction false} CallsAreSafe(w: World, name: string, v: Weather, count: nat, limit: int)
    requires Safe(w, limit)
    ensures Safe(Calls(w, name, v, count, limit), limit)
    decreases count
  {
    if count > 0 {
      ActionIsSafe(w, Proceed(name, v), limit);
      CallsAreSafe(Next(w, Proceed(name, v), limit), name, v, count - 1, limit);
    }
  }

  lemma HostDestroyIsSafe(w: World, name: string, v: Weather, limit: int)
    requires Safe(w, limit)
    ensures Safe(HostDestroyed(w, name, v, limit), limit)
  {
    ActionIsSafe(w, StartDestroy(name), limit);
    CallsAreSafe(Next(w, StartDestroy(name), limit), name, v, DESTROY_CALLS, limit);
  }

  lemma {:induction false} IdleCalls(w: World, name: string, v: Weather, count: nat, limit: int)
    requires name !in w.inFlight
    ensures Calls(w, name, v, count, limit) == w
    decreases count
  {
    if count > 0 {
      IdleCalls(w, name, v, count - 1, limit);
    }
  }

  lemma TeardownKeepsOtherPlaces(
    w: World, name: string, before: C.Durable, v: Weather, left: nat, principal: string, limit: int)
    requires DestroyStage(w, name, before, left, true) && left > 0
    requires principal != PrincipalOf(name, before.state.value.userId)
    ensures Reservations(Proceeded(w, name, v, limit), principal) == Reservations(w, principal)
  {
    var r, next := w.inFlight[name], Proceeded(w, name, v, limit);
    if left > 1 {
      assert next.quota == w.quota;
    } else {
      assert r.Release? && r.t.principal != principal;
    }
  }

  lemma {:induction false} CallsKeepOtherPlaces(
    w: World, name: string, before: C.Durable, v: Weather, left: nat, principal: string, limit: int)
    requires Safe(w, limit) && DestroyStage(w, name, before, left, true) && Clean(v)
    requires principal != PrincipalOf(name, before.state.value.userId)
    ensures name in Reservations(Calls(w, name, v, left, limit), principal) <==> name in Reservations(w, principal)
    decreases left
  {
    if left > 0 {
      DestroyStepAdvances(w, name, before, v, left, true, limit);
      StepIsSafe(w, name, v, limit);
      TeardownKeepsOtherPlaces(w, name, before, v, left, principal, limit);
      CallsKeepOtherPlaces(Proceeded(w, name, v, limit), name, before, v, left - 1, principal, limit);
    }
  }

  /**
   * Over the session route a host name ends uncounted under a user exactly when that
   * user is the stored owner or had no place; a blank object is reported not found and
   * everything, a place left by a cut-off create included, stays.
   */
  lemma HostDestroyUncountsExactly(w: World, name: string, v: Weather, user: string, limit: int)
    requires Safe(w, limit) && name !in w.inFlight && Clean(v)
    requires ValidSessionId(name) && !IsPublishedScopedId(name)
    ensures var state := Do(w, name).state;
            name !in Reservations(HostDestroyed(w, name, v, limit), Q.UserPrincipal(user)) <==>
            (state.Some? && state.value.userId == user) || name !in Reservations(w, Q.UserPrincipal(user))
    ensures Do(w, name).state.None? ==> HostDestroyed(w, name, v, limit) == w
  {
    var begun := Next(w, StartDestroy(name), limit);
    ActionIsSafe(w, StartDestroy(name), limit);
    if Do(w, name).state.None? {
      assert Proceeded(begun, name, v, limit) == w;
      IdleCalls(w, name, v, DESTROY_CALLS - 1, limit);
    } else {
      HostDestroyOfHostName(w, name, v, limit);
      var owner := Do(w, name).state.value.userId;
      CallsFinishDestroy(begun, name, Do(w, name), v, DESTROY_CALLS, limit);
      if owner != user {
        assert Q.UserPrincipal(owner)[5..] == owner && Q.UserPrincipal(user)[5..] == user;
        CallsKeepOtherPlaces(begun, name, Do(w, name), v, DESTROY_CALLS, Q.UserPrincipal(user), limit);
      }
    }
  }

  /** For a live session that is: exactly when the name is not a published one. */
  lemma HostDestroyOfLiveSession(w: World, name: string, v: Weather, limit: int)
    requires 0 <= limit && Reachable(w, limit)
    requires name !in w.inFlight && Do(w, name).Live() && ValidSessionId(name) && Clean(v)
    ensures Gone(HostDestroyed(w, name, v, limit), name) <==> !IsPublishedScopedId(name)
  {
    ReachableIsSafe(w, limit);
    assert OwnerReserved(w, name);
    HostDestroyReleasesExactly(w, name, v, limit);
  }

  lemma HostDestroyTouchesOneObject(w: World, stray: string, v: Weather, name: string, limit: int)
    requires stray != name
    ensures Do(HostDestroyed(w, stray, v, limit), name) == Do(w, name)
  {
    OthersKeepObject(w, StartDestroy(stray), name, limit);
    CallsKeepObject(Next(w, StartDestroy(stray), limit), stray, v, DESTROY_CALLS, name, limit);
  }

  lemma {:induction false} CallsKeepObject(w: World, other: string, v: Weather, count: nat, name: string, limit: int)
    requires other != name
    ensures Do(Calls(w, other, v, count, limit), name) == Do(w, name)
    decreases count
  {
    if count > 0 {
      OthersKeepObject(w, Proceed(other, v), name, limit);
      CallsKeepObject(Proceeded(w, other, v, limit), other, v, count - 1, name, limit);
    }
  }

  /**
   * The entry it leaves may be somebody else's: a session of the same user that was
   * gone, under the logical id as its name, is listed again, stopped. The condition on
   * strays in the theorems above is needed.
   */
  lemma StrayDestroyListsAgain(w: World, stray: string, v: Weather, limit: int)
    requires Safe(w, limit) && stray !in w.inFlight && Do(w, stray).state.Some? && Clean(v)
    requires ValidSessionId(stray) && IsPublishedScopedId(stray)
    requires var name := Do(w, stray).state.value.sessionId;
             Gone(w, name) && Do(w, name).state.value.userId == Do(w, stray).state.value.userId
    ensures var name, end := Do(w, stray).state.value.sessionId, HostDestroyed(w, stray, v, limit);
            var key := Key(Do(w, name).state.value.userId, name);
            && Do(end, name) == Do(w, name) && !Gone(end, name)
            && key in end.index && end.index[key].status == Stopped
  {
    SafeEverywhere(w, limit, stray);
    var name := Do(w, stray).state.value.sessionId;
    assert |stray| != |name|;
    HostDestroyOfPublishedName(w, stray, v, limit);
    HostDestroyTouchesOneObject(w, stray, v, name, limit);
  }
}
