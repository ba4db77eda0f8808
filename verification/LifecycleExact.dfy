// A name whose own calls never fail, on its own route: whenever it is at rest,
// the index and the lists say exactly what its object says, whatever befalls others.
module LifecycleExact {
  import opened Prelude
  import opened SessionTypes
  import opened LifecycleProtocol
  import opened LifecycleSafety
  import opened LifecycleRecovery
  import C = SessionContainer
  import Q = SessionQuota
  import I = SessionIndex

  /** A session is destroyed over the route that created it. */
  predicate OwnRoute(a: Action) {
    a.StartDestroy? ==> !IsPublishedScopedId(a.name)
  }

  /** A request on its own route writes the index under its own name. */
  predicate OnOwnRoute(name: string, r: Request) {
    && (r.DestroyRead? ==> !IsPublishedScopedId(name))
    && (r.Stop? || r.Mark? ==> (r.t.mark.Some? ==> r.t.mark.value.sessionId == name))
  }

  predicate OnOwnRouteAt(w: World, name: string) {
    name in w.inFlight ==> OnOwnRoute(name, w.inFlight[name])
  }

  /** An action on its own route, without a fault. Forwarded traffic may fail as it likes. */
  predicate Smooth(a: Action) {
    OwnRoute(a) && !a.Abandon? && (a.Proceed? ==> Clean(a.v))
  }

  predicate SmoothOn(name: string, actions: seq<Action>) {
    forall i :: 0 <= i < |actions| && Subject(actions[i]) == name ==> Smooth(actions[i])
  }

  predicate AllSmooth(actions: seq<Action>) {
    forall i :: 0 <= i < |actions| ==> Smooth(actions[i])
  }

  /** The entry a live session should have. */
  function Listed(name: string, state: SessionState): SessionState {
    if IsPublishedScopedId(name) then state.(sessionId := name) else state
  }

  /** The owner's key is the only one of this name's keys that can be in the index. */
  ghost predicate KeysWithin(w: World, name: string, userId: string) {
    forall u :: Key(u, name) in w.index ==> u == userId
  }

  ghost predicate NoKeys(w: World, name: string) {
    forall u :: Key(u, name) !in w.index
  }

  ghost predicate PlacesWithin(w: World, name: string, principal: string) {
    forall p :: name in Reservations(w, p) ==> p == principal
  }

  ghost predicate NoPlaces(w: World, name: string) {
    forall p :: name !in Reservations(w, p)
  }

  /** Live: listed once, counted once. Not live: neither. */
  ghost predicate Exact(w: World, name: string) {
    var d := Do(w, name);
    if d.Live() then
      var state := d.state.value;
      && state.status == Active
      && KeysWithin(w, name, state.userId)
      && Key(state.userId, name) in w.index && w.index[Key(state.userId, name)] == Listed(name, state)
      && PlacesWithin(w, name, PrincipalOf(name, state.userId))
      && name in Reservations(w, PrincipalOf(name, state.userId))
    else NoKeys(w, name) && NoPlaces(w, name)
  }

  /** A session that stands, possibly not yet listed. */
  ghost predicate StandingAlone(w: World, name: string, job: Job) {
    var d := Do(w, name);
    && d.Live() && d.state.value.status == Active && d.state.value.userId == job.p.userId
    && KeysWithin(w, name, job.p.userId)
    && PlacesWithin(w, name, job.principal) && name in Reservations(w, job.principal)
  }

  /** What holds of a name while its request is under way. */
  ghost predicate Midway(w: World, name: string, r: Request) {
    var d := Do(w, name);
    match r
    case CreateRead(_, _) => Exact(w, name)
    case EnsureRead(_) => Exact(w, name)
    case DestroyRead => Exact(w, name)
    case RemoveRead(_) => Exact(w, name)
    case TouchReserve(job) =>
      Exact(w, name) && d.Live() && job.principal == PrincipalOf(name, d.state.value.userId)
    case Reserve(job) => Exact(w, name) && (d.Live() ==> d.state.value.userId == job.p.userId)
    case Call(job) =>
      if d.Live() then Exact(w, name) && d.state.value.userId == job.p.userId
      else NoKeys(w, name) && PlacesWithin(w, name, job.principal)
    case ReadBack(job) => StandingAlone(w, name, job)
    case Index(job, state) => StandingAlone(w, name, job) && d.state == Some(state)
    case Stop(t) =>
      && Exact(w, name) && t.principal == PrincipalOf(name, t.userId)
      && (d.state.Some? ==> t.userId == d.state.value.userId)
      && (t.mark.Some? ==> t.mark.value.userId == t.userId)
    case Mark(t) =>
      && KeysWithin(w, name, t.userId) && PlacesWithin(w, name, t.principal)
      && (t.mark.Some? ==> t.mark.value.userId == t.userId)
    case Unindex(t) => KeysWithin(w, name, t.userId) && PlacesWithin(w, name, t.principal)
    case Release(t) => NoKeys(w, name) && PlacesWithin(w, name, t.principal)
    case _ => false
  }

  ghost predicate ExactAt(w: World, name: string) {
    if name in w.inFlight then Midway(w, name, w.inFlight[name]) else Exact(w, name)
  }

  // ---------------------------------------------------------------------------
  // Steps

  /** After a step: the rest of the request, or rest. */
  ghost predicate Onward(w: World, name: string, r: Option<Request>) {
    if r.Some? then Midway(w, name, r.value) else Exact(w, name)
  }

  lemma SmoothRead(w: World, name: string, r: Request, v: Weather, limit: int)
    requires Fits(w, name, Some(r)) && OnOwnRoute(name, r) && Midway(w, name, r) && Clean(v) && IsRead(r)
    ensures var (next, after) := Step(w, name, r, v, limit); next == w && Onward(w, name, after)
  {
  }

  lemma SmoothReserve(w: World, name: string, job: Job, v: Weather, limit: int)
    requires Fits(w, name, Some(Reserve(job))) && Midway(w, name, Reserve(job)) && Clean(v)
    ensures var (next, after) := StepReserve(w, name, job, v.delivery, limit); Onward(next, name, after)
  {
    var (next, after) := StepReserve(w, name, job, v.delivery, limit);
    assert Do(next, name) == Do(w, name);
    assert forall p :: p != job.principal ==> Reservations(next, p) == Reservations(w, p);
    assert after.None? ==> Reservations(next, job.principal) == Reservations(w, job.principal);
  }

  lemma SmoothTouch(w: World, name: string, job: Job, v: Weather, limit: int)
    requires Fits(w, name, Some(TouchReserve(job))) && Midway(w, name, TouchReserve(job)) && Clean(v)
    ensures var (next, after) := StepTouchReserve(w, name, job, v.delivery, limit); Onward(next, name, after)
  {
    var next := StepTouchReserve(w, name, job, v.delivery, limit).0;
    assert Do(next, name) == Do(w, name);
    assert forall p :: Reservations(next, p) == Reservations(w, p);
  }

  lemma SmoothCall(w: World, name: string, job: Job, v: Weather)
    requires Fits(w, name, Some(Call(job))) && Midway(w, name, Call(job)) && Clean(v)
    ensures var (next, after) := StepCall(w, name, job, v); Onward(next, name, after)
  {
    var (next, after) := StepCall(w, name, job, v);
    assert forall p :: Reservations(next, p) == Reservations(w, p);
  }

  lemma SmoothIndex(w: World, name: string, job: Job, state: SessionState, v: Weather)
    requires Fits(w, name, Some(Index(job, state))) && Midway(w, name, Index(job, state)) && Clean(v)
    ensures var (next, after) := StepIndex(w, name, job, state, v.delivery); Onward(next, name, after)
  {
    var next := StepIndex(w, name, job, state, v.delivery).0;
    assert Do(next, name) == Do(w, name);
    assert forall p :: Reservations(next, p) == Reservations(w, p);
    forall u | Key(u, name) in next.index
      ensures u == state.userId
    {
      SameKeySameUser(u, state.userId, name);
    }
  }

  lemma SmoothStop(w: World, name: string, t: Teardown, v: Weather)
    requires Fits(w, name, Some(Stop(t))) && Midway(w, name, Stop(t)) && Clean(v)
    ensures var (next, after) := StepStop(w, name, if t.mark.Some? then Mark(t) else Unindex(t), v);
            Onward(next, name, after)
  {
    var next := StepStop(w, name, if t.mark.Some? then Mark(t) else Unindex(t), v).0;
    assert forall p :: Reservations(next, p) == Reservations(w, p);
  }

  lemma SmoothMark(w: World, name: string, t: Teardown, v: Weather)
    requires Midway(w, name, Mark(t)) && OnOwnRoute(name, Mark(t)) && Clean(v)
    ensures var (next, after) := StepMark(w, t, v.delivery); Onward(next, name, after)
  {
    var next := StepMark(w, t, v.delivery).0;
    assert forall p :: Reservations(next, p) == Reservations(w, p);
    forall u | Key(u, name) in next.index
      ensures u == t.userId
    {
      SameKeySameUser(u, t.userId, name);
    }
  }

  lemma SmoothUnindex(w: World, name: string, t: Teardown, v: Weather)
    requires Midway(w, name, Unindex(t)) && Clean(v)
    ensures var (next, after) := StepUnindex(w, name, t.userId, Release(t), v.delivery); Onward(next, name, after)
  {
    var next := StepUnindex(w, name, t.userId, Release(t), v.delivery).0;
    assert forall p :: Reservations(next, p) == Reservations(w, p);
  }

  lemma SmoothRelease(w: World, name: string, t: Teardown, v: Weather)
    requires Fits(w, name, Some(Release(t))) && Midway(w, name, Release(t)) && Clean(v)
    ensures var (next, after) := StepRelease(w, name, t.principal, v.delivery); Onward(next, name, after)
  {
    var next := StepRelease(w, name, t.principal, v.delivery).0;
    assert Do(next, name) == Do(w, name);
    assert forall p :: p != t.principal ==> Reservations(next, p) == Reservations(w, p);
  }

  lemma SmoothStep(w: World, name: string, r: Request, v: Weather, limit: int)
    requires Fits(w, name, Some(r)) && OnOwnRoute(name, r) && Midway(w, name, r) && Clean(v)
    ensures var (next, after) := Step(w, name, r, v, limit); Onward(next, name, after)
  {
    if IsRead(r) {
      SmoothRead(w, name, r, v, limit);
    } else {
      match r {
        case Reserve(job) => SmoothReserve(w, name, job, v, limit);
        case TouchReserve(job) => SmoothTouch(w, name, job, v, limit);
        case Call(job) => SmoothCall(w, name, job, v);
        case Index(job, state) => SmoothIndex(w, name, job, state, v);
        case Stop(t) => SmoothStop(w, name, t, v);
        case Mark(t) => SmoothMark(w, name, t, v);
        case Unindex(t) => SmoothUnindex(w, name, t, v);
        case Release(t) => SmoothRelease(w, name, t, v);
        case _ =>
      }
    }
  }

  // ---------------------------------------------------------------------------
  // Runs

  lemma SameAtKeepsExact(w: World, next: World, name: string)
    requires SameAt(w, next, name) && ExactAt(w, name)
    ensures ExactAt(next, name)
  {
  }

  lemma SettledOnward(stores: World, name: string, r: Option<Request>)
    requires Onward(stores, name, r)
    ensures ExactAt(Settle(stores, name, r), name)
  {
    var next := Settle(stores, name, r);
    assert Do(next, name) == Do(stores, name);
    assert forall p :: Reservations(next, p) == Reservations(stores, p);
  }

  /** A forward finds a live session active, or a session that is gone, and changes neither. */
  lemma ForwardChangesNothing(w: World, name: string, v: Weather, limit: int)
    requires ExactAt(w, name) && SafeAt(w, name)
    ensures SameAt(w, Next(w, ForwardMcp(name, v), limit), name)
  {
    var next := Next(w, ForwardMcp(name, v), limit);
    assert forall p :: Reservations(next, p) == Reservations(w, p);
    if name in w.inFlight {
      var r := w.inFlight[name];
      assert Midway(w, name, r);
    }
  }

  lemma SmoothSubject(w: World, a: Action, limit: int)
    requires Safe(w, limit) && ExactAt(w, Subject(a)) && OnOwnRouteAt(w, Subject(a)) && Smooth(a)
    ensures ExactAt(Next(w, a, limit), Subject(a))
  {
    var next, name := Next(w, a, limit), Subject(a);
    SafeEverywhere(w, limit, name);
    if a.Proceed? {
      if name in w.inFlight {
        SmoothStep(w, name, w.inFlight[name], a.v, limit);
        var (stores, r) := Step(w, name, w.inFlight[name], a.v, limit);
        SettledOnward(stores, name, r);
      }
    } else if a.ForwardMcp? {
      ForwardChangesNothing(w, name, a.v, limit);
      SameAtKeepsExact(w, next, name);
    } else if next != w {
      SettledOnward(w, name, Some(next.inFlight[name]));
    }
  }

  lemma SmoothStaysOnRoute(w: World, a: Action, limit: int)
    requires Safe(w, limit) && OnOwnRouteAt(w, Subject(a)) && OwnRoute(a)
    ensures OnOwnRouteAt(Next(w, a, limit), Subject(a))
  {
    var name := Subject(a);
    if a.Proceed? && name in w.inFlight {
      SafeEverywhere(w, limit, name);
      StepTouchesOneName(w, name, w.inFlight[name], a.v, limit);
      StepStaysOnRoute(w, name, w.inFlight[name], a.v, limit);
    }
  }

  lemma StepStaysOnRoute(w: World, name: string, r: Request, v: Weather, limit: int)
    requires Fits(w, name, Some(r)) && OnOwnRoute(name, r)
    ensures var after := Step(w, name, r, v, limit).1; after.Some? ==> OnOwnRoute(name, after.value)
  {
  }

  /** A name in step with the stores, and nobody else about to write under it. */
  ghost predicate InStep(w: World, name: string) {
    ExactAt(w, name) && OnOwnRouteAt(w, name) && NobodyStrays(w, name)
  }

  /** Whatever the action, smooth if it is about this name, considerate if not: the name stays in step. */
  lemma ActionKeepsStep(w: World, a: Action, name: string, limit: int)
    requires Safe(w, limit) && InStep(w, name) && Considerate(a, name)
    requires Subject(a) == name ==> Smooth(a)
    ensures InStep(Next(w, a, limit), name)
  {
    ActionStaysAside(w, a, name, limit);
    if Subject(a) == name {
      SmoothSubject(w, a, limit);
      SmoothStaysOnRoute(w, a, limit);
    } else {
      assert AsideAt(w, Subject(a), name);
      OthersDoNotDisturb(w, a, name, limit);
      SameAtKeepsExact(w, Next(w, a, limit), name);
    }
  }

  lemma {:induction false} RunKeepsStep(w: World, actions: seq<Action>, name: string, limit: int)
    requires Safe(w, limit) && InStep(w, name) && SmoothOn(name, actions) && AllConsiderate(actions, name)
    ensures Safe(Run(w, actions, limit), limit) && InStep(Run(w, actions, limit), name)
    decreases |actions|
  {
    if actions != [] {
      ActionIsSafe(w, actions[0], limit);
      ActionKeepsStep(w, actions[0], name, limit);
      RunKeepsStep(Next(w, actions[0], limit), actions[1..], name, limit);
    }
  }

  /**
   * A name whose own actions are smooth is, whenever it is at rest, listed once and
   * counted once if it is live, and neither if not. Other names may fail, be abandoned
   * and be destroyed on any route, as long as no such destroy finds this logical id.
   */
  lemma UndisturbedNameIsExact(actions: seq<Action>, name: string, limit: int)
    requires 0 <= limit && SmoothOn(name, actions) && AllConsiderate(actions, name)
    requires name !in Run(EMPTY, actions, limit).inFlight
    ensures Exact(Run(EMPTY, actions, limit), name)
  {
    RunKeepsStep(EMPTY, actions, name, limit);
  }

  lemma SmoothIsConsiderate(actions: seq<Action>, name: string)
    requires AllSmooth(actions)
    ensures SmoothOn(name, actions) && AllConsiderate(actions, name)
  {
    forall i | 0 <= i < |actions|
      ensures Considerate(actions[i], name)
    {
      assert Smooth(actions[i]);
    }
  }

  // ---------------------------------------------------------------------------
  // Quiet systems

  /** The end of a run without faults and off-route destroys, with nobody under way. */
  ghost predicate Quiet(w: World, limit: int) {
    0 <= limit && w.inFlight == map[] && exists actions :: AllSmooth(actions) && w == Run(EMPTY, actions, limit)
  }

  lemma QuietIsExact(w: World, name: string, limit: int)
    requires Quiet(w, limit)
    ensures Safe(w, limit) && Exact(w, name)
  {
    var actions :| AllSmooth(actions) && w == Run(EMPTY, actions, limit);
    SmoothIsConsiderate(actions, name);
    RunKeepsStep(EMPTY, actions, name, limit);
  }

  /** A principal's list is its live sessions: nothing leaks. */
  lemma ListsCountLiveSessions(w: World, principal: string, limit: int)
    requires Quiet(w, limit)
    ensures Q.Members(Reservations(w, principal)) == LiveUnder(w, principal)
    ensures |Reservations(w, principal)| == |LiveUnder(w, principal)|
  {
    QuietIsExact(w, "", limit);
    forall name
      ensures name in Reservations(w, principal) <==> name in LiveUnder(w, principal)
    {
      QuietIsExact(w, name, limit);
    }
    assert Q.Members(Reservations(w, principal)) == LiveUnder(w, principal);
    Q.MembersCount(Reservations(w, principal));
  }

  /** A state is in the index of a quiet system exactly when it is the entry of a live session. */
  lemma EntriesAreLive(w: World, key: string, limit: int)
    requires Quiet(w, limit) && key in w.index
    ensures var name := w.index[key].sessionId;
            Do(w, name).Live() && w.index[key] == Listed(name, Do(w, name).state.value)
  {
    var entry := w.index[key];
    QuietIsExact(w, entry.sessionId, limit);
    assert key == Key(entry.userId, entry.sessionId);
  }

  /** The list route of a quiet system shows a caller exactly the live sessions that are the caller's to see. */
  lemma ListingShowsLiveSessions(w: World, scope: Scope, order: seq<string>, state: SessionState, limit: int)
    requires Quiet(w, limit) && I.Enumerates(order, w.index)
    ensures var d := Do(w, state.sessionId);
            state in I.VisibleTo(scope, I.ValuesAt(I.KeysUnder(order, I.ScopePrefix(scope)), w.index)) <==>
            && (scope.Gui? ==> GuiOwns(scope.session, state))
            && d.Live() && state == Listed(state.sessionId, d.state.value)
  {
    var name := state.sessionId;
    QuietIsExact(w, name, limit);
    I.PrefixListingIsFilteredScan(scope, order, w.index);
    I.VisibleMembers(scope, I.ValuesAt(order, w.index), state);
    I.ValuesAtMembers(order, w.index, state);
    if exists key :: key in order && key in w.index && w.index[key] == state {
      var key :| key in order && key in w.index && w.index[key] == state;
      EntriesAreLive(w, key, limit);
    }
    if Do(w, name).Live() && state == Listed(name, Do(w, name).state.value) {
      assert Key(state.userId, name) in order && w.index[Key(state.userId, name)] == state;
    }
  }

  // ---------------------------------------------------------------------------
  // Off its route

  /** A fault-free session-route destroy of a live session leaves its name exact exactly when it is no published one. */
  lemma HostDestroyIsExactOnHostNames(w: World, name: string, v: Weather, limit: int)
    requires Safe(w, limit) && Exact(w, name) && name !in w.inFlight
    requires Do(w, name).Live() && ValidSessionId(name) && Clean(v)
    ensures Exact(HostDestroyed(w, name, v, limit), name) <==> !IsPublishedScopedId(name)
  {
    if IsPublishedScopedId(name) {
      HostDestroyOfPublishedName(w, name, v, limit);
    } else {
      HostDestroyKeepsStep(w, name, v, limit);
    }
  }

  lemma {:induction false} CallsKeepStep(w: World, name: string, v: Weather, count: nat, limit: int)
    requires Safe(w, limit) && ExactAt(w, name) && OnOwnRouteAt(w, name) && Clean(v)
    ensures ExactAt(Calls(w, name, v, count, limit), name)
    decreases count
  {
    if count > 0 {
      var go := Proceed(name, v);
      ActionIsSafe(w, go, limit);
      SmoothSubject(w, go, limit);
      SmoothStaysOnRoute(w, go, limit);
      CallsKeepStep(Next(w, go, limit), name, v, count - 1, limit);
    }
  }

  lemma HostDestroyKeepsStep(w: World, name: string, v: Weather, limit: int)
    requires Safe(w, limit) && Exact(w, name) && name !in w.inFlight
    requires Do(w, name).state.Some? && ValidSessionId(name) && !IsPublishedScopedId(name) && Clean(v)
    ensures Exact(HostDestroyed(w, name, v, limit), name)
  {
    var start := StartDestroy(name);
    ActionIsSafe(w, start, limit);
    SmoothSubject(w, start, limit);
    SmoothStaysOnRoute(w, start, limit);
    CallsKeepStep(Next(w, start, limit), name, v, DESTROY_CALLS, limit);
    HostDestroyOfHostName(w, name, v, limit);
  }

  lemma LogicalIdIsUnique(name: string, a: string, b: string)
    requires IdOf(name, a) && IdOf(name, b)
    ensures a == b
  {
    if IsPublishedScopedId(name) {
      assert name[|name| - |a|..] == a && name[|name| - |b|..] == b;
      assert |a| == |b|;
    }
  }

  lemma {:induction false} CallsDoNotDisturb(
    w: World, other: string, v: Weather, count: nat, name: string, limit: int)
    requires Safe(w, limit) && other != name && AsideAt(w, other, name)
    ensures SameAt(w, Calls(w, other, v, count, limit), name)
    decreases count
  {
    if count > 0 {
      var go := Proceed(other, v);
      ActionIsSafe(w, go, limit);
      OneStaysAside(w, go, other, name, limit);
      OthersDoNotDisturb(w, go, name, limit);
      CallsDoNotDisturb(Next(w, go, limit), other, v, count - 1, name, limit);
    }
  }

  lemma StoredElsewhereDoesNotDisturb(w: World, stray: string, v: Weather, name: string, limit: int)
    requires Safe(w, limit) && stray !in w.inFlight && Do(w, stray).state.Some? && ValidSessionId(stray)
    requires name != stray && Do(w, stray).state.value.sessionId != name
    ensures SameAt(w, HostDestroyed(w, stray, v, limit), name)
  {
    var start := StartDestroy(stray);
    SafeEverywhere(w, limit, stray);
    if IdOf(stray, name) {
      LogicalIdIsUnique(stray, name, Do(w, stray).state.value.sessionId);
      assert false;
    }
    ActionIsSafe(w, start, limit);
    OneStaysAside(w, start, stray, name, limit);
    OthersDoNotDisturb(w, start, name, limit);
    CallsDoNotDisturb(Next(w, start, limit), stray, v, DESTROY_CALLS, name, limit);
  }

  /**
   * A fault-free session-route destroy leaves another name exact, live or not, whoever
   * owns either, if and only if the id stored behind the destroyed name is not that
   * other name. All other requests may be anywhere.
   */
  lemma HostDestroySparesOthersExactly(w: World, stray: string, v: Weather, name: string, limit: int)
    requires Safe(w, limit) && stray !in w.inFlight && Do(w, stray).state.Some? && Clean(v) && ValidSessionId(stray)
    requires name != stray && name !in w.inFlight && Exact(w, name)
    ensures Exact(HostDestroyed(w, stray, v, limit), name) <==> Do(w, stray).state.value.sessionId != name
  {
    var state, end := Do(w, stray).state.value, HostDestroyed(w, stray, v, limit);
    if state.sessionId != name {
      StoredElsewhereDoesNotDisturb(w, stray, v, name, limit);
      assert ExactAt(w, name);
      SameAtKeepsExact(w, end, name);
    } else {
      SafeEverywhere(w, limit, stray);
      HostDestroyOfPublishedName(w, stray, v, limit);
      HostDestroyTouchesOneObject(w, stray, v, name, limit);
      assert Key(state.userId, name) in end.index && !end.index[Key(state.userId, name)].Live();
    }
  }

  /** In particular a live session of the same user has its own entry replaced by a stopped one. */
  lemma StrayDestroyMarksLiveSession(w: World, stray: string, v: Weather, limit: int)
    requires Safe(w, limit) && stray !in w.inFlight && Do(w, stray).state.Some? && Clean(v)
    requires ValidSessionId(stray) && IsPublishedScopedId(stray)
    requires var name := Do(w, stray).state.value.sessionId;
             && Exact(w, name) && Do(w, name).Live()
             && Do(w, name).state.value.userId == Do(w, stray).state.value.userId
    ensures var name, end := Do(w, stray).state.value.sessionId, HostDestroyed(w, stray, v, limit);
            var key := Key(Do(w, name).state.value.userId, name);
            && Do(end, name) == Do(w, name) && Do(end, name).Live()
            && w.index[key].Live() && key in end.index && !end.index[key].Live()
            && !Exact(end, name)
  {
    SafeEverywhere(w, limit, stray);
    var name := Do(w, stray).state.value.sessionId;
    assert |stray| != |name|;
    HostDestroyOfPublishedName(w, stray, v, limit);
    HostDestroyTouchesOneObject(w, stray, v, name, limit);
  }
}
