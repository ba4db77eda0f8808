// What every step of the lifecycle keeps, and the cap that follows from it.
module LifecycleSafety {
  import opened Prelude
  import opened SessionTypes
  import opened LifecycleProtocol
  import C = SessionContainer
  import Q = SessionQuota
  import I = SessionIndex

  // ---------------------------------------------------------------------------
  // The invariant

  /** The session id stored behind a name: the name itself, or the logical part of a scoped one. */
  predicate IdOf(name: string, sessionId: string) {
    if IsPublishedScopedId(name) then name == NamespaceOf(name) + ":" + sessionId else sessionId == name
  }

  predicate OwnerReserved(w: World, name: string) {
    Do(w, name).Live() ==> name in Reservations(w, PrincipalOf(name, Do(w, name).state.value.userId))
  }

  ghost predicate LiveIsReserved(w: World) {
    forall name :: OwnerReserved(w, name)
  }

  ghost predicate ListsBounded(w: World, limit: int) {
    forall principal :: Q.Distinct(Reservations(w, principal)) && |Reservations(w, principal)| <= limit
  }

  ghost predicate StatesNamed(w: World) {
    forall name :: Do(w, name).state.Some? ==> IdOf(name, Do(w, name).state.value.sessionId)
  }

  predicate JobFits(name: string, job: Job) {
    && job.published == IsPublishedScopedId(name)
    && job.principal == PrincipalOf(name, job.p.userId)
    && IdOf(name, job.p.sessionId)
    && (job.published ==> !job.hadLive)
  }

  predicate ReservedFor(w: World, name: string, job: Job) {
    JobFits(name, job) && name in Reservations(w, job.principal)
  }

  /** What holds of the stores while a request waits to make its next call. */
  predicate RequestFits(w: World, name: string, r: Request) {
    var d := Do(w, name);
    match r
    case CreateRead(scope, p) =>
      !IsPublishedScopedId(name) && p.sessionId == name && (scope.Gui? ==> p.userId == scope.session.sub)
    case EnsureRead(pub) => name == ScopedId(pub) && ValidNamespace(pub.namespace)
    case RemoveRead(pub) => name == ScopedId(pub) && ValidNamespace(pub.namespace)
    case TouchReserve(job) => JobFits(name, job)
    case Reserve(job) => JobFits(name, job) && job.hadLive == d.Live()
    case Call(job) => ReservedFor(w, name, job) && job.hadLive == d.Live()
    case ReadBack(job) => ReservedFor(w, name, job) && d.Live() && d.OwnedBy(job.p.userId, job.p.spaceId)
    case Index(job, state) =>
      && ReservedFor(w, name, job) && d.Live() && d.OwnedBy(job.p.userId, job.p.spaceId)
      && state.Live() && state.OwnedBy(job.p.userId, job.p.spaceId) && IdOf(name, state.sessionId)
    case UndoStop(job) => JobFits(name, job)
    case UndoUnindex(job) => JobFits(name, job) && !d.Live()
    case UndoRelease(job) => JobFits(name, job) && !d.Live()
    case DestroyRead => true
    case Stop(t) => true
    case Mark(t) => !d.Live()
    case Unindex(t) => !d.Live()
    case Release(t) => !d.Live()
  }

  predicate OwnRequestFits(w: World, name: string) {
    name in w.inFlight ==> RequestFits(w, name, w.inFlight[name])
  }

  ghost predicate RequestsFit(w: World) {
    forall name :: OwnRequestFits(w, name)
  }

  ghost predicate Safe(w: World, limit: int) {
    LiveIsReserved(w) && ListsBounded(w, limit) && StatesNamed(w) && RequestsFit(w) && I.WellKeyed(w.index)
  }

  // ---------------------------------------------------------------------------
  // One name moves, the others stand still

  /** A call about one name: other names keep their objects and their reservations, and gain none. */
  ghost predicate OnlyTouches(w: World, next: World, name: string) {
    && (forall m :: m != name ==> Do(next, m) == Do(w, m))
    && (forall m, p :: m != name ==> (m in Reservations(next, p) <==> m in Reservations(w, p)))
    && next.inFlight == w.inFlight
  }

  /** The parts of Safe that concern one name. */
  predicate SafeAt(w: World, name: string) {
    && OwnerReserved(w, name) && OwnRequestFits(w, name)
    && (Do(w, name).state.Some? ==> IdOf(name, Do(w, name).state.value.sessionId))
  }

  lemma SafeEverywhere(w: World, limit: int, name: string)
    requires Safe(w, limit)
    ensures SafeAt(w, name)
  {
    assert OwnerReserved(w, name) && OwnRequestFits(w, name);
  }

  lemma OthersStaySafe(w: World, next: World, name: string, r: Option<Request>, other: string)
    requires OnlyTouches(w, next, name) && other != name && SafeAt(w, other)
    ensures SafeAt(Settle(next, name, r), other)
  {
    var after := Settle(next, name, r);
    assert Do(after, other) == Do(w, other);
    assert forall p :: Reservations(after, p) == Reservations(next, p);
  }

  lemma SafeByParts(w: World, next: World, name: string, r: Option<Request>, limit: int)
    requires Safe(w, limit) && OnlyTouches(w, next, name) && SafeAt(Settle(next, name, r), name)
    requires ListsBounded(next, limit) && I.WellKeyed(next.index)
    ensures Safe(Settle(next, name, r), limit)
  {
    var after := Settle(next, name, r);
    forall m
      ensures SafeAt(after, m)
    {
      SafeEverywhere(w, limit, m);
      if m != name {
        OthersStaySafe(w, next, name, r, m);
      }
    }
    assert LiveIsReserved(after) by {
      forall m ensures OwnerReserved(after, m) { assert SafeAt(after, m); }
    }
    assert StatesNamed(after) by {
      forall m ensures Do(after, m).state.Some? ==> IdOf(m, Do(after, m).state.value.sessionId) {
        assert SafeAt(after, m);
      }
    }
    assert RequestsFit(after) by {
      forall m ensures OwnRequestFits(after, m) { assert SafeAt(after, m); }
    }
    assert ListsBounded(after, limit) by {
      assert forall p :: Reservations(after, p) == Reservations(next, p);
    }
  }

  lemma ReservingKeepsLists(w: World, principal: string, name: string, limit: int)
    requires ListsBounded(w, limit)
    ensures ListsBounded(WithReservation(w, principal, name, limit), limit)
  {
    var next := WithReservation(w, principal, name, limit);
    forall p
      ensures Q.Distinct(Reservations(next, p)) && |Reservations(next, p)| <= limit
    {
      assert p != principal ==> Reservations(next, p) == Reservations(w, p);
    }
  }

  lemma ReleasingKeepsLists(w: World, principal: string, name: string, limit: int)
    requires ListsBounded(w, limit)
    ensures ListsBounded(WithoutReservation(w, principal, name), limit)
  {
    var next := WithoutReservation(w, principal, name);
    forall p
      ensures Q.Distinct(Reservations(next, p)) && |Reservations(next, p)| <= limit
    {
      assert p != principal ==> Reservations(next, p) == Reservations(w, p);
      Q.WithoutKeepsDistinct(Reservations(w, p), name);
    }
  }

  // ---------------------------------------------------------------------------
  // Every step is safe

  lemma StepTouchesOneName(w: World, name: string, r: Request, v: Weather, limit: int)
    ensures OnlyTouches(w, Step(w, name, r, v, limit).0, name)
  {
  }

  lemma StepKeepsLists(w: World, name: string, r: Request, v: Weather, limit: int)
    requires ListsBounded(w, limit)
    ensures ListsBounded(Step(w, name, r, v, limit).0, limit)
  {
    match r {
      case TouchReserve(job) => ReservingKeepsLists(w, job.principal, name, limit);
      case Reserve(job) => ReservingKeepsLists(w, job.principal, name, limit);
      case UndoRelease(job) => ReleasingKeepsLists(w, job.principal, name, limit);
      case Release(t) => ReleasingKeepsLists(w, t.principal, name, limit);
      case _ =>
        var next := Step(w, name, r, v, limit).0;
        assert next.quota == w.quota;
        SameQuotaSameLists(w, next);
        assert ListsBounded(next, limit) by {
          forall p ensures Q.Distinct(Reservations(next, p)) && |Reservations(next, p)| <= limit {
            assert Reservations(next, p) == Reservations(w, p);
          }
        }
    }
  }

  lemma SameQuotaSameLists(w: World, next: World)
    requires next.quota == w.quota
    ensures forall p :: Reservations(next, p) == Reservations(w, p)
  {
  }

  /** The calls that write or delete an index entry. */
  predicate IsIndexCall(r: Request) {
    r.Index? || r.UndoUnindex? || r.Mark? || r.Unindex?
  }

  lemma OtherCallsKeepIndex(w: World, name: string, r: Request, v: Weather, limit: int)
    requires !IsIndexCall(r)
    ensures Step(w, name, r, v, limit).0.index == w.index
  {
  }

  lemma StepKeepsKeys(w: World, name: string, r: Request, v: Weather, limit: int)
    requires I.WellKeyed(w.index)
    ensures I.WellKeyed(Step(w, name, r, v, limit).0.index)
  {
    if !IsIndexCall(r) {
      OtherCallsKeepIndex(w, name, r, v, limit);
    } else if r.Index? {
      EntryKeepsKeys(w, Entry(name, r.job, r.state));
    } else if r.Mark? && r.t.mark.Some? {
      EntryKeepsKeys(w, r.t.mark.value);
    }
  }

  lemma EntryKeepsKeys(w: World, state: SessionState)
    requires I.WellKeyed(w.index)
    ensures I.WellKeyed(WithEntry(w, state).index)
  {
  }

  /** The facts about one name that a step must leave for the next one. */
  ghost predicate Fits(w: World, name: string, r: Option<Request>) {
    && OwnerReserved(w, name)
    && (Do(w, name).state.Some? ==> IdOf(name, Do(w, name).state.value.sessionId))
    && (r.Some? ==> RequestFits(w, name, r.value))
  }

  /** What a create leaves: the state it met, the same session started, the new session, or nothing. */
  lemma CreateLeaves(d: C.Durable, p: CreatePayload, v: Weather)
    ensures var (next, r) := C.Create(d, p, false, v.token, v.now, v.f);
            && (next.state.Some? ==>
                  || (d.state.Some? && next.state == Some(d.state.value.(status := next.state.value.status))
                      && (next.Live() ==> d.Live()))
                  || (next.OwnedBy(p.userId, p.spaceId) && next.state.value.sessionId == p.sessionId))
            && (r.Ok? ==> next.Live() && next.OwnedBy(p.userId, p.spaceId))
  {
  }

  /** A create that failed is compensated, except where the caller had a live session already. */
  lemma CaughtFits(w: World, name: string, job: Job)
    requires JobFits(name, job)
    ensures Caught(job).Some? ==> RequestFits(w, name, Caught(job).value)
  {
  }

  lemma CallFits(w: World, name: string, job: Job, v: Weather)
    requires Fits(w, name, Some(Call(job)))
    ensures var (next, after) := StepCall(w, name, job, v); Fits(next, name, after)
  {
    if !v.delivery.LostBefore? {
      CreateLeaves(Do(w, name), job.p, v);
      var (d, r) := C.Create(Do(w, name), job.p, false, v.token, v.now, v.f);
      var next := WithDo(w, name, d);
      assert Do(next, name) == d;
      assert next.quota == w.quota;
      assert OwnerReserved(next, name) by {
        assert forall p :: Reservations(next, p) == Reservations(w, p);
      }
      CaughtFits(next, name, job);
    } else {
      CaughtFits(w, name, job);
    }
  }

  lemma StopFits(w: World, name: string, r: Request, after: Request, v: Weather)
    requires Fits(w, name, Some(r))
    requires after.Mark? || after.Unindex? || (after.UndoUnindex? && JobFits(name, after.job))
    ensures var (next, rest) := StepStop(w, name, after, v); Fits(next, name, rest)
  {
    if !v.delivery.LostBefore? {
      var d, stopped := Do(w, name), C.Destroy(Do(w, name), v.f).0;
      var next := WithDo(w, name, stopped);
      C.DestroyKeepsTombstone(d, v.f);
      assert Do(next, name) == stopped;
      assert stopped.Live() ==> stopped == d;
      SameQuotaSameLists(w, next);
    }
  }

  predicate IsRead(r: Request) {
    r.CreateRead? || r.EnsureRead? || r.ReadBack? || r.DestroyRead? || r.RemoveRead?
  }

  /** A scoped name carries its namespace and its logical id. */
  lemma ScopedNameFits(pub: Published)
    requires ValidNamespace(pub.namespace)
    ensures var name := ScopedId(pub);
            IsPublishedScopedId(name) && NamespaceOf(name) == pub.namespace && IdOf(name, pub.p.sessionId)
  {
    assert ScopedId(pub)[..NAMESPACE_LENGTH] == pub.namespace;
  }

  lemma EnsureReadFits(w: World, name: string, pub: Published, v: Weather)
    requires Fits(w, name, Some(EnsureRead(pub)))
    ensures var (next, after) := StepEnsureRead(w, name, pub, v.delivery); next == w && Fits(next, name, after)
  {
    ScopedNameFits(pub);
  }

  /** A read changes no store; what it saw decides what comes next. */
  lemma ReadFits(w: World, name: string, r: Request, v: Weather, limit: int)
    requires Fits(w, name, Some(r)) && IsRead(r)
    ensures var (next, after) := Step(w, name, r, v, limit); next == w && Fits(next, name, after)
  {
    if r.EnsureRead? {
      EnsureReadFits(w, name, r.pub, v);
    }
  }

  lemma ReserveFits(w: World, name: string, job: Job, v: Weather, limit: int)
    requires Fits(w, name, Some(Reserve(job)))
    ensures var (next, after) := StepReserve(w, name, job, v.delivery, limit); Fits(next, name, after)
  {
    var next := WithReservation(w, job.principal, name, limit);
    assert Do(next, name) == Do(w, name);
  }

  lemma TouchFits(w: World, name: string, job: Job, v: Weather, limit: int)
    requires Fits(w, name, Some(TouchReserve(job)))
    ensures var (next, after) := StepTouchReserve(w, name, job, v.delivery, limit); Fits(next, name, after)
  {
    var next := WithReservation(w, job.principal, name, limit);
    assert Do(next, name) == Do(w, name);
  }

  /** Writing or deleting index entries concerns neither objects nor lists. */
  lemma EntryFits(w: World, name: string, r: Request, v: Weather, limit: int)
    requires Fits(w, name, Some(r)) && IsIndexCall(r)
    ensures var (next, after) := Step(w, name, r, v, limit); Fits(next, name, after)
  {
    var next := Step(w, name, r, v, limit).0;
    assert next == w.(index := next.index);
    assert Do(next, name) == Do(w, name);
    assert forall p :: Reservations(next, p) == Reservations(w, p);
  }

  /** A release comes only when the object is stopped. */
  lemma ReleaseFits(w: World, name: string, principal: string, v: Weather)
    requires OwnerReserved(w, name) && !Do(w, name).Live()
    requires Do(w, name).state.Some? ==> IdOf(name, Do(w, name).state.value.sessionId)
    ensures var (next, after) := StepRelease(w, name, principal, v.delivery); Fits(next, name, after)
  {
    assert Do(WithoutReservation(w, principal, name), name) == Do(w, name);
  }

  /** The local assertions carry from call to call, whatever each call does. */
  lemma StepFits(w: World, name: string, r: Request, v: Weather, limit: int)
    requires Fits(w, name, Some(r))
    ensures var (next, after) := Step(w, name, r, v, limit); Fits(next, name, after)
  {
    match r {
      case Call(job) => CallFits(w, name, job, v);
      case Reserve(job) => ReserveFits(w, name, job, v, limit);
      case TouchReserve(job) => TouchFits(w, name, job, v, limit);
      case UndoStop(job) => StopFits(w, name, r, UndoUnindex(job), v);
      case Stop(t) => StopFits(w, name, r, if t.mark.Some? then Mark(t) else Unindex(t), v);
      case UndoRelease(job) => ReleaseFits(w, name, job.principal, v);
      case Release(t) => ReleaseFits(w, name, t.principal, v);
      case Index(_, _) => EntryFits(w, name, r, v, limit);
      case UndoUnindex(_) => EntryFits(w, name, r, v, limit);
      case Mark(_) => EntryFits(w, name, r, v, limit);
      case Unindex(_) => EntryFits(w, name, r, v, limit);
      case _ => ReadFits(w, name, r, v, limit);
    }
  }

  lemma StepIsSafe(w: World, name: string, v: Weather, limit: int)
    requires name in w.inFlight && Safe(w, limit)
    ensures Safe(Proceeded(w, name, v, limit), limit)
  {
    var r := w.inFlight[name];
    SafeEverywhere(w, limit, name);
    StepTouchesOneName(w, name, r, v, limit);
    StepKeepsLists(w, name, r, v, limit);
    StepKeepsKeys(w, name, r, v, limit);
    StepFits(w, name, r, v, limit);
    var (next, after) := Step(w, name, r, v, limit);
    SafeByParts(w, next, name, after, limit);
  }

  /** A forward can start a container; it neither ends a session nor changes whose it is. */
  lemma ForwardKeepsOwner(d: C.Durable, v: Weather)
    ensures var next := C.Forward(d, v.f).0;
            && next.Live() == d.Live() && (next.state.None? <==> d.state.None?)
            && (d.state.Some? ==> C.SameOwner(d, next))
  {
  }

  lemma ForwardIsSafe(w: World, name: string, v: Weather, limit: int)
    requires Safe(w, limit)
    ensures Safe(Next(w, ForwardMcp(name, v), limit), limit)
  {
    if !v.delivery.LostBefore? {
      SafeEverywhere(w, limit, name);
      ForwardKeepsOwner(Do(w, name), v);
      var next := WithDo(w, name, C.Forward(Do(w, name), v.f).0);
      var r := if name in w.inFlight then Some(w.inFlight[name]) else None;
      assert Settle(next, name, r) == next;
      SameQuotaSameLists(w, next);
      assert SafeAt(next, name);
      SafeByParts(w, next, name, r, limit);
    }
  }

  /** Every action keeps the invariant, whatever fails and whoever else is in flight. */
  lemma ActionIsSafe(w: World, a: Action, limit: int)
    requires Safe(w, limit)
    ensures Safe(Next(w, a, limit), limit)
  {
    var name := Subject(a);
    SafeEverywhere(w, limit, name);
    if a.Proceed? {
      if name in w.inFlight {
        StepIsSafe(w, name, a.v, limit);
      }
    } else if a.ForwardMcp? {
      ForwardIsSafe(w, name, a.v, limit);
    } else if Next(w, a, limit) != w {
      var next := Next(w, a, limit);
      var r := if name in next.inFlight then Some(next.inFlight[name]) else None;
      assert Settle(w, name, r) == next;
      assert Do(next, name) == Do(w, name);
      SafeByParts(w, w, name, r, limit);
    }
  }

  lemma {:induction false} RunIsSafe(w: World, actions: seq<Action>, limit: int)
    requires Safe(w, limit)
    ensures Safe(Run(w, actions, limit), limit)
    decreases |actions|
  {
    if actions != [] {
      ActionIsSafe(w, actions[0], limit);
      RunIsSafe(Next(w, actions[0], limit), actions[1..], limit);
    }
  }

  /** The invariant holds in every state the system can reach. */
  lemma ReachableIsSafe(w: World, limit: int)
    requires 0 <= limit && Reachable(w, limit)
    ensures Safe(w, limit)
  {
    var actions :| w == Run(EMPTY, actions, limit);
    RunIsSafe(EMPTY, actions, limit);
  }

  // ---------------------------------------------------------------------------
  // The cap

  /** The live sessions counted against a principal. */
  function LiveUnder(w: World, principal: string): set<string> {
    set name | name in w.dos && Do(w, name).Live()
               && PrincipalOf(name, Do(w, name).state.value.userId) == principal
  }

  /** Live sessions are distinct entries of their principal's list, so the limit bounds them. */
  lemma LiveSessionsAreCapped(w: World, principal: string, limit: int)
    requires 0 <= limit && Reachable(w, limit)
    ensures LiveUnder(w, principal) <= Q.Members(Reservations(w, principal))
    ensures |LiveUnder(w, principal)| <= limit
  {
    ReachableIsSafe(w, limit);
    var live, members := LiveUnder(w, principal), Q.Members(Reservations(w, principal));
    forall name | name in live
      ensures name in members
    {
      assert OwnerReserved(w, name);
    }
    Q.MembersCount(Reservations(w, principal));
    SubsetCount(live, members);
  }

  lemma SubsetCount(a: set<string>, b: set<string>)
    requires a <= b
    ensures |a| <= |b|
  {
    assert b == a + (b - a);
  }

  /** The owner of a live session is admitted again under any limit, and takes no second place. */
  lemma LiveSessionIsNeverRefused(w: World, name: string, limit: int, newLimit: int)
    requires 0 <= limit && Reachable(w, limit) && Do(w, name).Live()
    ensures var ids := Reservations(w, PrincipalOf(name, Do(w, name).state.value.userId));
            Q.ReserveIn(ids, name, newLimit) == (ids, Q.Reservation(true, false, |ids|, newLimit))
  {
    ReachableIsSafe(w, limit);
    assert OwnerReserved(w, name);
  }

  /** The keys of the index belong to the states under them, so owner listings are exact. */
  lemma IndexIsWellKeyed(w: World, limit: int)
    requires 0 <= limit && Reachable(w, limit)
    ensures I.WellKeyed(w.index)
  {
    ReachableIsSafe(w, limit);
  }
}
