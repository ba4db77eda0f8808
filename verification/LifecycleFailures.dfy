// A create that fails: compensated when it was fresh, and without consequence when
// the session was there before.
module LifecycleFailures {
  import opened Prelude
  import opened SessionTypes
  import opened LifecycleProtocol
  import opened LifecycleSafety
  import opened LifecycleRecovery
  import C = SessionContainer
  import Q = SessionQuota

  // ---------------------------------------------------------------------------
  // Fresh creates

  predicate IsCreateCall(r: Request) {
    r.Call? || r.ReadBack? || r.Index?
  }

  function JobOf(r: Request): Job
    requires IsCreateCall(r)
  {
    match r
    case Call(job) => job
    case ReadBack(job) => job
    case Index(job, _) => job
  }

  /** The call of a fresh create goes wrong: it is lost, or the platform fails the object somewhere. */
  predicate CallFails(r: Request, v: Weather) {
    || !v.delivery.Answered?
    || (r.Call? && !(v.f.tokensPut && v.f.startingPut && v.f.start.Started? && v.f.activePut))
  }

  /** Whichever of the three calls of a fresh create goes wrong, and however, its undoing comes next. */
  lemma FailureIsCaught(w: World, name: string, v: Weather, limit: int)
    requires Safe(w, limit) && name in w.inFlight && IsCreateCall(w.inFlight[name])
    requires !JobOf(w.inFlight[name]).hadLive && CallFails(w.inFlight[name], v)
    ensures var next, job := Proceeded(w, name, v, limit), JobOf(w.inFlight[name]);
            name in next.inFlight && next.inFlight[name] == UndoStop(job)
  {
    SafeEverywhere(w, limit, name);
    var r := w.inFlight[name];
    if r.Call? {
      C.FreshCreateSucceedsExactly(Do(w, name), r.job.p, v.token, v.now, v.f);
    }
  }

  /**
   * A fresh create one of whose calls goes wrong, and whose three compensating calls
   * then meet no fault, ends at rest, not live and uncounted, whatever befalls other
   * names, and unlisted if none strays.
   */
  lemma FailedCreateIsUndone(w: World, name: string, v: Weather, actions: seq<Action>, limit: int)
    requires Safe(w, limit) && name in w.inFlight && IsCreateCall(w.inFlight[name])
    requires !JobOf(w.inFlight[name]).hadLive && CallFails(w.inFlight[name], v)
    requires OnlyCleanCalls(name, actions) && CallsOn(name, actions) >= 3
    ensures var end, job := Run(Next(w, Proceed(name, v), limit), actions, limit), JobOf(w.inFlight[name]);
            && name !in end.inFlight && !Do(end, name).Live() && name !in Reservations(end, job.principal)
            && (NobodyStrays(w, name) && AllConsiderate(actions, name) ==> Unlisted(end, name, job.p.userId))
  {
    var go, job := Proceed(name, v), JobOf(w.inFlight[name]);
    FailureIsCaught(w, name, v, limit);
    ActionIsSafe(w, go, limit);
    if NobodyStrays(w, name) {
      ActionStaysAside(w, go, name, limit);
    }
    CompensationUndoes(Next(w, go, limit), name, job, actions, limit);
  }

  // ---------------------------------------------------------------------------
  // Creates over a live session

  /** A request that found the session live, on its way to reuse it. */
  predicate FoundLive(r: Request) {
    match r
    case CreateRead(_, _) => true
    case EnsureRead(_) => true
    case TouchReserve(_) => true
    case Reserve(job) => job.hadLive
    case Call(job) => job.hadLive
    case ReadBack(job) => job.hadLive
    case Index(job, _) => job.hadLive
    case _ => false
  }

  /** The session runs for its owner, with its token and its place. */
  predicate Spared(before: C.Durable, w: World, name: string) {
    && before.Live() && Do(w, name).Live() && C.SameOwner(before, Do(w, name))
    && C.HasUsableToken(before.tokens) && Do(w, name).tokens == before.tokens
    && name in Reservations(w, PrincipalOf(name, before.state.value.userId))
    && (name in w.inFlight ==> FoundLive(w.inFlight[name]))
  }

  /** Nothing in the run is a destroy of the session; creates and ensures may be anybody's and fail anyhow. */
  predicate NoDestroys(name: string, actions: seq<Action>) {
    forall i :: 0 <= i < |actions| && Subject(actions[i]) == name ==>
      !actions[i].StartDestroy? && !actions[i].StartRemove?
  }

  lemma CreateCallSpares(before: C.Durable, w: World, name: string, job: Job, v: Weather)
    requires Spared(before, w, name) && name in w.inFlight && w.inFlight[name] == Call(job)
    ensures var next := C.Create(Do(w, name), job.p, false, v.token, v.now, v.f).0;
            next.Live() && C.SameOwner(before, next) && next.tokens == before.tokens
  {
    var d := Do(w, name);
    if d.OwnedBy(job.p.userId, job.p.spaceId) {
      C.OwnerReusesSession(d, job.p, v.token, v.now, v.f);
    } else {
      C.ForeignCreateChangesNothing(d, job.p, v.token, v.now, v.f);
    }
  }

  lemma StepSpares(before: C.Durable, w: World, name: string, v: Weather, limit: int)
    requires Spared(before, w, name) && name in w.inFlight
    ensures Spared(before, Proceeded(w, name, v, limit), name)
  {
    var r, next := w.inFlight[name], Proceeded(w, name, v, limit);
    var p := PrincipalOf(name, before.state.value.userId);
    if r.Call? {
      CreateCallSpares(before, w, name, r.job, v);
      assert Reservations(next, p) == Reservations(w, p);
    } else if r.Reserve? || r.TouchReserve? {
      assert Do(next, name) == Do(w, name);
    } else {
      assert Do(next, name) == Do(w, name) && Reservations(next, p) == Reservations(w, p);
    }
  }

  lemma ActionSpares(before: C.Durable, w: World, a: Action, name: string, limit: int)
    requires Spared(before, w, name)
    requires Subject(a) == name ==> !a.StartDestroy? && !a.StartRemove?
    ensures Spared(before, Next(w, a, limit), name)
  {
    var next, p := Next(w, a, limit), PrincipalOf(name, before.state.value.userId);
    if Subject(a) != name {
      OthersKeepObject(w, a, name, limit);
    } else if a.Proceed? {
      if name in w.inFlight {
        StepSpares(before, w, name, a.v, limit);
      }
    } else if a.ForwardMcp? {
      C.ForwardAnswersExactly(Do(w, name), a.v.f);
      ForwardKeepsOwner(Do(w, name), a.v);
      SameQuotaSameLists(w, next);
    } else {
      SameQuotaSameLists(w, next);
      assert Do(next, name) == Do(w, name);
    }
  }

  lemma {:induction false} RunSpares(before: C.Durable, w: World, name: string, actions: seq<Action>, limit: int)
    requires Spared(before, w, name) && NoDestroys(name, actions)
    ensures Spared(before, Run(w, actions, limit), name)
    decreases |actions|
  {
    if actions != [] {
      ActionSpares(before, w, actions[0], name, limit);
      RunSpares(before, Next(w, actions[0], limit), name, actions[1..], limit);
    }
  }

  /**
   * No create, ensure or forwarded request, by anybody, with any fault, cut off anywhere,
   * ends a live session, gives it to another, replaces its token or takes its place.
   */
  lemma LiveSessionIsSpared(w: World, name: string, actions: seq<Action>, limit: int)
    requires 0 <= limit && Reachable(w, limit) && name !in w.inFlight
    requires Do(w, name).Live() && C.HasUsableToken(Do(w, name).tokens) && NoDestroys(name, actions)
    ensures var end := Run(w, actions, limit);
            && Do(end, name).Live() && C.SameOwner(Do(w, name), Do(end, name))
            && Do(end, name).tokens == Do(w, name).tokens
            && name in Reservations(end, PrincipalOf(name, Do(w, name).state.value.userId))
  {
    ReachableIsSafe(w, limit);
    assert OwnerReserved(w, name);
    RunSpares(Do(w, name), w, name, actions, limit);
  }

  // ---------------------------------------------------------------------------
  // Tokens in the system

  /** The platform never generates the empty token. */
  predicate Tokened(actions: seq<Action>) {
    forall i :: 0 <= i < |actions| && actions[i].Proceed? ==> actions[i].v.token != ""
  }

  ghost predicate AllGuarded(w: World) {
    forall name :: C.Guarded(Do(w, name))
  }

  lemma CreateKeepsGuarded(d: C.Durable, p: CreatePayload, v: Weather)
    requires C.Guarded(d) && v.token != ""
    ensures C.Guarded(C.Create(d, p, false, v.token, v.now, v.f).0)
  {
    C.CallsKeepGuarded(d, C.CreateCall(p, false, v.token, v.now, v.f));
  }

  lemma ActionKeepsGuarded(w: World, a: Action, limit: int)
    requires AllGuarded(w) && (a.Proceed? ==> a.v.token != "")
    ensures AllGuarded(Next(w, a, limit))
  {
    var next, subject := Next(w, a, limit), Subject(a);
    forall name
      ensures C.Guarded(Do(next, name))
    {
      assert C.Guarded(Do(w, name));
      if name != subject {
        OthersKeepObject(w, a, name, limit);
      } else if a.ForwardMcp? {
        C.CallsKeepGuarded(Do(w, name), C.ForwardCall(a.v.f));
      } else if a.Proceed? && name in w.inFlight {
        StepKeepsGuarded(w, name, a.v, limit);
      }
    }
  }

  lemma StepKeepsGuarded(w: World, name: string, v: Weather, limit: int)
    requires C.Guarded(Do(w, name)) && v.token != "" && name in w.inFlight
    ensures C.Guarded(Do(Proceeded(w, name, v, limit), name))
  {
    var r := w.inFlight[name];
    if r.Call? {
      CreateKeepsGuarded(Do(w, name), r.job.p, v);
    } else if r.Stop? || r.UndoStop? {
      C.CallsKeepGuarded(Do(w, name), C.DestroyCall(v.f));
    } else {
      assert Do(Proceeded(w, name, v, limit), name) == Do(w, name);
    }
  }

  /** In every state reached with generated tokens, a live session holds one usable token of its owner. */
  lemma {:induction false} RunsAreGuarded(w: World, actions: seq<Action>, limit: int)
    requires AllGuarded(w) && Tokened(actions)
    ensures AllGuarded(Run(w, actions, limit))
    decreases |actions|
  {
    if actions != [] {
      ActionKeepsGuarded(w, actions[0], limit);
      RunsAreGuarded(Next(w, actions[0], limit), actions[1..], limit);
    }
  }

  // ---------------------------------------------------------------------------
  // Destroys cut off after the stop

  /** Once a destroy has marked its session, the index shows it stopped until it shows it no more. */
  lemma MarkedIsListedStopped(w: World, name: string, before: C.Durable, v: Weather, limit: int)
    requires Safe(w, limit) && DestroyStage(w, name, before, 3, false) && v.delivery != LostBefore
    requires w.inFlight[name].t.mark.value.userId == before.state.value.userId
    requires w.inFlight[name].t.mark.value.status == Stopped
    ensures var next, key := Proceeded(w, name, v, limit), Key(before.state.value.userId, name);
            key in next.index && next.index[key].status == Stopped && next.index[key].sessionId == name
  {
  }

  /** The mark a destroy carries is the stopped form of what it read, under the name. */
  lemma DestroyCarriesStoppedMark(w: World, name: string, before: C.Durable, v: Weather, limit: int)
    requires Safe(w, limit) && DestroyStage(w, name, before, 5, false) && Clean(v)
    ensures var next := Proceeded(w, name, v, limit);
            && next.inFlight[name].Stop? && next.inFlight[name].t.mark.Some?
            && next.inFlight[name].t.mark.value == Do(w, name).state.value.(sessionId := name, status := Stopped)
  {
    SafeEverywhere(w, limit, name);
  }
}
