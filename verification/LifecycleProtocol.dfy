// The session lifecycle as a transition system: requests that step through three
// kinds of store, one remote call at a time, any of which can fail or be cut off.
module LifecycleProtocol {
  import opened Prelude
  import opened SessionTypes
  import C = SessionContainer
  import Q = SessionQuota
  import I = SessionIndex

  // ---------------------------------------------------------------------------
  // State

  /** What a published-MCP call resolves to: the caller's namespace and the logical session. */
  datatype Published = Published(namespace: string, p: CreatePayload)

  // `pmcp-` and sixteen hexadecimal characters of the caller's digest.
  const NAMESPACE_LENGTH := 21

  predicate ValidNamespace(namespace: string) {
    |namespace| == NAMESPACE_LENGTH && PUBLISHED_SCOPE_PREFIX <= namespace
  }

  function ScopedId(pub: Published): string {
    pub.namespace + ":" + pub.p.sessionId
  }

  /** The namespace a scoped name carries. */
  function NamespaceOf(name: string): string {
    if |name| >= NAMESPACE_LENGTH then name[..NAMESPACE_LENGTH] else name
  }

  /** The principal whose list a session counts against. */
  function PrincipalOf(name: string, userId: string): string {
    if IsPublishedScopedId(name) then Q.PublishedPrincipal(NamespaceOf(name)) else Q.UserPrincipal(userId)
  }

  /** What a create or an ensure carries from step to step. */
  datatype Job = Job(p: CreatePayload, principal: string, published: bool, hadLive: bool)

  /** What a destroy carries: the owner it read, and the stopped entry it writes first. */
  datatype Teardown = Teardown(userId: string, principal: string, mark: Option<SessionState>)

  /** A request in flight, named by the remote call it is about to make. */
  datatype Request =
    | CreateRead(scope: Scope, p: CreatePayload)
    | EnsureRead(pub: Published)
    | TouchReserve(job: Job)
    | Reserve(job: Job)
    | Call(job: Job)
    | ReadBack(job: Job)
    | Index(job: Job, state: SessionState)
    | UndoStop(job: Job)
    | UndoUnindex(job: Job)
    | UndoRelease(job: Job)
    | DestroyRead
    | RemoveRead(pub: Published)
    | Stop(t: Teardown)
    | Mark(t: Teardown)
    | Unindex(t: Teardown)
    | Release(t: Teardown)

  /** The three stores, and at most one request in flight per session name. */
  datatype World = World(
    dos: map<string, C.Durable>,
    quota: map<string, seq<string>>,
    index: map<string, SessionState>,
    inFlight: map<string, Request>)

  const EMPTY := World(map[], map[], map[], map[])

  function Do(w: World, name: string): C.Durable {
    if name in w.dos then w.dos[name] else C.BLANK
  }

  function Reservations(w: World, principal: string): seq<string> {
    if principal in w.quota then w.quota[principal] else []
  }

  function Key(userId: string, name: string): string {
    I.SessionIndexKey(userId, name)
  }

  // ---------------------------------------------------------------------------
  // Effects of single remote calls

  function WithDo(w: World, name: string, d: C.Durable): World {
    w.(dos := w.dos[name := d])
  }

  function WithList(w: World, principal: string, ids: seq<string>): World {
    w.(quota := w.quota[principal := ids])
  }

  function WithReservation(w: World, principal: string, name: string, limit: int): World {
    WithList(w, principal, Q.ReserveIn(Reservations(w, principal), name, limit).0)
  }

  function WithoutReservation(w: World, principal: string, name: string): World {
    WithList(w, principal, Q.Without(Reservations(w, principal), name))
  }

  function WithEntry(w: World, state: SessionState): World {
    w.(index := w.index[Key(state.userId, state.sessionId) := state])
  }

  function WithoutEntry(w: World, userId: string, name: string): World {
    w.(index := w.index - {Key(userId, name)})
  }

  /** Where a step leaves its request: about to make another call, or over. */
  function Settle(w: World, name: string, r: Option<Request>): World {
    w.(inFlight := if r.Some? then w.inFlight[name := r.value] else w.inFlight - {name})
  }

  // What a step gives: the stores after the call, and the rest of the request.
  type Outcome = (World, Option<Request>)

  /** The catch of a create: a session that was live before is left alone. */
  function Caught(job: Job): Option<Request> {
    if job.hadLive then None else Some(UndoStop(job))
  }

  // ---------------------------------------------------------------------------
  // Steps of a request

  /** A remote call is answered, fails before its effect, or fails after it. */
  datatype Delivery = Answered | LostBefore | LostAfter

  /** The circumstances of one remote call. */
  datatype Weather = Weather(delivery: Delivery, f: C.Faults, token: string, now: string)

  predicate Admits(scope: Scope, p: CreatePayload, existing: SessionState) {
    match scope
    case Admin => existing.userId == p.userId
    case Gui(gui) => GuiOwns(gui, existing)
  }

  function StepCreateRead(w: World, name: string, scope: Scope, p: CreatePayload, delivery: Delivery): Outcome {
    var existing := Do(w, name);
    if !delivery.Answered? || (existing.Live() && !Admits(scope, p, existing.state.value)) then (w, None)
    else (w, Some(Reserve(Job(p, Q.UserPrincipal(p.userId), false, existing.Live()))))
  }

  function StepEnsureRead(w: World, name: string, pub: Published, delivery: Delivery): Outcome {
    var job := Job(pub.p, Q.PublishedPrincipal(pub.namespace), true, false);
    if !delivery.Answered? then (w, None)
    else (w, Some(if Do(w, name).Live() then TouchReserve(job) else Reserve(job)))
  }

  function StepReserve(w: World, name: string, job: Job, delivery: Delivery, limit: int): Outcome {
    if delivery.LostBefore? then (w, None)
    else
      var reply := Q.ReserveIn(Reservations(w, job.principal), name, limit).1;
      (WithReservation(w, job.principal, name, limit),
       if delivery.Answered? && reply.ok then Some(Call(job)) else None)
  }

  function StepTouchReserve(w: World, name: string, job: Job, delivery: Delivery, limit: int): Outcome {
    (if delivery.LostBefore? then w else WithReservation(w, job.principal, name, limit), None)
  }

  function StepCall(w: World, name: string, job: Job, v: Weather): Outcome {
    if v.delivery.LostBefore? then (w, Caught(job))
    else
      var (d, r) := C.Create(Do(w, name), job.p, false, v.token, v.now, v.f);
      (WithDo(w, name, d), if v.delivery.Answered? && r.Ok? then Some(ReadBack(job)) else Caught(job))
  }

  function StepReadBack(w: World, name: string, job: Job, v: Weather): Outcome {
    var state := Do(w, name).state;
    if !v.delivery.Answered? then (w, Caught(job))
    else if state.Some? then (w, Some(Index(job, state.value)))
    else if job.published then (w, Some(Index(job, C.NewState(job.p, Active, v.now))))
    else (w, None)
  }

  /** A published session is indexed under its scoped name, a host session as it is stored. */
  function Entry(name: string, job: Job, state: SessionState): SessionState {
    if job.published then state.(sessionId := name) else state
  }

  function StepIndex(w: World, name: string, job: Job, state: SessionState, delivery: Delivery): Outcome {
    if delivery.LostBefore? then (w, Caught(job))
    else (WithEntry(w, Entry(name, job, state)), if delivery.Answered? then None else Caught(job))
  }

  function StepStop(w: World, name: string, after: Request, v: Weather): Outcome {
    if v.delivery.LostBefore? then (w, None)
    else
      var (d, r) := C.Destroy(Do(w, name), v.f);
      (WithDo(w, name, d), if v.delivery.Answered? && r.Ok? then Some(after) else None)
  }

  function StepMark(w: World, t: Teardown, delivery: Delivery): Outcome {
    if delivery.LostBefore? then (w, None)
    else
      (if t.mark.Some? then WithEntry(w, t.mark.value) else w, if delivery.Answered? then Some(Unindex(t)) else None)
  }

  function StepUnindex(w: World, name: string, userId: string, after: Request, delivery: Delivery): Outcome {
    if delivery.LostBefore? then (w, None)
    else (WithoutEntry(w, userId, name), if delivery.Answered? then Some(after) else None)
  }

  function StepRelease(w: World, name: string, principal: string, delivery: Delivery): Outcome {
    (if delivery.LostBefore? then w else WithoutReservation(w, principal, name), None)
  }

  function StepDestroyRead(w: World, name: string, delivery: Delivery): Outcome {
    var state := Do(w, name).state;
    if !delivery.Answered? || state.None? then (w, None)
    else
      var userId := state.value.userId;
      (w, Some(Stop(Teardown(userId, Q.UserPrincipal(userId), Some(state.value.(status := Stopped))))))
  }

  function StepRemoveRead(w: World, name: string, pub: Published, delivery: Delivery): Outcome {
    var state := Do(w, name).state;
    var principal := Q.PublishedPrincipal(pub.namespace);
    if !delivery.Answered? then (w, None)
    else if state.None? then (w, Some(Stop(Teardown(pub.p.userId, principal, None))))
    else
      var mark := state.value.(sessionId := name, status := Stopped);
      (w, Some(Stop(Teardown(state.value.userId, principal, Some(mark)))))
  }

  /** The next remote call of a request. */
  function Step(w: World, name: string, r: Request, v: Weather, limit: int): Outcome {
    match r
    case CreateRead(scope, p) => StepCreateRead(w, name, scope, p, v.delivery)
    case EnsureRead(pub) => StepEnsureRead(w, name, pub, v.delivery)
    case TouchReserve(job) => StepTouchReserve(w, name, job, v.delivery, limit)
    case Reserve(job) => StepReserve(w, name, job, v.delivery, limit)
    case Call(job) => StepCall(w, name, job, v)
    case ReadBack(job) => StepReadBack(w, name, job, v)
    case Index(job, state) => StepIndex(w, name, job, state, v.delivery)
    case UndoStop(job) => StepStop(w, name, UndoUnindex(job), v)
    case UndoUnindex(job) => StepUnindex(w, name, job.p.userId, UndoRelease(job), v.delivery)
    case UndoRelease(job) => StepRelease(w, name, job.principal, v.delivery)
    case DestroyRead => StepDestroyRead(w, name, v.delivery)
    case RemoveRead(pub) => StepRemoveRead(w, name, pub, v.delivery)
    case Stop(t) => StepStop(w, name, if t.mark.Some? then Mark(t) else Unindex(t), v)
    case Mark(t) => StepMark(w, t, v.delivery)
    case Unindex(t) => StepUnindex(w, name, t.userId, Release(t), v.delivery)
    case Release(t) => StepRelease(w, name, t.principal, v.delivery)
  }

  // ---------------------------------------------------------------------------
  // Actions of the system

  datatype Action =
    | StartCreate(scope: Scope, p: CreatePayload)
    | StartEnsure(pub: Published)
    | StartDestroy(name: string)
    | StartRemove(pub: Published)
    | Proceed(name: string, v: Weather)
    | Abandon(name: string)
    | ForwardMcp(name: string, v: Weather)

  /** The session a create asks for: a GUI caller's owner fields come from the sealed identity. */
  function ResolvedPayload(scope: Scope, p: CreatePayload): CreatePayload {
    match scope
    case Admin => p
    case Gui(gui) => p.(userId := gui.sub, spaceId := if gui.spaceId.Some? then gui.spaceId.value else "")
  }

  /** The checks before the first remote call. */
  predicate Acceptable(scope: Scope, p: CreatePayload) {
    && p.sessionId != "" && p.userId != "" && (scope.Gui? || p.spaceId != "")
    && ValidSessionId(p.sessionId) && !IsPublishedScopedId(p.sessionId)
  }

  predicate AcceptablePublished(pub: Published) {
    ValidSessionId(pub.p.sessionId) && ValidNamespace(pub.namespace)
  }

  /** The session name an action is about. */
  function Subject(a: Action): string {
    match a
    case StartCreate(_, p) => p.sessionId
    case StartEnsure(pub) => ScopedId(pub)
    case StartDestroy(name) => name
    case StartRemove(pub) => ScopedId(pub)
    case Proceed(name, _) => name
    case Abandon(name) => name
    case ForwardMcp(name, _) => name
  }

  function Begin(w: World, name: string, acceptable: bool, r: Request): World {
    if name in w.inFlight || !acceptable then w else Settle(w, name, Some(r))
  }

  /** The request in flight on a name, if any, makes its next call. */
  function Proceeded(w: World, name: string, v: Weather, limit: int): World {
    if name !in w.inFlight then w
    else var (next, r) := Step(w, name, w.inFlight[name], v, limit); Settle(next, name, r)
  }

  function Next(w: World, a: Action, limit: int): World {
    match a
    case StartCreate(scope, p) =>
      var q := ResolvedPayload(scope, p);
      Begin(w, p.sessionId, Acceptable(scope, q), CreateRead(scope, q))
    case StartEnsure(pub) => Begin(w, ScopedId(pub), AcceptablePublished(pub), EnsureRead(pub))
    case StartDestroy(name) => Begin(w, name, ValidSessionId(name), DestroyRead)
    case StartRemove(pub) => Begin(w, ScopedId(pub), AcceptablePublished(pub), RemoveRead(pub))
    case Proceed(name, v) => Proceeded(w, name, v, limit)
    case Abandon(name) => Settle(w, name, None)
    case ForwardMcp(name, v) =>
      if v.delivery.LostBefore? then w else WithDo(w, name, C.Forward(Do(w, name), v.f).0)
  }

  function Run(w: World, actions: seq<Action>, limit: int): World
    decreases |actions|
  {
    if actions == [] then w else Run(Next(w, actions[0], limit), actions[1..], limit)
  }

  ghost predicate Reachable(w: World, limit: int) {
    exists actions :: w == Run(EMPTY, actions, limit)
  }
}
