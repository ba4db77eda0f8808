// The four routes as they are written: straight-line programs over the stores,
// with early returns and a compensating catch. Each is one uninterrupted run of
// the transition system.
module SessionHost {
  import opened Prelude
  import opened SessionTypes
  import opened LifecycleProtocol
  import opened LifecycleRecovery
  import C = SessionContainer
  import Q = SessionQuota
  import S = SignInClaims

  // ---------------------------------------------------------------------------
  // A request without interference

  /** Calls a request can still make. */
  function Rank(r: Request): nat {
    match r
    case CreateRead(_, _) => 8
    case EnsureRead(_) => 8
    case Reserve(_) => 7
    case TouchReserve(_) => 1
    case Call(_) => 6
    case ReadBack(_) => 5
    case Index(_, _) => 4
    case UndoStop(_) => 3
    case UndoUnindex(_) => 2
    case UndoRelease(_) => 1
    case DestroyRead => 5
    case RemoveRead(_) => 5
    case Stop(_) => 4
    case Mark(_) => 3
    case Unindex(_) => 2
    case Release(_) => 1
  }

  /** Every call brings a request closer to its end: none makes more than eight. */
  lemma StepsEnd(w: World, name: string, r: Request, v: Weather, limit: int)
    ensures var after := Step(w, name, r, v, limit).1; after.Some? ==> Rank(after.value) < Rank(r)
    ensures Rank(r) <= 8
  {
  }

  datatype Reply =
    Created | Done | BadRequest | Forbidden | NotFound | Conflict | LimitReached | Unavailable | Failed

  /** What the caller is told when this call is the last one of its request. */
  function LastWord(w: World, name: string, r: Request, v: Weather, limit: int): Reply {
    if !v.delivery.Answered? then Failed
    else
      match r
      case CreateRead(_, _) => Conflict
      case TouchReserve(job) =>
        if Q.ReserveIn(Reservations(w, job.principal), name, limit).1.ok then Done else LimitReached
      case Reserve(_) => LimitReached
      case ReadBack(_) => Created
      case Index(_, _) => Created
      case DestroyRead => NotFound
      case Release(_) => Done
      case _ => Failed
  }

  // The circumstances of the calls of one request, in order.
  type Forecast = nat -> Weather

  /** The stores after a request has run to its end, its k-th call meeting weather(k), and its reply. */
  function Drive(w: World, name: string, r: Request, weather: Forecast, k: nat, limit: int): (World, Reply)
    decreases Rank(r)
  {
    StepsEnd(w, name, r, weather(k), limit);
    var (next, after) := Step(w, name, r, weather(k), limit);
    if after.None? then (next, LastWord(w, name, r, weather(k), limit))
    else Drive(next, name, after.value, weather, k + 1, limit)
  }

  function Proceeds(name: string, weather: Forecast, k: nat, count: nat): seq<Action>
    decreases count
  {
    if count == 0 then [] else [Proceed(name, weather(k))] + Proceeds(name, weather, k + 1, count - 1)
  }

  lemma {:induction false} IdleProceeds(w: World, name: string, weather: Forecast, k: nat, count: nat, limit: int)
    requires name !in w.inFlight
    ensures Run(w, Proceeds(name, weather, k, count), limit) == w
    decreases count
  {
    if count > 0 {
      assert Proceeds(name, weather, k, count)[1..] == Proceeds(name, weather, k + 1, count - 1);
      IdleProceeds(w, name, weather, k + 1, count - 1, limit);
    }
  }

  /** Settling twice about a name keeps the last word. */
  lemma StepIgnoresInFlight(w: World, name: string, r: Request, v: Weather, limit: int, prior: Option<Request>)
    ensures var (next, after) := Step(w, name, r, v, limit);
            Step(Settle(w, name, prior), name, r, v, limit) ==
            (next.(inFlight := Settle(w, name, prior).inFlight), after)
  {
    var x := Settle(w, name, prior);
    assert forall n :: Do(x, n) == Do(w, n);
    assert forall p :: Reservations(x, p) == Reservations(w, p);
    assert x == w.(inFlight := x.inFlight);
  }

  /** Driving a request is running the system with nobody in between. */
  lemma {:induction false} DriveIsARun(
    w: World, name: string, r: Request, weather: Forecast, k: nat, count: nat, limit: int)
    requires name !in w.inFlight && count >= Rank(r)
    ensures Run(Settle(w, name, Some(r)), Proceeds(name, weather, k, count), limit) ==
            Drive(w, name, r, weather, k, limit).0
    decreases count
  {
    var start := Settle(w, name, Some(r));
    var (next, after) := Step(w, name, r, weather(k), limit);
    StepsEnd(w, name, r, weather(k), limit);
    StepIgnoresInFlight(w, name, r, weather(k), limit, Some(r));
    StepKeepsInFlight(w, name, r, weather(k), limit);
    assert Proceeded(start, name, weather(k), limit) == Settle(next, name, after);
    assert Proceeds(name, weather, k, count)[1..] == Proceeds(name, weather, k + 1, count - 1);
    if after.Some? {
      DriveIsARun(next, name, after.value, weather, k + 1, count - 1, limit);
    } else {
      assert Settle(next, name, None) == next;
      IdleProceeds(next, name, weather, k + 1, count - 1, limit);
    }
  }

  lemma StepKeepsInFlight(w: World, name: string, r: Request, v: Weather, limit: int)
    ensures Step(w, name, r, v, limit).0.inFlight == w.inFlight
  {
  }

  // No call of the request meets a fault.
  ghost predicate Calm(weather: Forecast) {
    forall k :: Clean(weather(k))
  }

  /** A name can be reserved: it has its place, or there is room. */
  predicate HasRoom(w: World, principal: string, name: string, limit: int) {
    name in Reservations(w, principal) || |Reservations(w, principal)| < limit
  }

  /** Reserving a place that is held, or where there is no room, changes nothing. */
  lemma ReservingChangesNothing(w: World, principal: string, name: string, limit: int)
    requires 1 <= limit && (name in Reservations(w, principal) || !HasRoom(w, principal, name, limit))
    ensures WithReservation(w, principal, name, limit) == w
  {
    assert principal in w.quota;
    assert w.quota[principal := w.quota[principal]] == w.quota;
  }

  // ---------------------------------------------------------------------------
  // The routes

  datatype CallError = CallFailed

  /**
   * Who calls: an administrator or routed request, the bearer of a token, and the
   * GUI session of a request on a GUI path, if there is one.
   */
  datatype Caller = Caller(trusted: bool, token: Option<string>, gui: Option<GuiSession>)

  /**
   * Whose live session a caller may create again: an administrator the user's it names,
   * a GUI caller its own unreserved one, within its space if it claims one.
   */
  predicate MayRecreate(scope: Scope, p: CreatePayload, existing: SessionState) {
    match scope
    case Admin => existing.userId == p.userId
    case Gui(gui) =>
      && existing.userId == gui.sub && !("pmcp-" <= existing.sessionId)
      && (gui.spaceId.Some? && gui.spaceId.value != "" ==> existing.spaceId == gui.spaceId.value)
  }

  /**
   * The answer to a create none of whose calls fails: a conflict exactly over a live
   * session that is not the caller's to create again, then a full list, and then
   * success, unless the object holds the session for an owner that differs in space.
   */
  function CalmReply(w: World, scope: Scope, p: CreatePayload, limit: int): Reply {
    var d := Do(w, p.sessionId);
    if d.Live() && !MayRecreate(scope, p, d.state.value) then Conflict
    else if !HasRoom(w, Q.UserPrincipal(p.userId), p.sessionId, limit) then LimitReached
    else if d.Live() && !d.OwnedBy(p.userId, p.spaceId) then Failed
    else Created
  }

  /** The token was issued for this session, or the GUI session owns it. */
  predicate Authorized(w: World, name: string, caller: Caller) {
    var d := Do(w, name);
    || caller.trusted
    || (caller.token.Some? && C.Verify(d, caller.token.value).Some?
        && C.Verify(d, caller.token.value).value.sessionId == name)
    || (caller.gui.Some? && !IsPublishedScopedId(name) && d.state.Some? && GuiOwns(caller.gui.value, d.state.value))
  }

  /** What a create's call can do to a live session, and when it succeeds. */
  lemma CreateOutcomes(d: C.Durable, p: CreatePayload, v: Weather)
    ensures var (next, r) := C.Create(d, p, false, v.token, v.now, v.f);
            && (d.Live() && C.HasUsableToken(d.tokens) ==>
                  next.Live() && C.SameOwner(d, next) && next.tokens == d.tokens)
            && (C.FaultFree(v.f) ==> (r.Ok? <==> !d.Live() || d.OwnedBy(p.userId, p.spaceId)))
            && (r.Ok? ==> next.Live() && next.OwnedBy(p.userId, p.spaceId))
            && (d.Live() && !d.OwnedBy(p.userId, p.spaceId) ==> r.Err?)
  {
    if d.Live() && d.OwnedBy(p.userId, p.spaceId) && C.HasUsableToken(d.tokens) {
      C.OwnerReusesSession(d, p, v.token, v.now, v.f);
    }
    C.ForeignCreateChangesNothing(d, p, v.token, v.now, v.f);
    if C.FaultFree(v.f) {
      C.FaultFreeCreateSucceeds(d, p, v.token, v.now, v.f);
    }
  }

  /** A token stored for a session of this id. */
  ghost predicate HoldsToken(d: C.Durable, name: string, token: Option<string>) {
    token.Some? && d.tokens.Some? &&
    exists e :: e in d.tokens.value && e.token == token.value && e.info.sessionId == name
  }

  class Host {
    var dos: map<string, C.Durable>
    var quota: map<string, seq<string>>
    var index: map<string, SessionState>
    const limit: Q.Limit

    constructor (limit: Option<int>)
      ensures Stores() == EMPTY && this.limit == Q.NormalizeLimit(limit)
    {
      dos, quota, index := map[], map[], map[];
      this.limit := Q.NormalizeLimit(limit);
    }

    function Stores(): World
      reads this
    {
      World(dos, quota, index, map[])
    }

    // The remote calls. Each fails without its effect or after it, as the weather has it.

    method GetSessionState(name: string, v: Weather) returns (r: Result<Option<SessionState>, CallError>)
      ensures r == if v.delivery.Answered? then Ok(Do(Stores(), name).state) else Err(CallFailed)
    {
      r := if v.delivery.Answered? then Ok(Do(Stores(), name).state) else Err(CallFailed);
    }

    method ReserveQuota(principal: string, name: string, v: Weather) returns (r: Result<Q.Reservation, CallError>)
      modifies this
      ensures Stores() == if v.delivery.LostBefore? then old(Stores())
                          else WithReservation(old(Stores()), principal, name, limit)
      ensures r == if v.delivery.Answered? then Ok(Q.ReserveIn(Reservations(old(Stores()), principal), name, limit).1)
                   else Err(CallFailed)
    {
      if v.delivery.LostBefore? {
        return Err(CallFailed);
      }
      var (ids, reservation) := Q.ReserveIn(Reservations(Stores(), principal), name, limit);
      quota := quota[principal := ids];
      r := if v.delivery.Answered? then Ok(reservation) else Err(CallFailed);
    }

    method ReleaseQuota(principal: string, name: string, v: Weather) returns (ok: bool)
      modifies this
      ensures Stores() == if v.delivery.LostBefore? then old(Stores())
                          else WithoutReservation(old(Stores()), principal, name)
      ensures ok == v.delivery.Answered?
    {
      if !v.delivery.LostBefore? {
        quota := quota[principal := Q.Without(Reservations(Stores(), principal), name)];
      }
      ok := v.delivery.Answered?;
    }

    method CallCreate(name: string, p: CreatePayload, v: Weather) returns (ok: bool)
      modifies this
      ensures var (d, r) := C.Create(Do(old(Stores()), name), p, false, v.token, v.now, v.f);
              && Stores() == (if v.delivery.LostBefore? then old(Stores()) else WithDo(old(Stores()), name, d))
              && ok == (v.delivery.Answered? && r.Ok?)
    {
      var (d, r) := C.Create(Do(Stores(), name), p, false, v.token, v.now, v.f);
      if !v.delivery.LostBefore? {
        dos := dos[name := d];
      }
      ok := v.delivery.Answered? && r.Ok?;
    }

    method CallDestroy(name: string, v: Weather) returns (ok: bool)
      modifies this
      ensures var (d, r) := C.Destroy(Do(old(Stores()), name), v.f);
              && Stores() == (if v.delivery.LostBefore? then old(Stores()) else WithDo(old(Stores()), name, d))
              && ok == (v.delivery.Answered? && r.Ok?)
    {
      var (d, r) := C.Destroy(Do(Stores(), name), v.f);
      if !v.delivery.LostBefore? {
        dos := dos[name := d];
      }
      ok := v.delivery.Answered? && r.Ok?;
    }

    method IndexSession(state: SessionState, v: Weather) returns (ok: bool)
      modifies this`index
      ensures Stores() == if v.delivery.LostBefore? then old(Stores()) else WithEntry(old(Stores()), state)
      ensures ok == v.delivery.Answered?
    {
      if !v.delivery.LostBefore? {
        index := index[Key(state.userId, state.sessionId) := state];
      }
      ok := v.delivery.Answered?;
    }

    method UnindexSession(userId: string, name: string, v: Weather) returns (ok: bool)
      modifies this
      ensures Stores() == if v.delivery.LostBefore? then old(Stores()) else WithoutEntry(old(Stores()), userId, name)
      ensures ok == v.delivery.Answered?
    {
      if !v.delivery.LostBefore? {
        index := index - {Key(userId, name)};
      }
      ok := v.delivery.Answered?;
    }

    /** The catch of both creates: stop, unindex, release, giving up at the first failure. */
    method Compensate(name: string, job: Job, weather: Forecast, k: nat)
      modifies this
      ensures (Stores(), Failed) == Drive(old(Stores()), name, UndoStop(job), weather, k, limit)
      ensures Clean(weather(k)) && Clean(weather(k + 1)) && Clean(weather(k + 2)) ==> Undone(Stores(), name, job, true)
    {
      ghost var goal := Drive(Stores(), name, UndoStop(job), weather, k, limit);
      var ok := CallDestroy(name, weather(k));
      if !ok {
        return;
      }
      assert goal == Drive(Stores(), name, UndoUnindex(job), weather, k + 1, limit);
      ok := UnindexSession(job.p.userId, name, weather(k + 1));
      if !ok {
        assert goal.0 == Stores();
        return;
      }
      assert goal == Drive(Stores(), name, UndoRelease(job), weather, k + 2, limit);
      var released := ReleaseQuota(job.principal, name, weather(k + 2));
      assert goal.0 == Stores();
    }

    /** The read-back and the index entry: the end of the try in both creates. */
    method IndexCreated(name: string, job: Job, weather: Forecast, k: nat) returns (indexed: bool, next: nat)
      requires Do(Stores(), name).Live()
      modifies this`index
      ensures indexed <==> weather(k).delivery.Answered? && weather(k + 1).delivery.Answered?
      ensures k < next <= k + 2
      ensures indexed ==> (Stores(), Created) == Drive(old(Stores()), name, ReadBack(job), weather, k, limit)
      ensures indexed ==> Entry(name, job, Do(Stores(), name).state.value) in index.Values
      ensures !indexed ==>
                Drive(old(Stores()), name, ReadBack(job), weather, k, limit) ==
                if job.hadLive then (Stores(), Failed) else Drive(Stores(), name, UndoStop(job), weather, next, limit)
    {
      var v := weather(k);
      var read := GetSessionState(name, v);
      if read.Err? {
        return false, k + 1;
      }
      // A create that answered has stored a state; only interference could have removed it.
      var state := if read.value.Some? then read.value.value else C.NewState(job.p, Active, v.now);
      var entry := Entry(name, job, state);
      indexed := IndexSession(entry, weather(k + 1));
      next := k + 2;
      ghost var key := Key(entry.userId, entry.sessionId);
      assert indexed ==> key in index && index[key] == entry;
    }

    /**
     * The body of the try in both creates, from the reserved place on. It succeeds when
     * nothing fails and no other owner's session is live. A failed one is undone from
     * the call `next` on, unless the session was live before: that one is spared.
     */
    method CreateReserved(name: string, job: Job, weather: Forecast, k: nat) returns (created: bool, next: nat)
      requires name in Reservations(Stores(), job.principal)
      modifies this
      ensures (Stores(), if created then Created else Failed) ==
              Drive(old(Stores()), name, Call(job), weather, k, limit)
      ensures created ==> Do(Stores(), name).Live() && Do(Stores(), name).OwnedBy(job.p.userId, job.p.spaceId)
      ensures created ==> Stores().quota == old(Stores().quota)
      ensures created ==> Entry(name, job, Do(Stores(), name).state.value) in Stores().index.Values
      ensures Calm(weather) ==>
                var d := Do(old(Stores()), name);
                (created <==> !d.Live() || d.OwnedBy(job.p.userId, job.p.spaceId))
      ensures k < next <= k + 3
      ensures !created && !job.hadLive ==>
                Clean(weather(next)) && Clean(weather(next + 1)) && Clean(weather(next + 2)) ==>
                  Undone(Stores(), name, job, true)
      ensures !created && job.hadLive ==> Stores().quota == old(Stores().quota)
      ensures job.hadLive && Do(old(Stores()), name).Live() && C.HasUsableToken(Do(old(Stores()), name).tokens) ==>
                && Do(Stores(), name).Live() && C.SameOwner(Do(old(Stores()), name), Do(Stores(), name))
                && Do(Stores(), name).tokens == Do(old(Stores()), name).tokens
    {
      ghost var goal, before := Drive(Stores(), name, Call(job), weather, k, limit), Do(Stores(), name);
      CreateOutcomes(before, job.p, weather(k));
      created := CallCreate(name, job.p, weather(k));
      next := k + 1;
      if created {
        assert goal == Drive(Stores(), name, ReadBack(job), weather, k + 1, limit);
        created, next := IndexCreated(name, job, weather, k + 1);
      }
      if !created && !job.hadLive {
        assert goal == Drive(Stores(), name, UndoStop(job), weather, next, limit);
        Compensate(name, job, weather, next);
      }
    }

    /** Reserve, then create: what both creates do once they know what they found. */
    method ReserveAndCreate(name: string, job: Job, weather: Forecast, k: nat) returns (reply: Reply)
      modifies this
      ensures (Stores(), reply) == Drive(old(Stores()), name, Reserve(job), weather, k, limit)
      ensures reply.Created? || reply.LimitReached? || reply.Failed?
      ensures reply == LimitReached ==> Stores() == old(Stores()) && !HasRoom(Stores(), job.principal, name, limit)
      ensures reply == Created ==>
                && Do(Stores(), name).Live() && Do(Stores(), name).OwnedBy(job.p.userId, job.p.spaceId)
                && name in Reservations(Stores(), job.principal)
      ensures Calm(weather) ==>
                var d := Do(old(Stores()), name);
                reply == if !HasRoom(old(Stores()), job.principal, name, limit) then LimitReached
                         else if d.Live() && !d.OwnedBy(job.p.userId, job.p.spaceId) then Failed
                         else Created
    {
      ghost var goal := Drive(Stores(), name, Reserve(job), weather, k, limit);
      if !HasRoom(Stores(), job.principal, name, limit) {
        ReservingChangesNothing(Stores(), job.principal, name, limit);
      }
      var reservation := ReserveQuota(job.principal, name, weather(k));
      if reservation.Err? || !reservation.value.ok {
        assert goal.0 == Stores();
        return if reservation.Err? then Failed else LimitReached;
      }
      assert goal == Drive(Stores(), name, Call(job), weather, k + 1, limit);
      var created, _ := CreateReserved(name, job, weather, k + 1);
      reply := if created then Created else Failed;
    }

    /** The create route from its first remote call on. */
    method CreateAccepted(scope: Scope, p: CreatePayload, weather: Forecast) returns (reply: Reply)
      modifies this
      ensures (Stores(), reply) == Drive(old(Stores()), p.sessionId, CreateRead(scope, p), weather, 0, limit)
      ensures reply in {Created, Conflict, LimitReached, Failed}
      ensures reply == Conflict ==>
                && Stores() == old(Stores()) && Do(Stores(), p.sessionId).Live()
                && !MayRecreate(scope, p, Do(Stores(), p.sessionId).state.value)
      ensures reply == LimitReached ==>
                Stores() == old(Stores()) && !HasRoom(Stores(), Q.UserPrincipal(p.userId), p.sessionId, limit)
      ensures reply == Created ==>
                && Do(Stores(), p.sessionId).Live() && Do(Stores(), p.sessionId).OwnedBy(p.userId, p.spaceId)
                && p.sessionId in Reservations(Stores(), Q.UserPrincipal(p.userId))
      ensures Calm(weather) ==> reply == CalmReply(old(Stores()), scope, p, limit)
    {
      var name := p.sessionId;
      ghost var goal := Drive(Stores(), name, CreateRead(scope, p), weather, 0, limit);
      var read := GetSessionState(name, weather(0));
      if read.Err? {
        return Failed;
      }
      var existing := read.value;
      if existing.Some? && existing.value.status != Stopped && !Admits(scope, p, existing.value) {
        return Conflict;
      }
      var hadLive := existing.Some? && existing.value.status != Stopped;
      var job := Job(p, Q.UserPrincipal(p.userId), false, hadLive);
      assert goal == Drive(Stores(), name, Reserve(job), weather, 1, limit);
      reply := ReserveAndCreate(name, job, weather, 1);
    }

    /**
     * The create route: a GUI caller needs the membership, the payload must be
     * complete, and the index must be there, before the first remote call.
     */
    method CreateSession(scope: Scope, publicCreation: bool, claims: S.Claims, payload: CreatePayload,
                         indexConfigured: bool, weather: Forecast)
      returns (reply: Reply)
      modifies this
      ensures reply == Forbidden <==>
              scope.Gui? && !publicCreation && claims.appRole != Some("owner") && claims.appRole != Some("member")
      ensures reply == BadRequest <==> reply != Forbidden && !Acceptable(scope, ResolvedPayload(scope, payload))
      ensures reply == Unavailable <==> reply != Forbidden && reply != BadRequest && !indexConfigured
      ensures reply.Forbidden? || reply.BadRequest? || reply.Unavailable? || reply.Conflict? || reply.LimitReached? ==>
                Stores() == old(Stores())
      ensures var p := ResolvedPayload(scope, payload);
              !reply.Forbidden? && !reply.BadRequest? && !reply.Unavailable? ==>
                && (Stores(), reply) == Drive(old(Stores()), p.sessionId, CreateRead(scope, p), weather, 0, limit)
                && (Calm(weather) ==> reply == CalmReply(old(Stores()), scope, p, limit))
      ensures var name, p := payload.sessionId, ResolvedPayload(scope, payload);
              && (reply == Conflict ==>
                    Do(Stores(), name).Live() && !MayRecreate(scope, p, Do(Stores(), name).state.value))
              && (reply == LimitReached ==> !HasRoom(Stores(), Q.UserPrincipal(p.userId), name, limit))
              && (reply == Created ==>
                    Do(Stores(), name).Live() && Do(Stores(), name).OwnedBy(p.userId, p.spaceId)
                    && name in Reservations(Stores(), Q.UserPrincipal(p.userId)))
    {
      if scope.Gui? && !S.CanCreateSandbox(publicCreation, claims) {
        return Forbidden;
      }
      var p := ResolvedPayload(scope, payload);
      if !Acceptable(scope, p) {
        return BadRequest;
      }
      if !indexConfigured {
        return Unavailable;
      }
      reply := CreateAccepted(scope, p, weather);
    }

    /** Who may address a session by its id: the token first, then the GUI session behind a GUI path. */
    method AuthorizeSessionAccess(name: string, caller: Caller, weather: Forecast) returns (r: Result<bool, CallError>)
      ensures r.Ok? ==> r.value == Authorized(Stores(), name, caller)
      ensures weather(0).delivery.Answered? && weather(1).delivery.Answered? ==> r.Ok?
      // Without a trusted request or a token stored for this id, only the owner comes in, within its space.
      ensures r == Ok(true) && !caller.trusted && !HoldsToken(Do(Stores(), name), name, caller.token) ==>
                && caller.gui.Some? && Do(Stores(), name).state.Some? && !("pmcp-" <= name)
                && var gui, state := caller.gui.value, Do(Stores(), name).state.value;
                   && state.userId == gui.sub && !("pmcp-" <= state.sessionId)
                   && (gui.spaceId.Some? && gui.spaceId.value != "" ==> state.spaceId == gui.spaceId.value)
      ensures r == Ok(false) ==> !caller.trusted
      ensures r == Ok(false) && caller.gui.Some? && Do(Stores(), name).state.Some? && !("pmcp-" <= name) ==>
                var gui, state := caller.gui.value, Do(Stores(), name).state.value;
                || state.userId != gui.sub || "pmcp-" <= state.sessionId
                || (gui.spaceId.Some? && gui.spaceId.value != "" && state.spaceId != gui.spaceId.value)
      ensures r == Ok(false) && caller.token.Some? && Do(Stores(), name).tokens.Some? ==>
                forall info :: C.FirstWith(Do(Stores(), name).tokens.value, caller.token.value, info) ==>
                  info.sessionId != name
    {
      if caller.token.Some? {
        C.VerifyFindsFirst(Do(Stores(), name).tokens, caller.token.value);
      }
      if caller.trusted {
        return Ok(true);
      }
      if caller.token.Some? {
        if !weather(0).delivery.Answered? {
          return Err(CallFailed);
        }
        var info := C.Verify(Do(Stores(), name), caller.token.value);
        if info.Some? && info.value.sessionId == name {
          return Ok(true);
        }
      }
      if caller.gui.None? || IsPublishedScopedId(name) {
        return Ok(false);
      }
      var read := GetSessionState(name, weather(1));
      if read.Err? {
        return Err(read.error);
      }
      r := Ok(read.value.Some? && GuiOwns(caller.gui.value, read.value.value));
    }

    /** The destroy route: nothing changes for a caller who may not address the session, or without an index. */
    method DestroySession(name: string, caller: Caller, indexConfigured: bool, access: Forecast, weather: Forecast)
      returns (reply: Reply)
      modifies this
      ensures reply == BadRequest <==> !ValidSessionId(name)
      ensures reply == Forbidden ==> !Authorized(old(Stores()), name, caller)
      ensures !ValidSessionId(name) || !indexConfigured || !Authorized(old(Stores()), name, caller) ==>
                Stores() == old(Stores()) && reply != Done
      ensures ValidSessionId(name) && access(0).delivery.Answered? && access(1).delivery.Answered? ==>
                if !Authorized(old(Stores()), name, caller) then reply == Forbidden
                else if indexConfigured then
                  (Stores(), reply) == Drive(old(Stores()), name, DestroyRead, weather, 0, limit)
                else
                  || reply == Unavailable
                  || (Stores(), reply) == Drive(old(Stores()), name, DestroyRead, weather, 0, limit)
      ensures Stores() == old(Stores())
              || (Stores(), reply) == Drive(old(Stores()), name, DestroyRead, weather, 0, limit)
      ensures reply == NotFound ==> Stores() == old(Stores()) && Do(Stores(), name).state.None?
      ensures reply == Done ==> TornDown(old(Stores()), Stores(), name, false)
      ensures reply != BadRequest && Calm(access) && Calm(weather) ==>
                reply == if !Authorized(old(Stores()), name, caller) then Forbidden
                         else if Do(old(Stores()), name).state.None? then NotFound
                         else if !indexConfigured then Unavailable
                         else Done
    {
      if !ValidSessionId(name) {
        return BadRequest;
      }
      var admitted := AuthorizeSessionAccess(name, caller, access);
      if admitted.Err? {
        return Failed;
      }
      if !admitted.value {
        return Forbidden;
      }
      ghost var goal := Drive(Stores(), name, DestroyRead, weather, 0, limit);
      var read := GetSessionState(name, weather(0));
      if read.Err? {
        return Failed;
      }
      if read.value.None? {
        return NotFound;
      }
      if !indexConfigured {
        return Unavailable;
      }
      var state := read.value.value;
      var t := Teardown(state.userId, Q.UserPrincipal(state.userId), Some(state.(status := Stopped)));
      assert goal == Drive(Stores(), name, Stop(t), weather, 1, limit);
      var done := TearDown(name, t, weather);
      reply := if done then Done else Failed;
    }

    /** Unindex, release: the end of both destroys. */
    method Unlist(name: string, t: Teardown, weather: Forecast, k: nat) returns (done: bool)
      modifies this
      ensures (Stores(), if done then Done else Failed) == Drive(old(Stores()), name, Unindex(t), weather, k, limit)
      ensures dos == old(dos)
      ensures done <==> weather(k).delivery.Answered? && weather(k + 1).delivery.Answered?
      ensures done ==> Key(t.userId, name) !in index && name !in Reservations(Stores(), t.principal)
    {
      ghost var goal := Drive(Stores(), name, Unindex(t), weather, k, limit);
      var ok := UnindexSession(t.userId, name, weather(k));
      if !ok {
        assert goal.0 == Stores();
        return false;
      }
      assert goal == Drive(Stores(), name, Release(t), weather, k + 1, limit);
      done := ReleaseQuota(t.principal, name, weather(k + 1));
      assert goal.0 == Stores();
    }

    /** Stop, mark, then unlist: the part both destroys share. */
    method TearDown(name: string, t: Teardown, weather: Forecast) returns (done: bool)
      modifies this
      ensures (Stores(), if done then Done else Failed) == Drive(old(Stores()), name, Stop(t), weather, 1, limit)
      ensures Calm(weather) ==> done
      ensures done ==> !Do(Stores(), name).Live() && Key(t.userId, name) !in index
      ensures done ==> name !in Reservations(Stores(), t.principal)
      ensures done && Do(old(Stores()), name).state.Some? ==> C.SameOwner(Do(old(Stores()), name), Do(Stores(), name))
    {
      ghost var goal := Drive(Stores(), name, Stop(t), weather, 1, limit);
      C.DestroyAnswersExactly(Do(Stores(), name), weather(1).f);
      var ok := CallDestroy(name, weather(1));
      if !ok {
        return false;
      }
      ghost var stopped := Do(Stores(), name);
      var k := 2;
      if t.mark.Some? {
        assert goal == Drive(Stores(), name, Mark(t), weather, 2, limit);
        ok := IndexSession(t.mark.value, weather(2));
        if !ok {
          assert goal.0 == Stores();
          return false;
        }
        k := 3;
      }
      assert goal == Drive(Stores(), name, Unindex(t), weather, k, limit);
      done := Unlist(name, t, weather, k);
      assert Do(Stores(), name) == stopped;
    }

    method EnsurePublishedSession(pub: Published, weather: Forecast) returns (reply: Reply)
      requires ValidNamespace(pub.namespace)
      modifies this
      ensures reply == BadRequest <==> !ValidSessionId(pub.p.sessionId)
      ensures reply == BadRequest ==> Stores() == old(Stores())
      ensures reply != BadRequest ==>
                (Stores(), reply) == Drive(old(Stores()), ScopedId(pub), EnsureRead(pub), weather, 0, limit)
      ensures reply.Created? || reply.Done? ==>
                Do(Stores(), ScopedId(pub)).Live()
                && ScopedId(pub) in Reservations(Stores(), Q.PublishedPrincipal(pub.namespace))
      ensures reply.LimitReached? ==>
                Stores() == old(Stores())
                && !HasRoom(Stores(), Q.PublishedPrincipal(pub.namespace), ScopedId(pub), limit)
      // A live session that holds its place is handed out, and nothing changes.
      ensures var name, list := ScopedId(pub), Q.PublishedPrincipal(pub.namespace);
              reply != BadRequest && Do(old(Stores()), name).Live() && name in Reservations(old(Stores()), list) ==>
                Stores() == old(Stores()) && (Calm(weather) ==> reply == Done)
      ensures reply != BadRequest && Calm(weather) ==>
                var list := Q.PublishedPrincipal(pub.namespace);
                reply == if !HasRoom(old(Stores()), list, ScopedId(pub), limit) then LimitReached
                         else if Do(old(Stores()), ScopedId(pub)).Live() then Done
                         else Created
    {
      if !ValidSessionId(pub.p.sessionId) {
        return BadRequest;
      }
      var name := ScopedId(pub);
      ghost var goal := Drive(Stores(), name, EnsureRead(pub), weather, 0, limit);
      var job := Job(pub.p, Q.PublishedPrincipal(pub.namespace), true, false);
      var existing := GetSessionState(name, weather(0));
      if existing.Err? {
        return Failed;
      }
      if existing.value.Some? && existing.value.value.status != Stopped {
        assert goal == Drive(Stores(), name, TouchReserve(job), weather, 1, limit);
        if name in Reservations(Stores(), job.principal) || !HasRoom(Stores(), job.principal, name, limit) {
          ReservingChangesNothing(Stores(), job.principal, name, limit);
        }
        var again := ReserveQuota(job.principal, name, weather(1));
        assert goal.0 == Stores();
        return if again.Err? then Failed else if again.value.ok then Done else LimitReached;
      }
      assert goal == Drive(Stores(), name, Reserve(job), weather, 1, limit);
      reply := ReserveAndCreate(name, job, weather, 1);
    }

    method DestroyPublishedSession(pub: Published, weather: Forecast) returns (reply: Reply)
      requires ValidNamespace(pub.namespace)
      modifies this
      ensures reply == BadRequest <==> !ValidSessionId(pub.p.sessionId)
      ensures reply == BadRequest ==> Stores() == old(Stores())
      ensures reply != BadRequest ==>
                (Stores(), reply) == Drive(old(Stores()), ScopedId(pub), RemoveRead(pub), weather, 0, limit)
      ensures reply == Done ==> TornDown(old(Stores()), Stores(), ScopedId(pub), true)
      ensures reply != BadRequest && Calm(weather) ==> reply == Done
    {
      if !ValidSessionId(pub.p.sessionId) {
        return BadRequest;
      }
      var name := ScopedId(pub);
      assert NamespaceOf(name) == pub.namespace;
      ghost var goal := Drive(Stores(), name, RemoveRead(pub), weather, 0, limit);
      var read := GetSessionState(name, weather(0));
      if read.Err? {
        return Failed;
      }
      var state := read.value;
      var userId := if state.Some? then state.value.userId else pub.p.userId;
      var mark := if state.Some? then Some(state.value.(sessionId := name, status := Stopped)) else None;
      var t := Teardown(userId, Q.PublishedPrincipal(pub.namespace), mark);
      assert goal == Drive(Stores(), name, Stop(t), weather, 1, limit);
      var done := TearDown(name, t, weather);
      reply := if done then Done else Failed;
    }
  }

  /** What a destroy has reached when it reports success: the owner it found is kept, stopped and unlisted. */
  predicate TornDown(before: World, after: World, name: string, published: bool) {
    && !Do(after, name).Live()
    && (Do(before, name).state.Some? ==>
          var userId := Do(before, name).state.value.userId;
          && C.SameOwner(Do(before, name), Do(after, name))
          && Key(userId, name) !in after.index
          && var principal := if published then Q.PublishedPrincipal(NamespaceOf(name)) else Q.UserPrincipal(userId);
             name !in Reservations(after, principal))
  }
}
