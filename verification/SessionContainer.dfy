// The Durable Object of one sandbox session: what it stores, what it caches,
// and how its calls change both.
module SessionContainer {
  import opened Prelude
  import opened SessionTypes
  import Crypto

  datatype TokenInfo = TokenInfo(sessionId: string, spaceId: string, userId: string)

  datatype TokenEntry = TokenEntry(token: string, info: TokenInfo)

  // A token map in insertion order.
  type TokenMap = seq<TokenEntry>

  /** What survives the instance: the two storage keys. */
  datatype Durable = Durable(tokens: Option<TokenMap>, state: Option<SessionState>)
  {
    predicate Live() { state.Some? && state.value.Live() }

    predicate OwnedBy(user: string, space: string) { state.Some? && state.value.OwnedBy(user, space) }
  }

  const BLANK := Durable(None, None)

  /** How waiting for the container ends; Interrupted is a reset of the instance while it waits. */
  datatype Start = Started | StartFailed | Interrupted

  /** The calls into the platform one call of the object may make, and which of them succeed. */
  datatype Faults = Faults(
    healthy: bool, start: Start, tokensPut: bool, startingPut: bool, activePut: bool, stoppedPut: bool, stop: bool)

  predicate FaultFree(f: Faults) {
    f.start.Started? && f.tokensPut && f.startingPut && f.activePut && f.stoppedPut && f.stop
  }

  datatype Failure = OtherOwner | StorageFailed | ContainerFailed | Reset

  datatype Created = Created(proxyToken: string, reused: bool)

  // ---------------------------------------------------------------------------
  // The calls as functions of what is stored

  function FirstToken(tokens: Option<TokenMap>): Option<string> {
    if tokens.Some? && tokens.value != [] then Some(tokens.value[0].token) else None
  }

  /** A token the reuse path can hand out; the empty string does not count. */
  predicate HasUsableToken(tokens: Option<TokenMap>) {
    FirstToken(tokens).Some? && FirstToken(tokens).value != ""
  }

  function EnsureStarted(d: Durable, f: Faults): (Durable, Result<(), Failure>) {
    if f.healthy then (d, Ok(()))
    else if f.start.Interrupted? then (d, Err(Reset))
    else if f.start.StartFailed? then (d, Err(ContainerFailed))
    else if d.state.Some? && d.state.value.status != Active then
      if f.activePut then (d.(state := Some(d.state.value.(status := Active))), Ok(()))
      else (d, Err(StorageFailed))
    else (d, Ok(()))
  }

  function NewTokens(p: CreatePayload, token: string): TokenMap {
    [TokenEntry(token, TokenInfo(p.sessionId, p.spaceId, p.userId))]
  }

  function NewState(p: CreatePayload, status: Status, now: string): SessionState {
    SessionState(p.sessionId, p.spaceId, p.userId, status, now)
  }

  /** A create that builds a session: tokens, then the starting state, then the container. */
  function CreateFresh(d: Durable, p: CreatePayload, token: string, now: string, f: Faults)
    : (Durable, Result<Created, Failure>)
  {
    if !f.tokensPut then (d, Err(StorageFailed))
    else if !f.startingPut then (d.(tokens := Some(NewTokens(p, token))), Err(StorageFailed))
    else if f.start.Interrupted? then
      (Durable(Some(NewTokens(p, token)), Some(NewState(p, Starting, now))), Err(Reset))
    else if f.start.StartFailed? then (BLANK, Err(ContainerFailed))
    else if !f.activePut then (BLANK, Err(StorageFailed))
    else (Durable(Some(NewTokens(p, token)), Some(NewState(p, Active, now))), Ok(Created(token, false)))
  }

  function Create(d: Durable, p: CreatePayload, force: bool, token: string, now: string, f: Faults)
    : (Durable, Result<Created, Failure>)
  {
    if d.Live() && !force && !d.OwnedBy(p.userId, p.spaceId) then (d, Err(OtherOwner))
    else if d.Live() && !force && HasUsableToken(d.tokens) then
      match EnsureStarted(d, f)
      case (next, Ok(_)) => (next, Ok(Created(FirstToken(d.tokens).value, true)))
      case (next, Err(e)) => (next, Err(e))
    else
      CreateFresh(if d.state.Some? && force then BLANK else d, p, token, now, f)
  }

  function Destroy(d: Durable, f: Faults): (Durable, Result<(), Failure>) {
    if d.state.Some? && !f.stoppedPut then (d, Err(StorageFailed))
    else
      var next := if d.state.Some? then d.(state := Some(d.state.value.(status := Stopped))) else d;
      (next, if f.stop then Ok(()) else Err(ContainerFailed))
  }

  function VerifyIn(tokens: TokenMap, token: string): Option<TokenInfo> {
    if tokens == [] then None
    else if tokens[0].token == token then Some(tokens[0].info)
    else VerifyIn(tokens[1..], token)
  }

  /** The first entry of this token carries this info. */
  ghost predicate FirstWith(tokens: TokenMap, token: string, info: TokenInfo) {
    exists i ::
      0 <= i < |tokens| && tokens[i] == TokenEntry(token, info) && forall j :: 0 <= j < i ==> tokens[j].token != token
  }

  /** A token is accepted exactly when it is stored, and then for what its first entry says. */
  lemma {:induction false} VerifyInFindsFirst(tokens: TokenMap, token: string)
    ensures VerifyIn(tokens, token).Some? <==> exists e :: e in tokens && e.token == token
    ensures VerifyIn(tokens, token).Some? ==> FirstWith(tokens, token, VerifyIn(tokens, token).value)
  {
    if tokens != [] {
      VerifyInFindsFirst(tokens[1..], token);
      if tokens[0].token == token {
        assert tokens[0] == TokenEntry(token, tokens[0].info);
      } else if VerifyIn(tokens, token).Some? {
        var info := VerifyIn(tokens, token).value;
        var i :| 0 <= i < |tokens| - 1 && tokens[1..][i] == TokenEntry(token, info)
              && forall j :: 0 <= j < i ==> tokens[1..][j].token != token;
        assert tokens[i + 1] == TokenEntry(token, info);
        assert forall j :: 1 <= j < i + 1 ==> tokens[j] == tokens[1..][j - 1];
      }
    }
  }

  lemma VerifyFindsFirst(tokens: Option<TokenMap>, token: string)
    ensures var info := if tokens.None? then None else VerifyIn(tokens.value, token);
            && (info.Some? <==> tokens.Some? && exists e :: e in tokens.value && e.token == token)
            && (info.Some? ==> FirstWith(tokens.value, token, info.value))
  {
    if tokens.Some? {
      VerifyInFindsFirst(tokens.value, token);
    }
  }

  function Verify(d: Durable, token: string): Option<TokenInfo> {
    if d.tokens.None? then None else VerifyIn(d.tokens.value, token)
  }

  datatype Forwarded = Gone | Delivered

  function Forward(d: Durable, f: Faults): (Durable, Result<Forwarded, Failure>) {
    if !d.Live() then (d, Ok(Gone))
    else
      match EnsureStarted(d, f)
      case (next, Ok(_)) => (next, Ok(Delivered))
      case (next, Err(e)) => (next, Err(e))
  }

  // ---------------------------------------------------------------------------
  // The object: storage, and write-through copies of it in the instance

  class SandboxSessionContainer {
    var storedTokens: Option<TokenMap>
    var storedState: Option<SessionState>

    var cachedTokens: Option<TokenMap>
    var sessionState: Option<SessionState>
    var proxyTokensLoaded: bool
    var sessionStateLoaded: bool

    /** A copy marked loaded is the stored value. */
    ghost predicate Coherent()
      reads this
    {
      && (proxyTokensLoaded ==> cachedTokens == storedTokens)
      && (sessionStateLoaded ==> sessionState == storedState)
    }

    ghost function View(): Durable
      reads this
    {
      Durable(storedTokens, storedState)
    }

    constructor ()
      ensures Coherent() && View() == BLANK
    {
      storedTokens, storedState := None, None;
      cachedTokens, sessionState := None, None;
      proxyTokensLoaded, sessionStateLoaded := false, false;
    }

    /** The platform drops the instance; the next call meets a fresh one. */
    method Evict()
      modifies this
      ensures Coherent() && View() == old(View())
    {
      cachedTokens, sessionState := None, None;
      proxyTokensLoaded, sessionStateLoaded := false, false;
    }

    method EnsureProxyTokensLoaded()
      requires Coherent()
      modifies `cachedTokens, `proxyTokensLoaded
      ensures Coherent() && proxyTokensLoaded
    {
      if !proxyTokensLoaded {
        cachedTokens := storedTokens;
        proxyTokensLoaded := true;
      }
    }

    method EnsureSessionStateLoaded()
      requires Coherent()
      modifies `sessionState, `sessionStateLoaded
      ensures Coherent() && sessionStateLoaded
    {
      if !sessionStateLoaded {
        sessionState := storedState;
        sessionStateLoaded := true;
      }
    }

    method PersistProxyTokens(tokenMap: TokenMap, put: bool) returns (ok: bool)
      requires Coherent()
      modifies `storedTokens, `cachedTokens, `proxyTokensLoaded
      ensures Coherent() && ok == put
      ensures storedTokens == if put then Some(tokenMap) else old(storedTokens)
      ensures proxyTokensLoaded == (put || old(proxyTokensLoaded))
    {
      if !put {
        return false;
      }
      storedTokens := Some(tokenMap);
      cachedTokens := Some(tokenMap);
      proxyTokensLoaded := true;
      ok := true;
    }

    method PersistSessionState(state: SessionState, put: bool) returns (ok: bool)
      requires Coherent()
      modifies `storedState, `sessionState, `sessionStateLoaded
      ensures Coherent() && ok == put
      ensures storedState == if put then Some(state) else old(storedState)
      ensures sessionStateLoaded == (put || old(sessionStateLoaded))
    {
      if !put {
        return false;
      }
      storedState := Some(state);
      sessionState := Some(state);
      sessionStateLoaded := true;
      ok := true;
    }

    /**
     * The copies are cleared before the deletes are known to succeed, so they
     * agree with storage afterwards exactly when no delete failed on a stored key.
     */
    method ClearPersistedSession(tokensDelete: bool, stateDelete: bool)
      modifies this
      ensures storedTokens == if tokensDelete then None else old(storedTokens)
      ensures storedState == if stateDelete then None else old(storedState)
      ensures Coherent() <==> (tokensDelete || old(storedTokens).None?) && (stateDelete || old(storedState).None?)
      ensures cachedTokens == None && sessionState == None && proxyTokensLoaded && sessionStateLoaded
    {
      cachedTokens, sessionState := None, None;
      proxyTokensLoaded, sessionStateLoaded := true, true;
      if tokensDelete {
        storedTokens := None;
      }
      if stateDelete {
        storedState := None;
      }
    }

    method EnsureContainerStarted(f: Faults) returns (r: Result<(), Failure>)
      requires Coherent() && sessionStateLoaded
      modifies this
      ensures Coherent()
      ensures (View(), r) == EnsureStarted(old(View()), f)
    {
      if f.healthy {
        return Ok(());
      }
      match f.start {
        case Interrupted =>
          Evict();
          return Err(Reset);
        case StartFailed =>
          return Err(ContainerFailed);
        case Started =>
      }
      if sessionState.Some? && sessionState.value.status != Active {
        var ok := PersistSessionState(sessionState.value.(status := Active), f.activePut);
        if !ok {
          return Err(StorageFailed);
        }
      }
      r := Ok(());
    }

    /** Tokens, the starting state, the container, the active state: the part of a create that builds a session. */
    method BuildSession(p: CreatePayload, token: string, now: string, f: Faults) returns (r: Result<Created, Failure>)
      requires Coherent()
      modifies this
      ensures Coherent()
      ensures (View(), r) == CreateFresh(old(View()), p, token, now, f)
    {
      var ok := PersistProxyTokens(NewTokens(p, token), f.tokensPut);
      if !ok {
        return Err(StorageFailed);
      }
      ok := PersistSessionState(NewState(p, Starting, now), f.startingPut);
      if !ok {
        return Err(StorageFailed);
      }
      match f.start {
        case Interrupted =>
          Evict();
          return Err(Reset);
        case StartFailed =>
          ClearPersistedSession(true, true);
          return Err(ContainerFailed);
        case Started =>
      }
      ok := PersistSessionState(NewState(p, Active, now), f.activePut);
      if !ok {
        ClearPersistedSession(true, true);
        return Err(StorageFailed);
      }
      r := Ok(Created(token, false));
    }

    /** Deletes succeed here; a failing one is the subject of ClearPersistedSession. */
    method CreateSession(p: CreatePayload, force: bool, token: string, now: string, f: Faults)
      returns (r: Result<Created, Failure>)
      requires Coherent()
      modifies this
      ensures Coherent()
      ensures (View(), r) == Create(old(View()), p, force, token, now, f)
    {
      EnsureSessionStateLoaded();
      EnsureProxyTokensLoaded();
      var existing := sessionState;
      if existing.Some? && existing.value.status != Stopped && !force {
        var ownerChanged := existing.value.userId != p.userId || existing.value.spaceId != p.spaceId;
        if ownerChanged {
          return Err(OtherOwner);
        }
        var reusedToken := FirstToken(cachedTokens);
        if reusedToken.Some? && reusedToken.value != "" {
          var started := EnsureContainerStarted(f);
          if started.Err? {
            return Err(started.error);
          }
          return Ok(Created(reusedToken.value, true));
        }
      }
      if existing.Some? && force {
        ClearPersistedSession(true, true);
      }
      r := BuildSession(p, token, now, f);
    }

    /** Every stored token is compared in full. */
    method VerifyProxyToken(token: string) returns (info: Option<TokenInfo>)
      requires Coherent()
      modifies `cachedTokens, `proxyTokensLoaded
      ensures Coherent() && View() == old(View())
      ensures info.Some? <==> storedTokens.Some? && exists e :: e in storedTokens.value && e.token == token
      ensures info.Some? ==> FirstWith(storedTokens.value, token, info.value)
      ensures info == Verify(View(), token)
    {
      VerifyFindsFirst(storedTokens, token);
      EnsureProxyTokensLoaded();
      if cachedTokens.None? {
        return None;
      }
      var tokens := cachedTokens.value;
      for i := 0 to |tokens|
        invariant Coherent() && proxyTokensLoaded
        invariant VerifyIn(tokens[i..], token) == VerifyIn(tokens, token)
      {
        var equal := Crypto.ConstantTimeEqual(token, tokens[i].token);
        if equal {
          return Some(tokens[i].info);
        }
      }
      info := None;
    }

    method GetSessionState() returns (state: Option<SessionState>)
      requires Coherent()
      modifies `sessionState, `sessionStateLoaded
      ensures Coherent() && state == View().state
    {
      EnsureSessionStateLoaded();
      state := sessionState;
    }

    method DestroySession(f: Faults) returns (r: Result<(), Failure>)
      requires Coherent()
      modifies this
      ensures Coherent()
      ensures (View(), r) == Destroy(old(View()), f)
    {
      EnsureSessionStateLoaded();
      if sessionState.Some? {
        var ok := PersistSessionState(sessionState.value.(status := Stopped), f.stoppedPut);
        if !ok {
          return Err(StorageFailed);
        }
      }
      r := if f.stop then Ok(()) else Err(ContainerFailed);
    }

    method ForwardToContainer(f: Faults) returns (r: Result<Forwarded, Failure>)
      requires Coherent()
      modifies this
      ensures Coherent()
      ensures (View(), r) == Forward(old(View()), f)
      ensures r == Ok(Gone) <==> storedState.None? || storedState.value.status == Stopped
      ensures r == Ok(Delivered) ==> f.healthy || (f.start.Started? && storedState.value.status == Active)
    {
      EnsureSessionStateLoaded();
      if sessionState.None? || sessionState.value.status == Stopped {
        return Ok(Gone);
      }
      var started := EnsureContainerStarted(f);
      r := if started.Ok? then Ok(Delivered) else Err(started.error);
    }
  }

  // ---------------------------------------------------------------------------
  // What each call answers

  /** A create over a session that is not live succeeds exactly when nothing it needs fails, with a fresh token. */
  lemma FreshCreateSucceedsExactly(d: Durable, p: CreatePayload, token: string, now: string, f: Faults)
    requires !d.Live()
    ensures var (next, r) := Create(d, p, false, token, now, f);
            && (r.Ok? <==> f.tokensPut && f.startingPut && f.start.Started? && f.activePut)
            && (r.Ok? ==> r.value == Created(token, false) && next.Live() && next.state.value.status == Active
                          && next.OwnedBy(p.userId, p.spaceId) && next.state.value.sessionId == p.sessionId)
  {
  }

  /** A create that got as far as the container and failed there, or after it, leaves nothing stored. */
  lemma FailedStartLeavesNothing(d: Durable, p: CreatePayload, force: bool, token: string, now: string, f: Faults)
    requires !d.Live() || force
    requires f.tokensPut && f.startingPut && (f.start.StartFailed? || (f.start.Started? && !f.activePut))
    ensures var (next, r) := Create(d, p, force, token, now, f);
            next.state.None? && next.tokens.None? && r.Err?
  {
  }

  /** A create cut off while the container starts leaves the caller's session starting, with its token. */
  lemma InterruptedCreateIsStarting(d: Durable, p: CreatePayload, force: bool, token: string, now: string, f: Faults)
    requires (!d.Live() || force) && f.tokensPut && f.startingPut && f.start.Interrupted?
    ensures var (next, r) := Create(d, p, force, token, now, f);
            && r.Err? && next.state.Some? && next.state.value.status == Starting && next.OwnedBy(p.userId, p.spaceId)
            && Verify(next, token) == Some(TokenInfo(p.sessionId, p.spaceId, p.userId))
  {
  }

  /** The owner of a live session gets its token back, and the container runs: no second token, no second session. */
  lemma OwnerReusesSession(d: Durable, p: CreatePayload, token: string, now: string, f: Faults)
    requires d.Live() && d.OwnedBy(p.userId, p.spaceId) && HasUsableToken(d.tokens)
    ensures var (next, r) := Create(d, p, false, token, now, f);
            && next.tokens == d.tokens && next.Live() && SameOwner(d, next)
            && (r.Ok? ==> d.tokens.value != [] && r.value == Created(d.tokens.value[0].token, true))
            && (f.healthy || (f.start.Started? && f.activePut) ==> r.Ok?)
            && (r.Ok? && !f.healthy ==> next.state.value.status == Active)
            && (f.healthy ==> next == d)
  {
  }

  /** When nothing fails, a create succeeds exactly where no other owner's session is live. */
  lemma FaultFreeCreateSucceeds(d: Durable, p: CreatePayload, token: string, now: string, f: Faults)
    requires FaultFree(f)
    ensures var (next, r) := Create(d, p, false, token, now, f);
            && (r.Ok? <==> !d.Live() || d.OwnedBy(p.userId, p.spaceId))
            && (r.Ok? ==> next.Live() && next.OwnedBy(p.userId, p.spaceId))
  {
  }

  /** With force the previous session, whoever owned it, is gone: the new owner's token is the only one accepted. */
  lemma ForcedCreateReplaces(d: Durable, p: CreatePayload, token: string, now: string, f: Faults)
    ensures var (next, r) := Create(d, p, true, token, now, f);
            && (r.Ok? <==> f.tokensPut && f.startingPut && f.start.Started? && f.activePut)
            && (r.Ok? ==> r.value == Created(token, false) && next.OwnedBy(p.userId, p.spaceId)
                          && next.tokens == Some([TokenEntry(token, TokenInfo(p.sessionId, p.spaceId, p.userId))]))
            && (next.state.Some? && d.state.Some? ==> next.OwnedBy(p.userId, p.spaceId))
  {
  }

  /** A request reaches a container exactly over a live session whose container runs or starts. */
  lemma ForwardAnswersExactly(d: Durable, f: Faults)
    ensures var (next, r) := Forward(d, f);
            && (r == Ok(Gone) <==> !d.Live())
            && (r == Ok(Delivered) <==>
                d.Live() && (f.healthy || (f.start.Started? && (d.state.value.status == Active || f.activePut))))
            && (r == Ok(Delivered) && !f.healthy ==> next.state.value.status == Active)
            && (f.healthy || r.Err? ==> next == d) && next.tokens == d.tokens
  {
  }

  /** A destroy succeeds exactly when the stop is stored and the container stops; what is stored is then stopped. */
  lemma DestroyAnswersExactly(d: Durable, f: Faults)
    ensures var (next, r) := Destroy(d, f);
            && (r.Ok? <==> (d.state.None? || f.stoppedPut) && f.stop)
            && (d.state.Some? && f.stoppedPut ==> next.state == Some(d.state.value.(status := Stopped)))
            && (d.state.Some? && !f.stoppedPut ==> next == d)
  {
  }

  // ---------------------------------------------------------------------------
  // Histories of calls

  datatype Call =
    | CreateCall(payload: CreatePayload, force: bool, token: string, now: string, f: Faults)
    | DestroyCall(f: Faults)
    | VerifyCall(token: string)
    | StateCall
    | ForwardCall(f: Faults)

  datatype Reply =
    | CreateReply(created: Result<Created, Failure>)
    | DestroyReply(destroyed: Result<(), Failure>)
    | VerifyReply(info: Option<TokenInfo>)
    | StateReply(state: Option<SessionState>)
    | ForwardReply(forwarded: Result<Forwarded, Failure>)

  function Step(d: Durable, call: Call): (Durable, Reply) {
    match call
    case CreateCall(p, force, token, now, f) =>
      var (next, r) := Create(d, p, force, token, now, f);
      (next, CreateReply(r))
    case DestroyCall(f) => var (next, r) := Destroy(d, f); (next, DestroyReply(r))
    case VerifyCall(token) => (d, VerifyReply(Verify(d, token)))
    case StateCall => (d, StateReply(d.state))
    case ForwardCall(f) => var (next, r) := Forward(d, f); (next, ForwardReply(r))
  }

  function Replies(d: Durable, calls: seq<Call>): seq<Reply>
    decreases |calls|
  {
    if calls == [] then [] else var (next, reply) := Step(d, calls[0]); [reply] + Replies(next, calls[1..])
  }

  function After(d: Durable, calls: seq<Call>): Durable
    decreases |calls|
  {
    if calls == [] then d else After(Step(d, calls[0]).0, calls[1..])
  }

  /** A history as the object lives it: calls, and evictions the caller does not see. */
  datatype Turn = Evicted | Called(call: Call)

  function CallsOf(history: seq<Turn>): seq<Call> {
    if history == [] then []
    else (if history[0].Called? then [history[0].call] else []) + CallsOf(history[1..])
  }

  lemma {:induction false} HistoryGrows(d: Durable, calls: seq<Call>, call: Call)
    ensures Replies(d, calls + [call]) == Replies(d, calls) + [Step(After(d, calls), call).1]
    ensures After(d, calls + [call]) == Step(After(d, calls), call).0
    decreases |calls|
  {
    if calls == [] {
      assert calls + [call] == [call];
      assert [call][1..] == [];
    } else {
      assert (calls + [call])[1..] == calls[1..] + [call];
      HistoryGrows(Step(d, calls[0]).0, calls[1..], call);
    }
  }

  lemma {:induction false} CallsOfGrows(history: seq<Turn>, turn: Turn)
    ensures CallsOf(history + [turn]) == CallsOf(history) + if turn.Called? then [turn.call] else []
  {
    if history == [] {
      assert history + [turn] == [turn];
      assert [turn][1..] == [];
    } else {
      var first := if history[0].Called? then [history[0].call] else [];
      assert (history + [turn])[1..] == history[1..] + [turn];
      CallsOfGrows(history[1..], turn);
      assert CallsOf(history + [turn]) == first + CallsOf(history[1..] + [turn]);
      assert CallsOf(history) == first + CallsOf(history[1..]);
    }
  }

  method Answer(c: SandboxSessionContainer, call: Call) returns (reply: Reply)
    requires c.Coherent()
    modifies c
    ensures c.Coherent()
    ensures (c.View(), reply) == Step(old(c.View()), call)
  {
    match call {
      case CreateCall(p, force, token, now, f) =>
        var r := c.CreateSession(p, force, token, now, f);
        reply := CreateReply(r);
      case DestroyCall(f) =>
        var r := c.DestroySession(f);
        reply := DestroyReply(r);
      case VerifyCall(token) =>
        var r := c.VerifyProxyToken(token);
        reply := VerifyReply(r);
      case StateCall =>
        var r := c.GetSessionState();
        reply := StateReply(r);
      case ForwardCall(f) =>
        var r := c.ForwardToContainer(f);
        reply := ForwardReply(r);
    }
  }

  /** Evictions anywhere in a history, even with failing puts, change no reply and nothing stored. */
  method Replay(c: SandboxSessionContainer, history: seq<Turn>) returns (replies: seq<Reply>)
    requires c.Coherent()
    modifies c
    ensures c.Coherent()
    ensures replies == Replies(old(c.View()), CallsOf(history))
    ensures c.View() == After(old(c.View()), CallsOf(history))
  {
    replies := [];
    ghost var d := c.View();
    for i := 0 to |history|
      invariant c.Coherent()
      invariant replies == Replies(d, CallsOf(history[..i])) && c.View() == After(d, CallsOf(history[..i]))
    {
      assert history[..i + 1] == history[..i] + [history[i]];
      CallsOfGrows(history[..i], history[i]);
      if history[i].Evicted? {
        assert CallsOf(history[..i + 1]) == CallsOf(history[..i]);
        c.Evict();
      } else {
        HistoryGrows(d, CallsOf(history[..i]), history[i].call);
        assert CallsOf(history[..i + 1]) == CallsOf(history[..i]) + [history[i].call];
        var reply := Answer(c, history[i].call);
        replies := replies + [reply];
      }
    }
    assert history[..|history|] == history;
  }

  // ---------------------------------------------------------------------------
  // What the calls keep

  /** A live session holds one token, issued to its owner. */
  ghost predicate Guarded(d: Durable) {
    d.Live() ==>
      && d.tokens.Some? && |d.tokens.value| == 1
      && d.tokens.value[0].token != ""
      && d.tokens.value[0].info == TokenInfo(d.state.value.sessionId, d.state.value.spaceId, d.state.value.userId)
  }

  lemma CallsKeepGuarded(d: Durable, call: Call)
    requires Guarded(d) && (call.CreateCall? ==> call.token != "")
    ensures Guarded(Step(d, call).0)
  {
  }

  /** From a blank object, over every run and every fault, a live session has its owner's one token. */
  lemma {:induction false} EveryRunIsGuarded(d: Durable, calls: seq<Call>)
    requires Guarded(d) && forall i :: 0 <= i < |calls| && calls[i].CreateCall? ==> calls[i].token != ""
    ensures Guarded(After(d, calls))
    decreases |calls|
  {
    if calls != [] {
      CallsKeepGuarded(d, calls[0]);
      EveryRunIsGuarded(Step(d, calls[0]).0, calls[1..]);
    }
  }

  predicate SameOwner(a: Durable, b: Durable) {
    a.state.Some? && b.state.Some? && b.state.value.OwnedBy(a.state.value.userId, a.state.value.spaceId)
    && a.state.value.sessionId == b.state.value.sessionId
  }

  ghost predicate StaysLive(d: Durable, calls: seq<Call>)
    decreases |calls|
  {
    d.Live() && (calls != [] ==> StaysLive(Step(d, calls[0]).0, calls[1..]))
  }

  /** Without force, a session that stays live keeps its owner and its token. */
  lemma {:induction false} LiveSessionKeepsOwner(d: Durable, calls: seq<Call>)
    requires StaysLive(d, calls) && HasUsableToken(d.tokens)
    requires forall i :: 0 <= i < |calls| && calls[i].CreateCall? ==> !calls[i].force
    ensures SameOwner(d, After(d, calls)) && After(d, calls).tokens == d.tokens
    decreases |calls|
  {
    if calls != [] {
      var next := Step(d, calls[0]).0;
      assert calls[0].CreateCall? ==> !calls[0].force;
      assert SameOwner(d, next) && next.tokens == d.tokens;
      LiveSessionKeepsOwner(next, calls[1..]);
    }
  }

  /** A create is refused for its owner exactly on a live session of another one, and then changes nothing. */
  lemma ForeignCreateChangesNothing(d: Durable, p: CreatePayload, token: string, now: string, f: Faults)
    ensures Create(d, p, false, token, now, f).1 == Err(OtherOwner) <==> d.Live() && !d.OwnedBy(p.userId, p.spaceId)
    ensures d.Live() && !d.OwnedBy(p.userId, p.spaceId) ==> Create(d, p, false, token, now, f).0 == d
  {
  }

  /** A token handed out by a create verifies to the session it was created for, until and after the stop. */
  lemma IssuedTokenVerifies(d: Durable, p: CreatePayload, token: string, now: string, f: Faults, g: Faults)
    requires Guarded(d) && token != ""
    requires d.Live() ==> d.state.value.sessionId == p.sessionId
    requires Create(d, p, false, token, now, f).1.Ok?
    ensures var (next, r) := Create(d, p, false, token, now, f);
            && Verify(next, r.value.proxyToken) == Some(TokenInfo(p.sessionId, p.spaceId, p.userId))
            && Verify(Destroy(next, g).0, r.value.proxyToken) == Some(TokenInfo(p.sessionId, p.spaceId, p.userId))
            && next.OwnedBy(p.userId, p.spaceId) && next.Live()
  {
  }

  /** Over every run, a live session accepts one token, for its own owner, and no other text. */
  lemma LiveSessionAcceptsItsTokenOnly(d: Durable, calls: seq<Call>, token: string)
    requires Guarded(d) && forall i :: 0 <= i < |calls| && calls[i].CreateCall? ==> calls[i].token != ""
    requires After(d, calls).Live()
    ensures var end := After(d, calls);
            && end.tokens.Some? && |end.tokens.value| == 1
            && (Verify(end, token).Some? <==> token == end.tokens.value[0].token)
            && (Verify(end, token).Some? ==>
                  var state := end.state.value;
                  Verify(end, token).value == TokenInfo(state.sessionId, state.spaceId, state.userId))
  {
    EveryRunIsGuarded(d, calls);
    var tokens := After(d, calls).tokens.value;
    VerifyInFindsFirst(tokens, token);
    assert tokens[1..] == [];
  }

  /** A destroy, however it fails, leaves the owner and the token for a retry; it succeeds stopped. */
  lemma DestroyKeepsTombstone(d: Durable, f: Faults)
    ensures Destroy(d, f).0.tokens == d.tokens
    ensures d.state.Some? ==> SameOwner(d, Destroy(d, f).0)
    ensures Destroy(d, f).1.Ok? ==> !Destroy(d, f).0.Live()
    ensures d.state.None? ==> Destroy(d, f).0.state.None?
  {
  }
}
