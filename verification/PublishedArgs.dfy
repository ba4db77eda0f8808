// From a published-MCP call to the session it addresses.
module PublishedArgs {
  import opened Prelude
  import opened Text
  import opened SessionTypes
  import opened LifecycleProtocol
  import opened LifecycleSafety
  import opened LifecycleRecovery
  import Q = SessionQuota

  type Args = map<string, Json>

  const DEFAULT_SESSION_ID := "agent-default"
  const DEFAULT_SPACE_ID := "published-mcp"
  const DEFAULT_USER_ID := "takos-agent"

  /** Who presented the token: its bare holder, or a subject with an interface binding. */
  datatype Caller = Direct | InterfaceOAuth(subject: string, workspaceId: Option<string>)

  /** An argument that names something once trimmed. */
  predicate Usable(args: Args, name: string) {
    name in args && args[name].Str? && Trim(args[name].s) != ""
  }

  function ArgOf(args: Args, names: seq<string>, fallback: string): string {
    if names == [] then fallback
    else if Usable(args, names[0]) then Trim(args[names[0]].s)
    else ArgOf(args, names[1..], fallback)
  }

  /** The first usable name decides. */
  lemma {:induction false} FirstUsableDecides(args: Args, names: seq<string>, fallback: string, i: nat)
    requires i < |names| && Usable(args, names[i]) && forall j :: 0 <= j < i ==> !Usable(args, names[j])
    ensures ArgOf(args, names, fallback) == Trim(args[names[i]].s) != ""
    decreases i
  {
    if i > 0 {
      assert !Usable(args, names[0]);
      forall j | 0 <= j < i - 1
        ensures !Usable(args, names[1..][j])
      {
        assert !Usable(args, names[j + 1]);
      }
      FirstUsableDecides(args, names[1..], fallback, i - 1);
    }
  }

  /** Without one, the fallback does. */
  lemma {:induction false} FallbackDecides(args: Args, names: seq<string>, fallback: string)
    requires forall i :: 0 <= i < |names| ==> !Usable(args, names[i])
    ensures ArgOf(args, names, fallback) == fallback
  {
    if names != [] {
      assert !Usable(args, names[0]);
      forall j | 0 <= j < |names| - 1
        ensures !Usable(args, names[1..][j])
      {
        assert !Usable(args, names[j + 1]);
      }
      FallbackDecides(args, names[1..], fallback);
    }
  }

  method NonEmptyStringArg(args: Args, names: seq<string>, fallback: string) returns (r: string)
    ensures r == ArgOf(args, names, fallback)
  {
    for k := 0 to |names|
      invariant ArgOf(args, names[k..], fallback) == ArgOf(args, names, fallback)
    {
      if names[k] !in args || !args[names[k]].Str? {
        continue;
      }
      var trimmed := Trim(args[names[k]].s);
      if trimmed != "" {
        return trimmed;
      }
    }
    r := fallback;
  }

  datatype ArgError = SessionIdOutOfRange

  /**
   * The session and owner a call addresses: the logical id is an argument, the
   * namespace never is, and the owner fields are arguments only of a bare token.
   */
  method Resolve(args: Args, caller: Caller, namespace: string) returns (r: Result<Published, ArgError>)
    requires ValidNamespace(namespace)
    ensures var id := ArgOf(args, ["session_id", "sessionId"], "agent-default");
            && (r.Ok? <==> ValidSessionId(id))
            && (r.Ok? ==> r.value.namespace == namespace && r.value.p.sessionId == id)
    ensures r.Ok? ==> AcceptablePublished(r.value) && IsPublishedScopedId(ScopedId(r.value))
    ensures r.Ok? && caller.InterfaceOAuth? ==>
              && r.value.p.userId == caller.subject
              && r.value.p.spaceId == if caller.workspaceId.Some? then caller.workspaceId.value else ""
    ensures r.Ok? && caller.Direct? ==>
              && r.value.p.userId == ArgOf(args, ["user_id", "userId"], "takos-agent")
              && r.value.p.spaceId == ArgOf(args, ["space_id", "spaceId"], "published-mcp")
  {
    var sessionId := NonEmptyStringArg(args, ["session_id", "sessionId"], DEFAULT_SESSION_ID);
    if !ValidSessionId(sessionId) {
      return Err(SessionIdOutOfRange);
    }
    var spaceId, userId := "", "";
    match caller {
      case InterfaceOAuth(subject, workspaceId) =>
        spaceId := if workspaceId.Some? then workspaceId.value else "";
        userId := subject;
      case Direct =>
        spaceId := NonEmptyStringArg(args, ["space_id", "spaceId"], DEFAULT_SPACE_ID);
        userId := NonEmptyStringArg(args, ["user_id", "userId"], DEFAULT_USER_ID);
    }
    var pub := Published(namespace, CreatePayload(sessionId, spaceId, userId));
    ScopedNameFits(pub);
    r := Ok(pub);
  }

  // ---------------------------------------------------------------------------
  // Isolation

  /** The scoped name gives its namespace and its logical id back, even when the id contains colons. */
  lemma ScopedIdIsInjective(a: Published, b: Published)
    requires ValidNamespace(a.namespace) && ValidNamespace(b.namespace)
    ensures ScopedId(a) == ScopedId(b) <==> a.namespace == b.namespace && a.p.sessionId == b.p.sessionId
  {
    assert ScopedId(a)[..NAMESPACE_LENGTH] == a.namespace && ScopedId(b)[..NAMESPACE_LENGTH] == b.namespace;
    assert ScopedId(a)[NAMESPACE_LENGTH + 1..] == a.p.sessionId && ScopedId(b)[NAMESPACE_LENGTH + 1..] == b.p.sessionId;
  }

  /**
   * Whatever calls of one namespace address, a published call of another reserves in
   * another list and disturbs neither their object nor their request, places or entries.
   */
  lemma NamespacesNeverMeet(w: World, a: Published, b: Published, action: Action, limit: int)
    requires Safe(w, limit) && ValidNamespace(a.namespace) && ValidNamespace(b.namespace) && a.namespace != b.namespace
    requires Subject(action) == ScopedId(a)
    ensures ScopedId(a) != ScopedId(b) && Q.PublishedPrincipal(a.namespace) != Q.PublishedPrincipal(b.namespace)
    ensures SameObjectAt(w, Next(w, action, limit), ScopedId(b))
    ensures AsideAt(w, ScopedId(a), ScopedId(b)) ==> SameEntriesAt(w, Next(w, action, limit), ScopedId(b))
  {
    ScopedIdIsInjective(a, b);
    assert Q.PublishedPrincipal(a.namespace)[10..] == a.namespace;
    assert Q.PublishedPrincipal(b.namespace)[10..] == b.namespace;
    OthersKeepObject(w, action, ScopedId(b), limit);
    if AsideAt(w, ScopedId(a), ScopedId(b)) {
      OthersDoNotDisturb(w, action, ScopedId(b), limit);
    }
  }

  /**
   * The create route never admits a published name, and the entry an ensure writes is no
   * GUI caller's. The entry a session-route destroy writes can be one.
   */
  lemma PublishedStaysOutOfTheGui(pub: Published, scope: Scope, p: CreatePayload, gui: GuiSession, state: SessionState)
    requires ValidNamespace(pub.namespace)
    ensures p.sessionId == ScopedId(pub) ==> !Acceptable(scope, ResolvedPayload(scope, p))
    ensures var job := Job(pub.p, Q.PublishedPrincipal(pub.namespace), true, false);
            !GuiOwns(gui, Entry(ScopedId(pub), job, state))
  {
    ScopedNameFits(pub);
  }
}
