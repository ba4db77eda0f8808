// Where the entries a GUI caller can see come from: over every run, whatever fails
// and whoever is cut off, from a create that asked for exactly that id and owner.
module LifecycleProvenance {
  import opened Prelude
  import opened SessionTypes
  import opened LifecycleProtocol
  import opened LifecycleSafety
  import opened LifecycleRecovery
  import opened LifecycleExact
  import C = SessionContainer
  import Q = SessionQuota
  import I = SessionIndex
  import Utf8

  // ---------------------------------------------------------------------------
  // What a run was asked for

  /** What an accepted create asks for, owner fields resolved. */
  function Ask(a: Action): Option<CreatePayload> {
    match a
    case StartCreate(scope, p) =>
      if Acceptable(scope, ResolvedPayload(scope, p)) then Some(ResolvedPayload(scope, p)) else None
    case _ => None
  }

  ghost predicate Asked(actions: seq<Action>, p: CreatePayload) {
    exists i :: 0 <= i < |actions| && Ask(actions[i]) == Some(p)
  }

  function PayloadOf(state: SessionState): CreatePayload {
    CreatePayload(state.sessionId, state.spaceId, state.userId)
  }

  /** The id behind a scoped name. */
  function LogicalId(name: string): string {
    if |name| > NAMESPACE_LENGTH then name[NAMESPACE_LENGTH + 1..] else ""
  }

  /** No session-route destroy is aimed at a published name, unless its logical id is in the reserved range itself. */
  predicate KeepsReserved(a: Action) {
    a.StartDestroy? && IsPublishedScopedId(a.name) ==> IsPublishedScopedId(LogicalId(a.name))
  }

  predicate AllKeepReserved(actions: seq<Action>) {
    forall i :: 0 <= i < |actions| ==> KeepsReserved(actions[i])
  }

  // ---------------------------------------------------------------------------
  // The invariant

  /** In the reserved range, or asked for. */
  ghost predicate Vouched(actions: seq<Action>, state: SessionState) {
    IsPublishedScopedId(state.sessionId) || Asked(actions, PayloadOf(state))
  }

  ghost predicate ObjectVouched(actions: seq<Action>, name: string, d: C.Durable) {
    d.state.Some? && !IsPublishedScopedId(name) ==> Asked(actions, PayloadOf(d.state.value))
  }

  ghost predicate JobVouched(actions: seq<Action>, name: string, job: Job) {
    !IsPublishedScopedId(name) ==> Asked(actions, job.p)
  }

  ghost predicate TeardownVouched(actions: seq<Action>, t: Teardown) {
    t.mark.Some? ==> Vouched(actions, t.mark.value)
  }

  ghost predicate RequestVouched(actions: seq<Action>, name: string, r: Request) {
    match r
    case CreateRead(_, p) => Asked(actions, p)
    case EnsureRead(_) => true
    case RemoveRead(_) => true
    case DestroyRead => IsPublishedScopedId(name) ==> IsPublishedScopedId(LogicalId(name))
    case TouchReserve(_) => true
    case Reserve(job) => JobVouched(actions, name, job)
    case Call(job) => JobVouched(actions, name, job)
    case ReadBack(job) => JobVouched(actions, name, job)
    case Index(job, state) =>
      JobVouched(actions, name, job) && (!IsPublishedScopedId(name) ==> Asked(actions, PayloadOf(state)))
    case UndoStop(_) => true
    case UndoUnindex(_) => true
    case UndoRelease(_) => true
    case Stop(t) => TeardownVouched(actions, t)
    case Mark(t) => TeardownVouched(actions, t)
    case Unindex(_) => true
    case Release(_) => true
  }

  ghost predicate NameVouched(actions: seq<Action>, w: World, name: string) {
    && ObjectVouched(actions, name, Do(w, name))
    && (name in w.inFlight ==> RequestVouched(actions, name, w.inFlight[name]))
  }

  ghost predicate EntriesVouched(actions: seq<Action>, w: World) {
    forall key :: key in w.index ==> Vouched(actions, w.index[key])
  }

  ghost predicate AllVouched(actions: seq<Action>, w: World) {
    EntriesVouched(actions, w) && forall name :: NameVouched(actions, w, name)
  }

  /** The state behind a published name carries the name's logical id. */
  lemma StoredIdIsLogical(name: string, sessionId: string)
    requires IdOf(name, sessionId) && IsPublishedScopedId(name)
    ensures sessionId == LogicalId(name)
  {
    assert |NamespaceOf(name)| == NAMESPACE_LENGTH || NamespaceOf(name) == name;
  }

  /** A create leaves the payload that was stored, or the one it was called with. */
  lemma CreateStaysVouched(actions: seq<Action>, w: World, name: string, job: Job, v: Weather)
    requires ObjectVouched(actions, name, Do(w, name)) && JobVouched(actions, name, job)
    requires !IsPublishedScopedId(name) ==> job.p.sessionId == name
    ensures ObjectVouched(actions, name, C.Create(Do(w, name), job.p, false, v.token, v.now, v.f).0)
  {
    CreateLeaves(Do(w, name), job.p, v);
    var next := C.Create(Do(w, name), job.p, false, v.token, v.now, v.f).0;
    if next.state.Some? {
      assert PayloadOf(next.state.value) == job.p
          || (Do(w, name).state.Some? && PayloadOf(next.state.value) == PayloadOf(Do(w, name).state.value));
    }
  }

  lemma ObjectStaysVouched(actions: seq<Action>, w: World, name: string, r: Request, v: Weather, limit: int)
    requires Fits(w, name, Some(r)) && ObjectVouched(actions, name, Do(w, name)) && RequestVouched(actions, name, r)
    ensures ObjectVouched(actions, name, Do(Step(w, name, r, v, limit).0, name))
  {
    if r.Call? {
      CreateStaysVouched(actions, w, name, r.job, v);
    }
  }

  /** A read of a destroy carries on the state it saw, under the name or under the id behind it. */
  lemma TeardownReadStaysVouched(actions: seq<Action>, w: World, name: string, r: Request, v: Weather, limit: int)
    requires Fits(w, name, Some(r)) && ObjectVouched(actions, name, Do(w, name)) && RequestVouched(actions, name, r)
    requires r.DestroyRead? || r.RemoveRead?
    ensures var after := Step(w, name, r, v, limit).1; after.Some? ==> RequestVouched(actions, name, after.value)
  {
    if r.RemoveRead? {
      ScopedNameFits(r.pub);
    } else if Do(w, name).state.Some? {
      var state := Do(w, name).state.value;
      if IsPublishedScopedId(name) {
        StoredIdIsLogical(name, state.sessionId);
      }
      assert PayloadOf(state.(status := Stopped)) == PayloadOf(state);
    }
  }

  lemma RequestStaysVouched(actions: seq<Action>, w: World, name: string, r: Request, v: Weather, limit: int)
    requires Fits(w, name, Some(r)) && ObjectVouched(actions, name, Do(w, name)) && RequestVouched(actions, name, r)
    ensures var after := Step(w, name, r, v, limit).1; after.Some? ==> RequestVouched(actions, name, after.value)
  {
    if r.DestroyRead? || r.RemoveRead? {
      TeardownReadStaysVouched(actions, w, name, r, v, limit);
    }
  }

  lemma EntriesStayVouched(actions: seq<Action>, w: World, name: string, r: Request, v: Weather, limit: int)
    requires Fits(w, name, Some(r)) && RequestVouched(actions, name, r) && EntriesVouched(actions, w)
    ensures EntriesVouched(actions, Step(w, name, r, v, limit).0)
  {
    if !IsIndexCall(r) {
      OtherCallsKeepIndex(w, name, r, v, limit);
    } else if r.Index? {
      assert Vouched(actions, Entry(name, r.job, r.state));
    } else if r.Mark? && r.t.mark.Some? {
      assert Vouched(actions, r.t.mark.value);
    }
  }

  lemma ProceedStaysVouched(actions: seq<Action>, w: World, name: string, v: Weather, limit: int)
    requires Safe(w, limit) && AllVouched(actions, w) && name in w.inFlight
    ensures EntriesVouched(actions, Proceeded(w, name, v, limit))
    ensures NameVouched(actions, Proceeded(w, name, v, limit), name)
  {
    var r := w.inFlight[name];
    SafeEverywhere(w, limit, name);
    assert NameVouched(actions, w, name);
    ObjectStaysVouched(actions, w, name, r, v, limit);
    RequestStaysVouched(actions, w, name, r, v, limit);
    EntriesStayVouched(actions, w, name, r, v, limit);
    var (stores, after) := Step(w, name, r, v, limit);
    assert Do(Settle(stores, name, after), name) == Do(stores, name);
  }

  lemma ForwardStaysVouched(actions: seq<Action>, w: World, name: string, v: Weather, limit: int)
    requires NameVouched(actions, w, name)
    ensures NameVouched(actions, Next(w, ForwardMcp(name, v), limit), name)
  {
    ForwardKeepsOwner(Do(w, name), v);
  }

  lemma StartStaysVouched(actions: seq<Action>, w: World, a: Action, limit: int)
    requires NameVouched(actions, w, Subject(a)) && !a.Proceed? && !a.ForwardMcp? && KeepsReserved(a)
    requires Ask(a).Some? ==> Asked(actions, Ask(a).value)
    ensures NameVouched(actions, Next(w, a, limit), Subject(a)) && Next(w, a, limit).index == w.index
  {
    assert Do(Next(w, a, limit), Subject(a)) == Do(w, Subject(a));
  }

  lemma SubjectStaysVouched(actions: seq<Action>, w: World, a: Action, limit: int)
    requires Safe(w, limit) && AllVouched(actions, w) && KeepsReserved(a)
    requires Ask(a).Some? ==> Asked(actions, Ask(a).value)
    ensures EntriesVouched(actions, Next(w, a, limit)) && NameVouched(actions, Next(w, a, limit), Subject(a))
  {
    assert NameVouched(actions, w, Subject(a));
    if a.Proceed? {
      if a.name in w.inFlight {
        ProceedStaysVouched(actions, w, a.name, a.v, limit);
      }
    } else if a.ForwardMcp? {
      ForwardStaysVouched(actions, w, a.name, a.v, limit);
    } else {
      StartStaysVouched(actions, w, a, limit);
    }
  }

  lemma ActionStaysVouched(actions: seq<Action>, w: World, a: Action, limit: int)
    requires Safe(w, limit) && AllVouched(actions, w) && KeepsReserved(a)
    requires Ask(a).Some? ==> Asked(actions, Ask(a).value)
    ensures AllVouched(actions, Next(w, a, limit))
  {
    SubjectStaysVouched(actions, w, a, limit);
    forall name
      ensures NameVouched(actions, Next(w, a, limit), name)
    {
      if name != Subject(a) {
        assert NameVouched(actions, w, name);
        OthersKeepObject(w, a, name, limit);
      }
    }
  }

  lemma {:induction false} RunStaysVouched(all: seq<Action>, w: World, actions: seq<Action>, limit: int)
    requires Safe(w, limit) && AllVouched(all, w) && AllKeepReserved(actions)
    requires forall i :: 0 <= i < |actions| && Ask(actions[i]).Some? ==> Asked(all, Ask(actions[i]).value)
    ensures Safe(Run(w, actions, limit), limit) && AllVouched(all, Run(w, actions, limit))
    decreases |actions|
  {
    if actions != [] {
      ActionIsSafe(w, actions[0], limit);
      ActionStaysVouched(all, w, actions[0], limit);
      RunStaysVouched(all, Next(w, actions[0], limit), actions[1..], limit);
    }
  }

  // ---------------------------------------------------------------------------
  // Every run

  /**
   * Over every run without a session-route destroy of a published name, whatever fails,
   * an entry outside the reserved range has the id, the space and the user of an
   * accepted create of the run. No published call contributes one.
   */
  lemma UnscopedEntriesWereAskedFor(actions: seq<Action>, key: string, limit: int)
    requires 0 <= limit && AllKeepReserved(actions) && key in Run(EMPTY, actions, limit).index
    ensures var entry := Run(EMPTY, actions, limit).index[key];
            !IsPublishedScopedId(entry.sessionId) ==> Asked(actions, PayloadOf(entry))
  {
    RunStaysVouched(actions, EMPTY, actions, limit);
  }

  /** So whatever the list route shows a GUI caller, somebody asked for with that caller as its user. */
  lemma GuiSeesOnlyWhatWasAskedFor(
    actions: seq<Action>, gui: GuiSession, order: seq<string>, state: SessionState, limit: int)
    requires 0 <= limit && AllKeepReserved(actions) && I.Enumerates(order, Run(EMPTY, actions, limit).index)
    requires Shown(Run(EMPTY, actions, limit), gui, order, state)
    ensures state.userId == gui.sub && !("pmcp-" <= state.sessionId) && Asked(actions, PayloadOf(state))
    ensures gui.spaceId.Some? && gui.spaceId.value != "" ==> state.spaceId == gui.spaceId.value
  {
    var w := Run(EMPTY, actions, limit);
    RunIsSafe(EMPTY, actions, limit);
    ShownIsOwnedEntry(w, gui, order, state);
    var key :| key in w.index && w.index[key] == state;
    UnscopedEntriesWereAskedFor(actions, key, limit);
  }

  /** The list route shows a GUI caller this state. */
  ghost predicate Shown(w: World, gui: GuiSession, order: seq<string>, state: SessionState) {
    state in I.VisibleTo(Gui(gui), I.ValuesAt(I.KeysUnder(order, I.ScopePrefix(Gui(gui))), w.index))
  }

  lemma ShownIsOwnedEntry(w: World, gui: GuiSession, order: seq<string>, state: SessionState)
    requires I.WellKeyed(w.index) && I.Enumerates(order, w.index)
    ensures Shown(w, gui, order, state) <==>
            GuiOwns(gui, state) && exists key :: key in w.index && w.index[key] == state
  {
    I.PrefixListingIsFilteredScan(Gui(gui), order, w.index);
    I.VisibleMembers(Gui(gui), I.ValuesAt(order, w.index), state);
    I.ValuesAtMembers(order, w.index, state);
  }

  /** Conversely a caller is shown every unreserved entry of its own, within its space if it claims one. */
  lemma GuiSeesAllItsOwn(w: World, gui: GuiSession, order: seq<string>, key: string)
    requires I.WellKeyed(w.index) && I.Enumerates(order, w.index) && key in w.index
    ensures var state := w.index[key];
            Shown(w, gui, order, state) <==>
            && state.userId == gui.sub && !("pmcp-" <= state.sessionId)
            && (gui.spaceId.Some? && gui.spaceId.value != "" ==> state.spaceId == gui.spaceId.value)
  {
    ShownIsOwnedEntry(w, gui, order, w.index[key]);
  }

  /** A session created by a GUI caller is its own, in the space it claims or in none, whatever the request says. */
  lemma GuiCreatesForItself(gui: GuiSession, p: CreatePayload)
    ensures var ask := Ask(StartCreate(Gui(gui), p));
            && (ask.Some? ==>
                  && ask.value.sessionId == p.sessionId && ask.value.userId == gui.sub
                  && ask.value.spaceId == (if gui.spaceId.Some? then gui.spaceId.value else "")
                  && 1 <= |Utf8.Encode(p.sessionId)| <= 120 && !("pmcp-" <= p.sessionId))
            && (ask.None? ==> p.sessionId == "" || gui.sub == "" || |Utf8.Encode(p.sessionId)| > 120
                              || "pmcp-" <= p.sessionId)
  {
    assert p.sessionId != "" ==> |Utf8.Encode(p.sessionId)| >= 1;
  }

  /** An administrator creates what it names, for whom it names. */
  lemma AdminCreatesWhatItNames(p: CreatePayload)
    ensures Ask(StartCreate(Admin, p)) ==
            if p.sessionId != "" && p.userId != "" && p.spaceId != "" && |Utf8.Encode(p.sessionId)| <= 120
               && !("pmcp-" <= p.sessionId)
            then Some(p) else None
  {
    assert p.sessionId != "" ==> |Utf8.Encode(p.sessionId)| >= 1;
  }

  // ---------------------------------------------------------------------------
  // The route that breaks it

  /**
   * After a fault-free session-route destroy of a stored session, the list route shows a
   * GUI caller the stopped session exactly when the name is a published one and the
   * caller passes for the owner of its logical id, which a bare token holder chooses.
   */
  lemma HostDestroyShowsExactly(
    w: World, name: string, v: Weather, gui: GuiSession, order: seq<string>, limit: int)
    requires Safe(w, limit) && name !in w.inFlight && Do(w, name).state.Some? && ValidSessionId(name) && Clean(v)
    ensures var end, stopped := HostDestroyed(w, name, v, limit), Do(w, name).state.value.(status := Stopped);
            I.Enumerates(order, end.index) ==>
              (Shown(end, gui, order, stopped) <==> IsPublishedScopedId(name) && GuiOwns(gui, stopped))
  {
    var end, stopped := HostDestroyed(w, name, v, limit), Do(w, name).state.value.(status := Stopped);
    HostDestroyIsSafe(w, name, v, limit);
    if I.Enumerates(order, end.index) {
      ShownIsOwnedEntry(end, gui, order, stopped);
    }
    SafeEverywhere(w, limit, name);
    if IsPublishedScopedId(name) {
      HostDestroyOfPublishedName(w, name, v, limit);
    } else {
      HostDestroyOfHostName(w, name, v, limit);
      HostDestroyKeepsIdentity(w, name, v, limit);
      forall key | key in end.index
        ensures end.index[key] != stopped
      {
        assert key == Key(end.index[key].userId, end.index[key].sessionId);
      }
    }
  }

  lemma HostDestroyKeepsIdentity(w: World, name: string, v: Weather, limit: int)
    requires Safe(w, limit) && name !in w.inFlight && Do(w, name).state.Some? && Clean(v)
    requires ValidSessionId(name) && !IsPublishedScopedId(name)
    ensures C.SameOwner(Do(w, name), Do(HostDestroyed(w, name, v, limit), name))
  {
    ActionIsSafe(w, StartDestroy(name), limit);
    CallsFinishDestroy(Next(w, StartDestroy(name), limit), name, Do(w, name), v, DESTROY_CALLS, limit);
  }

  /** No GUI caller is shown the destroyed session, whoever it is. */
  ghost predicate StaysHidden(end: World, order: seq<string>, stopped: SessionState) {
    forall gui :: !Shown(end, gui, order, stopped)
  }

  /** The exact condition: the session stays hidden unless a published name has an ordinary logical id. */
  lemma HostDestroyHidesExactly(w: World, name: string, v: Weather, order: seq<string>, limit: int)
    requires Safe(w, limit) && name !in w.inFlight && Do(w, name).state.Some? && ValidSessionId(name) && Clean(v)
    ensures var state, end := Do(w, name).state.value, HostDestroyed(w, name, v, limit);
            I.Enumerates(order, end.index) ==>
              (StaysHidden(end, order, state.(status := Stopped)) <==>
               !IsPublishedScopedId(name) || IsPublishedScopedId(state.sessionId))
  {
    var end, stopped := HostDestroyed(w, name, v, limit), Do(w, name).state.value.(status := Stopped);
    if !I.Enumerates(order, end.index) {
      return;
    }
    forall gui
      ensures Shown(end, gui, order, stopped) <==> IsPublishedScopedId(name) && GuiOwns(gui, stopped)
    {
      HostDestroyShowsExactly(w, name, v, gui, order, limit);
    }
    if !StaysHidden(end, order, stopped) {
      var gui :| Shown(end, gui, order, stopped);
    } else {
      assert !Shown(end, GuiSession(stopped.userId, None), order, stopped);
    }
  }
}
