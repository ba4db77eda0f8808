# Takos Computer: verified models

Takos Computer hosts sandbox sessions. A worker creates and destroys them over
remote calls to one Durable Object per session name, one quota object per
principal and one key-value index; a service inside each sandbox reads, writes
and lists files and tracks processes; a script publishes releases. This project
models the parts of that system where correctness is not visible in any single
function, and proves what the parts promise together.

`dafny verify dfyconfig.toml` checks everything with Dafny 4.11.

## What is here

**The session lifecycle.** `LifecycleProtocol` is a transition system: creates,
published-MCP ensures, destroys and published destroys are requests that stand
before their next remote call. Requests on different names interleave at every
call; each call is answered, fails before its effect, or fails after it; the
object behind a call can fail or be reset at each of its own storage and
container steps; a request can be abandoned anywhere; forwarded traffic can
arrive at any time. Names, principals and the number of requests are unbounded.

- `LifecycleSafety`: the invariant of every reachable state, and the cap on live
  sessions that follows from it.
- `LifecycleRecovery`: what a request achieves when its own calls meet no fault
  while requests on all other names do as they like: complete destroys after any
  number of failed ones, compensation, visibility of a create. What concerns the
  object and the reservations holds unconditionally. What concerns the index holds
  as long as nobody strays: no session-route destroy is aimed at a published session
  whose logical id is the name in question. Such a destroy writes an entry under that
  name; `DestroyIsCompleteExactly` says exactly when that undoes a destroy, and
  `GoneNeighbourIsListedAgain` reaches it.
- `LifecycleExact`: a name whose own calls meet no fault and that is destroyed on
  its own route: whenever it is at rest, the index and the lists say exactly what its
  object says, whatever befalls other names (under the same condition on strays). When
  this holds of all names and nobody is under way, no reservation and no index entry
  is left over, and the list route shows exactly the live sessions.
- `LifecycleFailures`: a create that fails. A fresh one is undone whichever of its calls
  goes wrong; over a session that was live before, no create, ensure or forwarded
  request does any harm, by anybody and with any fault.
- `LifecycleProvenance`: where the entries a GUI caller can see come from. Over every
  run without a session-route destroy of a published session, each is what an accepted
  create asked for, with that caller as its user; and exactly when such a destroy breaks it.
- `LifecycleWitnesses`: the situations the results about off-route destroys and
  cut-off creates speak of, reached from empty stores under every positive limit.
- `SessionHost`: the four routes as imperative programs with their authorisation,
  early returns and compensating catch. Each is proved to be one run of the transition
  system, stores and reply both.
- `SessionContainer`: the Durable Object as a class over its storage and its
  write-through copies, with evictions anywhere in its history.
- `SessionQuota`, `SessionIndex`, `PublishedArgs`: the reservation list against
  the local simulator's set, the index keys and their paged listing, and the
  resolution of a published call to the session it addresses.

**Matching, paths, encoders.** `GlobMatcher` measures the two-pointer scan against
the meaning of `*` and `?`, with a step bound. `WorkspaceJail` measures the
string test of the containment check against a prefix test on path segments, and
against the shell's own guard. `Base64` and `Utf8` hold the round trips behind
tokens and workspace directories (sections 4 and 5 of RFC 4648; RFC 3629).

**Smaller machines.** `FileManager` (paged reads, writes, the bounded directory
walk), `ShellManager` (process table under pid reuse, output cap),
`SignInClaims` (minting and re-checking), `Release` (the release script under
arbitrary command results).

## Where the code and its documentation part

- `matchGlob` is documented to support `*` and `?`, but it compares characters
  before it looks for a star, so a `*` in the *name* uses up a star of the
  pattern literally: name `*ab` is refused under pattern `*`. Soundness holds for
  every name; the matcher is faithful under all patterns exactly for names
  without a star (`FaithfulExactlyWithoutStar`, names shorter than the 1024
  characters the pattern cap admits).
- The session route's DELETE accepts a `pmcp-` name, and the comment on
  `indexPublishedMcpSession` intends that, but it releases the user's principal and
  writes a stopped entry under the logical id, where nothing removes it. A fault-free
  destroy over that route cleans up a stored session exactly on names outside the
  reserved range (`HostDestroyIsCompleteExactlyOnHostNames`). On a published one whose
  reservation was gone before, the name's own key and place are gone, but the entry under
  the logical id still remains (`HostDestroyReleasesExactly`, `HostDestroyOfPublishedName`).
- That entry can also spoil another name: such a destroy leaves a name that was exact,
  live or gone and of whatever owner, exact if and only if the logical id is not that name
  (`HostDestroySparesOthersExactly`). A live session of the same user has its own entry
  overwritten, and a gone one is listed again.
- And it defeats the reserved range. The comment on `guiSessionOwnsSandbox` says that a
  published-token holder who sets `user_id` cannot put a sandbox into that user's session
  list. That holds over every run without such a destroy
  (`GuiSeesOnlyWhatWasAskedFor`). One published call and one session-route destroy of its
  session break it (`PublishedSessionIsPlanted`); the session stays hidden exactly if the
  name is not a published one or its logical id is in the reserved range too
  (`HostDestroyHidesExactly`).
- A create whose start fails and whose compensation is cut off leaves a blank object that
  holds its place. The session route answers 404 for it and gives nothing back
  (`BlankObjectKeepsItsPlace`, `HostDestroyUncountsExactly`), so the place comes free
  only after a create that succeeds. The published route does release it
  (`RemoveEndsUncounted`).
- `clearPersistedSession` forgets its copies before its deletes are known to
  succeed. Its contract says exactly when copies and storage still agree.
- The release script reports every failure after the first mutation with a flag,
  except one: a GitHub read-back that is the JSON value `null` ends the run with an
  unrelated error. `DeployRelease` says that this is the only such case, and
  `Rehearse` reaches it.
- The shell's guard and the jail agree on canonical paths, except for the root `/`
  with any other directory, which the guard refuses (`GuardAgreesWithJail`).

## Model

| member | source | states |
|---|---|---|
| LifecycleSafety.StepFits | packages/computer-hosts/src/sandbox-host.ts:370-443 | whatever one remote call of any request does (answered, lost before or after its effect, failing inside the object), a live session of that name stays reserved under its principal and the facts the next call relies on hold |
| LifecycleSafety.CreateLeaves | packages/computer-hosts/src/sandbox-session-container.ts:131-199 | a create leaves the state it met, the same session restarted, the new owner's session, or nothing; it succeeds only with the caller's own live session |
| LifecycleSafety.ReserveFits | packages/computer-hosts/src/sandbox-host.ts:394-416 | a create that goes on after its reservation holds a place in its principal's list |
| LifecycleSafety.ReleaseFits | packages/computer-hosts/src/sandbox-host.ts:473-477 | a reservation is given up only when the object is no longer live |
| LifecycleSafety.ActionIsSafe | packages/computer-hosts/src/sandbox-host.ts:310-490 | every action of the interleaved, failing system, abandonment and forwarded traffic included, keeps: live implies reserved, lists duplicate-free and within the limit, index keys exact |
| LifecycleSafety.ReachableIsSafe | packages/computer-hosts/src/sandbox-host.ts:310-490 | the invariant holds in every reachable state |
| LifecycleSafety.LiveSessionsAreCapped | packages/computer-hosts/src/session-quota.ts:46-101 | in every reachable state a principal has at most `limit` starting or active sessions, all of them in its reservation list |
| LifecycleSafety.LiveSessionIsNeverRefused | packages/computer-hosts/src/sandbox-host-published-mcp.ts:480-494 | under any later limit the owner of a live session is admitted again and takes no second place |
| LifecycleSafety.IndexIsWellKeyed | packages/computer-hosts/src/session-index.ts:34-46 | in every reachable state each index entry lies under the key of its own owner and id |
| LifecycleSafety.ScopedNameFits | packages/computer-hosts/src/sandbox-host-published-mcp.ts:377-411 | a scoped name carries its namespace and its logical id and lies in the reserved range |
| LifecycleSafety.ForwardKeepsOwner | packages/computer-hosts/src/sandbox-session-container.ts:244-279 | forwarding, even when it restarts the container or fails, neither ends a session nor changes whose it is |
| LifecycleRecovery.OthersKeepObject | packages/computer-hosts/src/sandbox-host.ts:310-490 | whatever an action does about another name, on any route and with any fault, this name keeps its object, its request and its places in every list |
| LifecycleRecovery.OthersDoNotDisturb | packages/computer-hosts/src/session-index.ts:22-46 | and its index entries too, while no session-route destroy is under way on a published name whose logical id is this name |
| LifecycleRecovery.StagedRun | packages/computer-hosts/src/sandbox-host.ts:310-490 | a request whose own calls meet no fault goes through its stages, one a call, whatever requests on other names do in between; the index part of the stages under the condition on strays |
| LifecycleRecovery.DestroyStepAdvances | packages/computer-hosts/src/sandbox-host.ts:466-477 | each fault-free call of a destroy brings it one stage closer to stopped, unlisted and uncounted, for the owner it had |
| LifecycleRecovery.DestroyRecovers | packages/computer-hosts/src/sandbox-host.ts:459-490 | from every reachable state with a stored session, five fault-free calls of a destroy on the name's own route end at rest, stopped, with owner kept and reservation gone, whatever befalls other names; the owner's key is gone too if no session-route destroy strays onto this name |
| LifecycleRecovery.DestroyIsCompleteExactly | packages/computer-hosts/src/sandbox-host.ts:459-490 | such a destroy ends unlisted as well if and only if no stray destroy writes an entry for this owner under this name after the unlisting |
| LifecycleRecovery.OnlyStraysList | packages/computer-hosts/src/session-index.ts:26-46 | an action about another name, on any route and with any fault, changes the presence of an owner's key of this name exactly by such a write |
| LifecycleRecovery.RemoveEndsUncounted | packages/computer-hosts/src/sandbox-host-published-mcp.ts:135-159 | from every reachable state at rest, a stored session, a tombstone or a blank object, a published destroy whose calls meet no fault ends not live and uncounted under the namespace, whatever befalls other names |
| LifecycleRecovery.AttemptsKeepTombstone | packages/computer-hosts/src/sandbox-session-container.ts:217-232 | no sequence of destroy attempts, with any faults and cut off anywhere, erases or changes the stored owner |
| LifecycleRecovery.RetryFinishesCleanup | packages/computer-hosts/src/sandbox-host-published-mcp.ts:135-159 | any number of destroys of either route, failed anyhow, followed by one on the name's own route without a fault: stopped and released for the original owner whatever befalls other names, and unlisted if none strays |
| LifecycleRecovery.CompensationUndoes | packages/computer-hosts/src/sandbox-host.ts:422-439 | a failed create whose three compensating calls meet no fault ends at rest, not live and uncounted whatever befalls other names, and unlisted under the caller if none strays onto it |
| LifecycleFailures.FailedCreateIsUndone | packages/computer-hosts/src/sandbox-host.ts:412-439 | a fresh create whose call to the object, read-back or index write is lost either way, or whose object fails to store or to start, ends after three fault-free compensating calls at rest, not live and uncounted whatever befalls other names, and unlisted if none strays |
| LifecycleFailures.LiveSessionIsSpared | packages/computer-hosts/src/sandbox-host.ts:422-431 | over every run with no destroy of the name, creates and ensures of anybody with any fault and forwarded requests leave a live session live, its owner, token and place unchanged |
| LifecycleFailures.RunsAreGuarded | packages/computer-hosts/src/sandbox-session-container.ts:165-180 | in every state reached with generated tokens a live session holds one usable token of its owner |
| LifecycleFailures.MarkedIsListedStopped | packages/computer-hosts/src/sandbox-host.ts:468 | once the destroy's mark took effect the owner's entry shows the session stopped, answered or not |
| LifecycleFailures.DestroyCarriesStoppedMark | packages/computer-hosts/src/sandbox-host.ts:466-468 | the mark is the stored state, stopped, under the session's own name |
| LifecycleRecovery.CreateIsVisibleOrTurnedAway | packages/computer-hosts/src/sandbox-host.ts:310-443 | from every reachable state, a create or ensure over a name that is not live, whose five calls meet no fault, ends with the caller's active, counted session, or at rest with nothing changed because the list was full; a name that holds its place is never turned away; the session is also listed if none strays |
| LifecycleRecovery.ReservedCreateBecomesVisible | packages/computer-hosts/src/sandbox-host-published-mcp.ts:506-519 | from the reservation on, three fault-free calls always end with the active, counted session, and listed if none strays |
| LifecycleRecovery.HostDestroyOfPublishedName | packages/computer-hosts/src/sandbox-host.ts:467-477 | a fault-free session-route destroy of a stored `pmcp-` session stops it, keeps its published reservation exactly if it had one, and leaves a stopped entry under the logical id |
| LifecycleRecovery.HostDestroyReleasesExactly | packages/computer-hosts/src/sandbox-host.ts:459-490 | a fault-free session-route destroy of a stored session, live or a tombstone, leaves it without a place and without its own key if and only if the name is not a published one or its published reservation was gone before |
| LifecycleRecovery.HostDestroyIsCompleteExactlyOnHostNames | packages/computer-hosts/src/sandbox-host.ts:459-490 | it leaves no place, no own key and the stored state nowhere in the index if and only if the name is not a published one |
| LifecycleRecovery.HostDestroyUncountsExactly | packages/computer-hosts/src/sandbox-host.ts:467-477 | over that route a host name ends uncounted under a user if and only if that user is the stored owner or had no place; with a blank object nothing at all changes |
| LifecycleRecovery.HostDestroyOfLiveSession | packages/computer-hosts/src/sandbox-host.ts:459-490 | of a live session it removes place and own key if and only if the name is not a published one |
| LifecycleRecovery.StrayDestroyListsAgain | packages/computer-hosts/src/sandbox-host.ts:468-472 | a session-route destroy of a published session whose logical id names a session of the same user that was gone leaves that name listed again |
| LifecycleExact.ActionKeepsStep | packages/computer-hosts/src/sandbox-host.ts:310-490 | an action keeps a name's entries, places and object in step with the stage of its request if, being about this name, it meets no fault and is on the name's route, or, being about another, does not start a stray destroy onto it |
| LifecycleExact.UndisturbedNameIsExact | packages/computer-hosts/src/sandbox-host.ts:310-490 | in any interleaved run in which only this name's own actions are fault-free and on its route, the name at rest is listed once and counted once if live, and neither if not; other names may fail, be abandoned and be destroyed on any route that does not stray onto this name |
| LifecycleExact.ListsCountLiveSessions | packages/computer-hosts/src/session-quota.ts:46-101 | after a run in which every action is fault-free and on the route of its name, with nobody under way, a principal's list is exactly its live sessions, so no place is leaked |
| LifecycleExact.ListingShowsLiveSessions | packages/computer-hosts/src/sandbox-host.ts:278-301 | at the end of such a run the list route shows a caller of either scope exactly the entries of live sessions, for a GUI caller those it owns |
| LifecycleExact.HostDestroyIsExactOnHostNames | packages/computer-hosts/src/sandbox-host.ts:467-477 | a fault-free session-route destroy of a live session that was listed and counted exactly leaves its name so if and only if the name is not a published one |
| LifecycleExact.HostDestroySparesOthersExactly | packages/computer-hosts/src/sandbox-host.ts:467-477 | a fault-free session-route destroy of any stored session leaves another exact name at rest, live or not and of whatever owner, exact if and only if the id stored behind the destroyed name is not that name; all other requests may be anywhere |
| LifecycleExact.StrayDestroyMarksLiveSession | packages/computer-hosts/src/sandbox-host.ts:468-472 | if it is, and the name is a live session's of the same user, that session stays live and its entry is replaced by a stopped one |
| LifecycleProvenance.ActionStaysVouched | packages/computer-hosts/src/sandbox-host.ts:310-490 | every action, with any fault, keeps all objects, requests and entries outside the reserved range traceable to accepted creates, unless it starts a session-route destroy of a published name with an ordinary logical id |
| LifecycleProvenance.UnscopedEntriesWereAskedFor | packages/computer-hosts/src/sandbox-host.ts:310-443 | over every run without such a destroy, every index entry outside the reserved range has the id, space and user of an accepted create of the run |
| LifecycleProvenance.GuiSeesOnlyWhatWasAskedFor | packages/computer-hosts/src/sandbox-host-auth.ts:194-212 | so every state the list route shows a GUI caller has that caller as its user, lies outside the reserved range and in the space the caller claims, if any, and was asked for with exactly these fields; no published call puts one there |
| LifecycleProvenance.GuiSeesAllItsOwn | packages/computer-hosts/src/sandbox-host-auth.ts:194-212 | an index entry is shown to a GUI caller if and only if it is the caller's, unreserved, and in the space the caller claims, if any |
| LifecycleProvenance.GuiCreatesForItself | packages/computer-hosts/src/sandbox-host.ts:323-366 | a GUI caller's create is for its own user and claimed space whatever the request says, and refused before any call exactly for an empty, over-long or reserved id or an empty subject |
| LifecycleProvenance.AdminCreatesWhatItNames | packages/computer-hosts/src/sandbox-host.ts:340-366 | an administrator's create is for what it names, and refused exactly for a missing field or an over-long or reserved id |
| LifecycleProvenance.HostDestroyShowsExactly | packages/computer-hosts/src/sandbox-host.ts:468-472 | after a fault-free session-route destroy of a stored session, the list route shows a GUI caller the stopped state if and only if the name is a published one and the caller passes for owner of the state |
| LifecycleProvenance.HostDestroyHidesExactly | packages/computer-hosts/src/sandbox-host-auth.ts:194-212 | no GUI caller is shown it if and only if the name is not a published one or its logical id is in the reserved range |
| LifecycleWitnesses.CreateWithRoom | packages/computer-hosts/src/sandbox-host.ts:370-420 | an uninterrupted create or ensure of a name that is not live, with room in its list, makes the session active, counted and listed |
| LifecycleWitnesses.LivePublishedIsReachable | packages/computer-hosts/src/sandbox-host-published-mcp.ts:468-530 | under every positive limit one ensure reaches a live published session at rest, owned by whomever the call names |
| LifecycleWitnesses.PublishedSessionIsPlanted | packages/computer-hosts/src/sandbox-host-auth.ts:194-199 | from empty stores, one ensure naming any user and one session-route destroy reach a state in which the list route shows that user the session |
| LifecycleWitnesses.LiveNeighbourIsMarked | packages/computer-hosts/src/sandbox-host.ts:468-472 | a live host session next to a published one of the same user and its logical id is reached, and the stray destroy spoils it |
| LifecycleWitnesses.GoneNeighbourIsListedAgain | packages/computer-hosts/src/sandbox-host.ts:468-472 | a completely destroyed host session is reached that the stray destroy lists again |
| LifecycleWitnesses.BlankObjectKeepsItsPlace | packages/computer-hosts/src/sandbox-host.ts:422-439 | a create whose start fails and whose compensation is lost reaches a blank object with a place, which a fault-free session-route destroy leaves there |
| SessionHost.StepsEnd | packages/computer-hosts/src/sandbox-host.ts:370-443 | every call brings its request closer to the end, so no request makes more than eight |
| SessionHost.DriveIsARun | packages/computer-hosts/src/sandbox-host.ts:310-490 | a request that runs to its end without interference is a run of the transition system |
| SessionHost.Host.CreateSession | packages/computer-hosts/src/sandbox-host.ts:310-443 | forbidden exactly for a GUI caller that is neither owner nor member where creation is not public, then malformed, then unavailable, all before any call; otherwise stores and reply are those of the driven request; a conflict only over a live session not the caller's, within its space if it claims one; a full list only without place and room; both change nothing; a 201 means live, owned and reserved; with no fault these conditions decide the reply |
| SessionHost.Host.ReserveAndCreate | packages/computer-hosts/src/sandbox-host.ts:394-439 | reserve, then create: turned away exactly without place and room, nothing changed; with no fault it succeeds otherwise unless another owner's session is live |
| SessionHost.Host.IndexCreated | packages/computer-hosts/src/sandbox-host.ts:414-417 | the read-back and the entry: indexed, or handed to the compensation at the right call |
| SessionHost.Host.CreateReserved | packages/computer-hosts/src/sandbox-host.ts:412-439 | with no fault it succeeds exactly where no other owner's session is live; success means live, owned, indexed, and no list changed; a failed fresh create whose compensating calls meet no fault is not live, unlisted and uncounted; over a session live before, session, token and lists stay |
| SessionHost.Host.Compensate | packages/computer-hosts/src/sandbox-host-published-mcp.ts:520-528 | stop, unindex, release, in this order, giving up at the first failure; with none, not live, unlisted and uncounted |
| SessionHost.Host.AuthorizeSessionAccess | packages/computer-hosts/src/sandbox-host-auth.ts:351-392 | let through only if trusted, holding a token stored for this very id, or a GUI caller over its own unreserved session, in the space it claims if any; a GUI caller kept out is not its owner or claims another space |
| SessionHost.Host.DestroySession | packages/computer-hosts/src/sandbox-host.ts:459-490 | nothing changes for a malformed id, a caller who may not address the session, or without an index; otherwise stores and reply are those of the driven destroy; done means stopped with owner kept, unlisted and released; with no fault the reply is forbidden, not found, unavailable or done, decided by caller, object and index |
| SessionHost.Host.EnsurePublishedSession | packages/computer-hosts/src/sandbox-host-published-mcp.ts:468-530 | stores and reply are those of the driven ensure; a live session that holds its place is handed out and nothing changes; turned away only without place and room, nothing changed; with no fault the reply is decided by room and liveness; success means live and counted under the namespace |
| SessionHost.Host.DestroyPublishedSession | packages/computer-hosts/src/sandbox-host-published-mcp.ts:135-159 | stores and reply are those of the driven removal; done means stopped with owner kept, unlisted under the stored owner and released under the namespace; with no fault it is always done |
| SessionContainer.SandboxSessionContainer.CreateSession | packages/computer-hosts/src/sandbox-session-container.ts:131-199 | what is stored and returned is a function of what was stored, for every failing put, failing start or reset, deletes succeeding; copies agree with storage afterwards |
| SessionContainer.SandboxSessionContainer.BuildSession | packages/computer-hosts/src/sandbox-session-container.ts:165-198 | of the part that builds a session: what each failure leaves stored, and copies that agree with it |
| SessionContainer.SandboxSessionContainer.ClearPersistedSession | packages/computer-hosts/src/sandbox-session-container.ts:114-123 | copies and storage agree afterwards if and only if no delete failed on a stored key |
| SessionContainer.SandboxSessionContainer.EnsureContainerStarted | packages/computer-hosts/src/sandbox-session-container.ts:244-262 | a healthy container changes nothing; a restart reconciles a stale status; a failed start or a reset keeps what was stored |
| SessionContainer.SandboxSessionContainer.DestroySession | packages/computer-hosts/src/sandbox-session-container.ts:217-232 | stored state becomes stopped before the container is asked to stop; tokens stay |
| SessionContainer.SandboxSessionContainer.VerifyProxyToken | packages/computer-hosts/src/sandbox-session-container.ts:201-210 | a token is accepted if and only if some stored entry has it, and then with the info of the first such entry; nothing stored changes |
| SessionContainer.SandboxSessionContainer.ForwardToContainer | packages/computer-hosts/src/sandbox-session-container.ts:265-279 | gone exactly for a missing or stopped session, and then nothing changes; delivered only to a healthy container or a started one whose session is active |
| SessionContainer.Replay | packages/computer-hosts/src/sandbox-session-container.ts:81-123 | over every history of calls with failing puts, evictions inserted anywhere change no reply and nothing stored |
| SessionContainer.EveryRunIsGuarded | packages/computer-hosts/src/sandbox-session-container.ts:158-199 | over every run of calls, a live session holds exactly one token, issued to its own owner |
| SessionContainer.LiveSessionKeepsOwner | packages/computer-hosts/src/sandbox-session-container.ts:131-156 | over every run of un-forced calls during which a session stays live, its owner, id and token never change |
| SessionContainer.ForeignCreateChangesNothing | packages/computer-hosts/src/sandbox-session-container.ts:143-150 | a create is refused for its owner if and only if a live session belongs to someone else, and then nothing changes |
| SessionContainer.IssuedTokenVerifies | packages/computer-hosts/src/sandbox-session-container.ts:131-210 | a returned token verifies to the caller's session, also after a destroy |
| SessionContainer.DestroyKeepsTombstone | packages/computer-hosts/src/sandbox-session-container.ts:217-232 | a destroy, however it fails, keeps owner and token; when it succeeds the session is not live |
| SessionContainer.LiveSessionAcceptsItsTokenOnly | packages/computer-hosts/src/sandbox-session-container.ts:201-210 | over every run, a live session accepts exactly the one token it holds, and for its own owner |
| SessionContainer.FreshCreateSucceedsExactly | packages/computer-hosts/src/sandbox-session-container.ts:165-198 | over a session that is not live a create succeeds if and only if both puts, the start and the last put do, with a fresh token and an active session of the caller |
| SessionContainer.FailedStartLeavesNothing | packages/computer-hosts/src/sandbox-session-container.ts:185-198 | a create that fails in starting or in its last put leaves neither state nor token |
| SessionContainer.InterruptedCreateIsStarting | packages/computer-hosts/src/sandbox-session-container.ts:178-186 | one cut off while the container starts leaves the caller's session starting, with its token |
| SessionContainer.OwnerReusesSession | packages/computer-hosts/src/sandbox-session-container.ts:143-158 | the owner of a live session gets its stored token back if the container runs or starts; no token and no owner changes |
| SessionContainer.ForcedCreateReplaces | packages/computer-hosts/src/sandbox-session-container.ts:160-198 | with force, the new owner's session and only its token remain of a create that succeeds, and nothing of the old owner of one that fails |
| SessionContainer.ForwardAnswersExactly | packages/computer-hosts/src/sandbox-session-container.ts:244-279 | gone exactly without a live session; delivered exactly over a live one whose container is healthy or starts and whose status is or becomes active; a failure changes nothing |
| SessionContainer.DestroyAnswersExactly | packages/computer-hosts/src/sandbox-session-container.ts:217-232 | a destroy succeeds exactly if its put and the stop do; a failed put changes nothing |
| SessionQuota.NormalizeLimit | packages/computer-hosts/src/session-quota.ts:148-153 | the limit in force lies in 1..1000, is the configured one when that does, ten for what is not a positive integer and a thousand above |
| SessionQuota.ReserveIn | packages/computer-hosts/src/session-quota.ts:46-83 | admitted exactly when already listed or below the limit; nobody is dropped, at most one is added, the count is the length, no duplicates appear |
| SessionQuota.SessionQuotaStore.Reserve | packages/computer-hosts/src/session-quota.ts:46-83 | new list and reply are the reservation function's; an empty id changes nothing; an empty list is never stored |
| SessionQuota.SessionQuotaStore.Release | packages/computer-hosts/src/session-quota.ts:85-101 | exactly the given id goes, the reply says whether it was there, and an empty list is never stored |
| SessionQuota.LocalSessionQuota.Reserve | packages/computer-hosts/src/local-dev-simulator.ts:259-289 | nobody is dropped and at most the given id is added; accepted exactly when already present or below the limit; created exactly when the set grew; the count is its size |
| SessionQuota.AdmissionIsDetermined | packages/computer-hosts/src/local-dev-simulator.ts:259-289 | these promises leave exactly one set and one reply |
| SessionQuota.ListAndSetAgree | packages/computer-hosts/src/local-dev-simulator.ts:259-294 | on every history of reservations with limits in 1..1000 and releases, list and set give the same replies |
| SessionQuota.CreatedMinusReleased | packages/computer-hosts/src/session-quota.ts:46-101 | over every history, places created minus places released is the growth of the list |
| SessionQuota.ReleaseUndoesReserve | packages/computer-hosts/src/session-quota.ts:85-101 | releasing a place just created restores the list |
| SessionIndex.EscapedHasNoColon | packages/computer-hosts/src/session-index.ts:22-24 | a percent-encoded owner contains no colon |
| SessionIndex.KeyIsInjective | packages/computer-hosts/src/session-index.ts:26-28 | a key determines owner and session id, even when either contains colons |
| SessionIndex.OwnerPrefixIsExact | packages/computer-hosts/src/session-index.ts:30-32 | an owner's prefix is a prefix of a key if and only if the key is that owner's |
| SessionIndex.ListSessionStates | packages/computer-hosts/src/session-index.ts:53-70 | following the cursor over pages of any sizes yields the values of all keys under the prefix, once and in order |
| SessionIndex.ListSessions | packages/computer-hosts/src/sandbox-host.ts:278-301 | over a well-keyed index the route returns what filtering a full scan would: to a GUI caller exactly the states of its own user outside the reserved range, in the space it claims if any; to an administrator all |
| SessionIndex.PrefixListingIsFilteredScan | packages/computer-hosts/src/sandbox-host-auth.ts:194-212 | reading only the owner's prefix and filtering by ownership equals scanning everything and filtering |
| SessionIndex.OwnerListingIsIsolated | packages/computer-hosts/src/session-index.ts:53-70 | whatever an owner's prefix lists belongs to that owner, before any filter |
| PublishedArgs.FirstUsableDecides | packages/computer-hosts/src/sandbox-host-published-mcp.ts:329-341 | the first named argument that is a string with something left after trimming is taken, trimmed |
| PublishedArgs.FallbackDecides | packages/computer-hosts/src/sandbox-host-published-mcp.ts:329-341 | without such an argument the fallback is taken |
| PublishedArgs.Resolve | packages/computer-hosts/src/sandbox-host-published-mcp.ts:377-411 | refused exactly for an id of the wrong length; the session lies in the caller's namespace and in the reserved range; for an interface binding both owner fields are the binding's whatever the arguments say, for a bare token they are arguments or defaults |
| PublishedArgs.ScopedIdIsInjective | packages/computer-hosts/src/sandbox-host-published-mcp.ts:395-396 | two scoped names are equal exactly when namespace and logical id are, even when ids contain colons |
| PublishedArgs.NamespacesNeverMeet | packages/computer-hosts/src/sandbox-host-published-mcp.ts:350-411 | callers of different namespaces never share a session name or a reservation list, and an action on a session of one leaves object, request and places of every session of the other alone, and its entries unless it strays |
| PublishedArgs.PublishedStaysOutOfTheGui | packages/computer-hosts/src/sandbox-host.ts:358-368 | the create route never admits a published name, and the entry an ensure writes is never a GUI caller's, whatever user id it carries; the entry a session-route destroy writes is the subject of LifecycleProvenance |
| Text.Trim | packages/computer-hosts/src/sandbox-host-published-mcp.ts:337-338 | a stretch of the text with only white space before and after it, and none at its own ends |
| GlobMatcher.MatchGlob | packages/sandbox-service/src/fs-manager.ts:314-346 | refused exactly above the length cap; true only when the pattern describes the name; for names without a star exactly then; at most n(p+1)+p iterations |
| GlobMatcher.MatchIsSound | packages/sandbox-service/src/fs-manager.ts:325-345 | an accepted pattern describes the name, whatever the name contains |
| GlobMatcher.MatchIsComplete | packages/sandbox-service/src/fs-manager.ts:325-345 | on a name without a star the scan decides the declarative relation |
| GlobMatcher.LaterStarWins | packages/sandbox-service/src/fs-manager.ts:330-333 | forgetting the earlier star when a later one is met loses no match |
| GlobMatcher.NoRoomToSlide | packages/sandbox-service/src/fs-manager.ts:344-345 | at the end of the name no other place of the star could have matched |
| GlobMatcher.StarInNameCounterexample | packages/sandbox-service/src/fs-manager.ts:327-333 | name `*ab` is described by `*` and refused |
| GlobMatcher.StarInNameIsMissed | packages/sandbox-service/src/fs-manager.ts:327-333 | every name with a star has a pattern that describes it and is refused |
| GlobMatcher.FaithfulExactlyWithoutStar | packages/sandbox-service/src/fs-manager.ts:302-346 | a name shorter than the cap is matched faithfully under every pattern if and only if it has no star |
| WorkspaceJail.InsideIsSegmentPrefix | packages/sandbox-service/src/workspace-jail.ts:61-70 | the test on the relative path accepts exactly when the root's segments are a prefix of the path's |
| WorkspaceJail.FormatRoundTrip | packages/sandbox-service/src/workspace-jail.ts:42-47 | writing normal segments as a path and reading them back gives the same segments |
| WorkspaceJail.ResolvedIsCanonical | packages/sandbox-service/src/workspace-jail.ts:42-47 | whatever a caller passes, the resolved path is canonical |
| WorkspaceJail.RelativeWithoutDotDotStays | packages/sandbox-service/src/workspace-jail.ts:42-70 | a relative path without a `..` part resolves inside the root |
| WorkspaceJail.DotDotNamesAreOrdinary | packages/sandbox-service/src/workspace-jail.ts:61-70 | a child named `..x` is inside; the parent of a root below `/` is not |
| WorkspaceJail.ResolveInSteps | packages/sandbox-service/src/workspace-jail.ts:42-47 | resolving `a/b` is resolving `b` from what `a` resolves to |
| WorkspaceJail.ResolveOnePart | packages/sandbox-service/src/workspace-jail.ts:42-47 | a name goes down one segment, `..` up one and not above the root, `.` and the empty part stay |
| WorkspaceJail.ResolveAbsolute | packages/sandbox-service/src/workspace-jail.ts:42-47 | an absolute path resolves for itself whatever the base, a canonical one to itself |
| WorkspaceJail.DirnameIsParent | packages/sandbox-service/src/workspace-jail.ts:92-96 | the directory of a path is the path without its last segment |
| WorkspaceJail.GuardAgreesWithJail | packages/sandbox-service/src/shell-manager.ts:14-23 | on canonical paths the shell guard and the jail agree if and only if the root is not `/` or the directory is |
| WorkspaceJail.Jail.GetWorkspaceRealRoot | packages/sandbox-service/src/workspace-jail.ts:50-55 | the real root is looked up once and kept; a lookup that fails is reported and not kept |
| WorkspaceJail.Jail.ResolveExistingPath | packages/sandbox-service/src/workspace-jail.ts:76-85 | a path is handed out exactly when its lexical and its real form both lie under their roots; a lookup error exactly when one failed on a path lexically inside |
| WorkspaceJail.Jail.AssertWritable | packages/sandbox-service/src/workspace-jail.ts:92-108 | for a path of a parent and a name, accepted exactly when what the parent really names is inside and the target is missing, or is no symbolic link and missing or inside when resolved; a symbolic link and a failed lookup each reported exactly |
| Base64.DigitsRoundTrip | packages/computer-hosts/src/oidc-verify.ts:83-94 | decoding the six-bit digits of any bytes gives the bytes |
| Base64.StandardRoundTrip | packages/sandbox-service/src/fs-manager.ts:364-371 | padded encoding and forgiving decoding are inverse on every byte sequence |
| Base64.WhitespaceIsIgnored | packages/sandbox-service/src/fs-manager.ts:132-139 | white space anywhere in base64 content changes nothing |
| Base64.UnpaddedDecodes | packages/sandbox-service/src/fs-manager.ts:132-139 | base64 content without its padding decodes to the same bytes |
| Base64.OthersDoNotDecode | packages/sandbox-service/src/fs-manager.ts:132-139 | content with a left-over digit or a character outside the alphabet does not decode |
| Base64.UrlRoundTrip | packages/computer-hosts/src/oidc-verify.ts:83-94 | decoding the unpadded url form of any bytes gives the bytes |
| Base64.Base64Url | packages/common/src/crypto.ts:15-22 | the loop computes the url form, and its decoding is the input |
| Base64.UrlFormIsDigits | packages/common/src/crypto.ts:15-22 | the url form is the digits in the url alphabet, without padding |
| Base64.SessionWorkspaceSegment | packages/computer-hosts/src/local-dev-simulator.ts:372-380 | a segment exists exactly for names of 1 to 180 bytes, decodes to the name's bytes after `s-`, and is a file name of the unpadded length |
| Base64.SegmentIsFileName | packages/computer-hosts/src/local-dev-simulator.ts:372-380 | a segment is `s-` and url characters only, at most 242 characters |
| Base64.SegmentIsInjective | packages/computer-hosts/src/local-dev-simulator.ts:372-380 | no segment decodes to two names, so different names never share a workspace directory |
| Utf8.EncodeChar | packages/common/src/sandbox-session.ts:23-32 | one to four bytes by the size of the scalar value, with the lead and continuation ranges of section 4 of RFC 3629 |
| Utf8.EncodeIsInjective | packages/common/src/sandbox-session.ts:23-32 | different strings never have the same bytes |
| Crypto.ConstantTimeEqual | packages/common/src/crypto.ts:5-12 | the fold over every position of both strings is zero exactly when they are equal |
| SignInClaims.SignInIsExact | packages/computer-hosts/src/app-signin-claims.ts:11-81 | exactly the evidence whose app claims are in order, and whose Workspace claims are unless a bound app role or no configured Workspace makes them moot, signs in at all; everything else is refused |
| SignInClaims.RefusalIsExact | packages/computer-hosts/src/app-signin-claims.ts:17-81 | each reason for a refusal is true of the evidence |
| SignInClaims.RolesMayCreate | packages/computer-hosts/src/app-auth.ts:348-355 | where creation is not public exactly owners and members may create |
| SignInClaims.OwnersAreExact | packages/computer-hosts/src/app-signin-claims.ts:11-53 | exactly evidence that names the configured Capsule with the owner role makes an owner |
| SignInClaims.MembersAreExact | packages/computer-hosts/src/app-signin-claims.ts:11-95 | a member is one of the configured Capsule by app role, or without any role in force there an uncontradicted member of the configured Workspace |
| SignInClaims.MintedBindingsAreConfigured | packages/computer-hosts/src/app-signin-claims.ts:30-53 | a minted Capsule or Workspace is the configured one, and no role comes without one |
| SignInClaims.MintedIsAccepted | packages/computer-hosts/src/app-auth.ts:325-345 | under the configuration that minted them, claims are read back unchanged |
| SignInClaims.RecheckIsExact | packages/computer-hosts/src/app-auth.ts:325-345 | under any configuration a sealed session, however it came about, is read if and only if its bindings still fit and cover its role |
| SignInClaims.AcceptedRolesAreBound | packages/computer-hosts/src/app-auth.ts:325-355 | an accepted owner is bound to the configured Capsule, an accepted member to it or to the configured Workspace |
| SignInClaims.ReboundInstallationRevokesRoles | packages/computer-hosts/src/app-auth.ts:325-345 | after an installation moves to another Capsule and Workspace no minted role is accepted |
| FileManager.Read | packages/sandbox-service/src/fs-manager.ts:75-116 | negative offset and limit are refused; otherwise, with any short reads, a page holds exactly the bytes from the offset, or zero, up to the limit or 256 KiB, in base64 when asked for and through the text decoder otherwise, and says truncated exactly when the size looked up before is not reached |
| FileManager.Fill | packages/sandbox-service/src/fs-manager.ts:89-101 | the read loop ends with the file's bytes from the offset up to the limit or the end |
| FileManager.ReadAll | packages/sandbox-service/src/fs-manager.ts:75-116 | following `truncated` with any positive limits ends after at most one page a byte with exactly the file |
| FileManager.BytesToBase64 | packages/sandbox-service/src/fs-manager.ts:364-371 | the chunked encoder equals one encoding of all bytes, and decodes to them |
| FileManager.File.WriteBase64 | packages/sandbox-service/src/fs-manager.ts:132-146 | content that does not decode changes nothing; otherwise the file holds the decoded bytes and their count is returned |
| FileManager.CopyThroughBase64 | packages/sandbox-service/src/fs-manager.ts:132-146 | writing the encoding of bytes stores the bytes |
| FileManager.Listing.WalkDir | packages/sandbox-service/src/fs-manager.ts:259-290 | the shared early-exit list is the cut of what it held and the whole walk; it fails exactly when an over-long glob meets a file name with room left |
| FileManager.ListRecursively | packages/sandbox-service/src/fs-manager.ts:149-165 | a recursive listing is the first thousand entries of the whole filtered depth-first walk, or fails exactly when an over-long glob meets a file name |
| FileManager.ListFlat | packages/sandbox-service/src/fs-manager.ts:166-188 | a plain listing is the first thousand of the directory's own entries the glob keeps, or fails exactly when an over-long glob meets any entry |
| FileManager.ListingMeansThePattern | packages/sandbox-service/src/fs-manager.ts:259-290 | on names without a star the walk keeps exactly the files the pattern describes |
| FileManager.WalkFindsExactly | packages/sandbox-service/src/fs-manager.ts:259-290 | the walk finds exactly the files anywhere under the directory whose own name the glob keeps; without a glob, all of them |
| FileManager.JoinIsChild | packages/sandbox-service/src/fs-manager.ts:259-290 | an entry's path is its directory's one segment further down, also below `/` |
| FileManager.FlatListShowsAll | packages/sandbox-service/src/fs-manager.ts:166-188 | without a glob a plain listing shows every entry in order under its own name, directories as directories |
| FileManager.FlatListMeansThePattern | packages/sandbox-service/src/fs-manager.ts:166-188 | with one, on names without a star, exactly the entries it describes |
| ShellManager.Manager.OnExited | packages/sandbox-service/src/shell-manager.ts:298-305 | every other pid keeps its entry; this pid loses its entry exactly when that was this process's |
| ShellManager.ExitIsDetermined | packages/sandbox-service/src/shell-manager.ts:298-305 | these promises leave exactly one table, the one the histories are about |
| ShellManager.Manager.KillTarget | packages/sandbox-service/src/shell-manager.ts:237-259 | a signal goes only to the process tracked under a pid above 1, and only one of the six allowed ones; each refusal exactly for its cause |
| ShellManager.RunningProcessIsTracked | packages/sandbox-service/src/shell-manager.ts:298-305 | in every order of spawns, exits and late callbacks with pid reuse, a running process is the one found under its pid |
| ShellManager.SettledTableIsExact | packages/sandbox-service/src/shell-manager.ts:298-305 | once all callbacks have run, the table holds the running processes and no others |
| ShellManager.CollectOutput | packages/sandbox-service/src/shell-manager.ts:520-553 | the kept bytes are the first 256 KiB of the whole stream, the total counts all of it, truncated exactly when some were not kept |
| ShellManager.Assemble | packages/sandbox-service/src/shell-manager.ts:540-546 | the buffer holds the kept chunks one after the other |
| Release.RemoteRefIsRead | scripts/deploy.ts:184-190 | reading a remote listing, the line of the wanted ref gives its object and every other line is passed over |
| Release.LastRemoteRefIsRead | scripts/deploy.ts:184-190 | so does the last line, and a listing without the ref gives nothing |
| Release.StableSemverIsThreeNumerals | scripts/deploy.ts:261-268 | a version is accepted exactly when it is three numerals without leading zeros |
| Release.NumeralsAreDecimals | scripts/deploy.ts:261-268 | a numeral is accepted exactly if it is the decimal form of a number |
| Release.SaysNotFoundSomewhere | scripts/deploy.ts:192-205 | absence is read from an answer exactly if at some place it says not found, or HTTP, white space and 404, in any case |
| Release.AbsenceIsExact | scripts/deploy.ts:192-205 | a command that went well never proves absence; a failed one does when either output says so, and with one output blank only then |
| Release.Run.RequireSourceIdentity | scripts/deploy.ts:125-182 | the run keeps to the script through the four identity commands, or ends at the first that does not pass |
| Release.Run.RequireNoExistingIdentity | scripts/deploy.ts:192-259 | absence is accepted only on exit code 1 locally, an empty origin listing and two answers that say not found |
| Release.Run.CreateAndPublishTag | scripts/deploy.ts:270-329 | tag, three inspections and push in script order, or a flagged stop at the first that does not pass |
| Release.Run.InspectLocalTag | scripts/deploy.ts:293-318 | goes on only with an annotated tag object that peels to the commit |
| Release.Run.VerifyPublishedTag | scripts/deploy.ts:331-389 | accepted exactly when origin and GitHub both report the tag object and commit; an unflagged error exactly for a null read-back |
| Release.Run.DeployRelease | scripts/deploy.ts:391-444 | for every sequence of results the outcome is determined by the first answer that does not pass; mutations only in order on cleared evidence; a dry run mutates nothing; a blocked run that did not mutate says so and one that did says so |
| Release.Reader.ScriptMutatesInOrder | scripts/deploy.ts:391-444 | a trace that keeps to the script tags only after both rounds and the gate passed on one commit, and pushes only after the tag held that commit |
| Release.Reader.AtMostOneOfEach | scripts/deploy.ts:270-329 | at most one tag and one push are issued |
| Release.Reader.FollowedIsPublished | scripts/deploy.ts:331-389 | a run that passed everything has read back the tag it made from origin and GitHub, on the commit both rounds saw |
| Release.Rehearse | scripts/deploy.ts:391-444 | for every stable version, commit and tag object there are answers with which an executed run reaches its last read-back, which alone then decides between published, blocked with the flag, and the unflagged crash |

## Left out

- Requests that overlap on one session name, and calls that interleave inside one object while a container starts: at most one request is in flight per name, and a call of an object is one step in which it can fail or be reset.
- The lifecycle takes each quota limit as fixed during a run, and a key-value entry as written when its call took effect; readings that are stale across regions are not modelled.
- A storage put that throws is taken not to have written.
- The reservation of a previous owner may outlive a stopped name that someone else re-creates, so in the presence of faults only live-implies-reserved is claimed, and the converse for runs without faults.
- The published-MCP tool calls themselves (`callSandboxToolThroughPublishedMcp`) appear as forwarded traffic; tool schemas, JSON-RPC dispatch and results are not modelled.
- SandboxSessionContainer.CreateSession: deletes on its force and error paths succeed, because after a failed one copies and storage disagree until the next eviction (`ClearPersistedSession` says exactly when).
- Container environment variables, activity timers and the request forwarded to the container change nothing that is stored and are left out.
- Namespaces of published callers are arbitrary strings of the form the digest gives; that different seeds give different digests is a property of SHA-256 and not claimed.
- Authentication, cookies, sealing, signatures, OIDC discovery and key fetching; `SignInClaims` starts from decoded evidence and opened cookies.
- Strings are sequences of Unicode scalar values: a lone surrogate cannot occur, and the matcher's `?` stands for one element of the sequence where the original counts UTF-16 code units.
- FileManager.Read: a file that changes while it is read and abort signals are left out; the text decoder is an arbitrary function of the bytes.
- FileManager.ListRecursively: modification times, entries that vanish during the walk and `createParentDirs` are left out; they add single-branch members.
- Jail.ResolveExistingPath: `realpath` and `lstat` are arbitrary functions of the path, constant during one call; which of two failing lookups is reported is fixed here.
- ShellManager.Manager.KillTarget: delivery of the signal, process groups, grace delays, execution timeouts and the environment given to a child are left out.
- Run.DeployRelease: message texts, printed JSON and argument parsing are left out; JSON decoding is an arbitrary function of the text, and the script is proved for every way of reading command output, of which `JavaScript` is the one in use.
- The dashboard, infrastructure configuration, build scripts and the logger.
