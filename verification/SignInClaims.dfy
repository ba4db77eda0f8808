// App sign-in claims: what evidence mints, and what a later configuration
// still accepts of a sealed session.
module SignInClaims {
  import opened Prelude

  /** The claims of a session; appRole is a string because a sealed cookie may hold any. */
  datatype Claims = Claims(capsuleId: Option<string>, appRole: Option<string>, legacyWorkspaceId: Option<string>)

  /** The Capsule and Workspace an installation is configured with. */
  datatype Config = Config(capsule: Option<string>, workspace: Option<string>)

  datatype SignInError =
    | InvalidEvidence
    | CapsuleMismatch
    | InvalidAppRole
    | WorkspaceMismatch
    | InvalidLegacyRole
    | InvalidMemberships
    | MembershipMismatch

  /** A configured value that is set: the empty string counts as unset. */
  predicate Given(o: Option<string>) {
    o.Some? && o.value != ""
  }

  function Field(claims: map<string, Json>, name: string): Json {
    if name in claims then claims[name] else Undefined
  }

  predicate IsLegacyRole(role: Json) {
    role.Str? && role.s in {"owner", "admin", "member", "viewer"}
  }

  predicate AreMemberships(m: Json) {
    m.Arr? && forall i :: 0 <= i < |m.items| ==> m.items[i].Str? && m.items[i].s != ""
  }

  predicate CapsuleClaimAccepted(capsuleId: Json, expected: Option<string>) {
    capsuleId.Str? && capsuleId.s != "" && (Given(expected) ==> capsuleId.s == expected.value)
  }

  function Resolve(evidence: Json, config: Config, memberships: Json): Result<Claims, SignInError> {
    if !evidence.Undefined? && !evidence.Obj? then Err(InvalidEvidence)
    else
      var claims := if evidence.Obj? then evidence.fields else map[];
      var capsuleId, appRole := Field(claims, "capsule_id"), Field(claims, "app_role");
      if !capsuleId.Undefined? && !CapsuleClaimAccepted(capsuleId, config.capsule) then Err(CapsuleMismatch)
      else
        var bound := if Given(config.capsule) && capsuleId.Str? then Some(capsuleId.s) else None;
        if !appRole.Undefined? && appRole != Str("owner") && appRole != Str("member") then Err(InvalidAppRole)
        else if !appRole.Undefined? && capsuleId.Undefined? then Err(CapsuleMismatch)
        else if appRole.Str? && Given(config.capsule) then Ok(Claims(bound, Some(appRole.s), None))
        else ResolveLegacy(claims, bound, config.workspace, memberships)
  }

  /** The compatibility gate of an installation with a configured Workspace. */
  function ResolveLegacy(claims: map<string, Json>, bound: Option<string>, workspace: Option<string>, memberships: Json)
    : Result<Claims, SignInError>
  {
    var workspaceId, role := Field(claims, "workspace_id"), Field(claims, "role");
    var unprivileged := Claims(bound, None, None);
    if !Given(workspace) then Ok(unprivileged)
    else if !workspaceId.Undefined? && workspaceId != Str(workspace.value) then Err(WorkspaceMismatch)
    else if !role.Undefined? && !IsLegacyRole(role) then Err(InvalidLegacyRole)
    else if !memberships.Undefined? && !AreMemberships(memberships) then Err(InvalidMemberships)
    else
      var listed := memberships.Arr? && Str(workspace.value) in memberships.items;
      if memberships.Arr? && !listed && (!workspaceId.Undefined? || !role.Undefined?) then Err(MembershipMismatch)
      else if Given(bound) && workspaceId.Undefined? then Ok(unprivileged)
      else if (workspaceId == Str(workspace.value) && !role.Undefined?) || listed then
        Ok(Claims(bound, Some("member"), workspace))
      else Ok(unprivileged)
  }

  function OptionalField(name: string, value: Option<string>): map<string, Json> {
    if value.Some? then map[name := Str(value.value)] else map[]
  }

  /** The evidence the re-check rebuilds from a sealed session. */
  function SealedEvidence(s: Claims): Json {
    Obj(OptionalField("capsule_id", s.capsuleId) +
        if Given(s.legacyWorkspaceId)
        then OptionalField("workspace_id", s.legacyWorkspaceId) + OptionalField("role", s.appRole)
        else OptionalField("app_role", s.appRole))
  }

  /** Whether a session sealed earlier is still read under the current configuration. */
  predicate Recheck(s: Claims, config: Config) {
    if s.legacyWorkspaceId.Some? &&
       (s.legacyWorkspaceId.value == "" || s.legacyWorkspaceId != config.workspace ||
        (s.appRole != Some("owner") && s.appRole != Some("member")))
    then false
    else
      var current := Resolve(SealedEvidence(s), config, Undefined);
      current.Ok? && s.appRole == current.value.appRole
  }

  predicate CanCreateSandbox(publicCreation: bool, s: Claims) {
    publicCreation || s.appRole == Some("owner") || s.appRole == Some("member")
  }

  // ---------------------------------------------------------------------------
  // What is minted

  /** The fields of rebuilt evidence are the session's own. */
  lemma SealedFields(s: Claims)
    ensures var fields := SealedEvidence(s).fields;
            && Field(fields, "capsule_id") == (if s.capsuleId.Some? then Str(s.capsuleId.value) else Undefined)
            && Field(fields, "workspace_id") ==
               (if Given(s.legacyWorkspaceId) then Str(s.legacyWorkspaceId.value) else Undefined)
            && Field(fields, "role") ==
               (if Given(s.legacyWorkspaceId) && s.appRole.Some? then Str(s.appRole.value) else Undefined)
            && Field(fields, "app_role") ==
               (if !Given(s.legacyWorkspaceId) && s.appRole.Some? then Str(s.appRole.value) else Undefined)
  {
    assert "capsule_id" != "workspace_id" && "capsule_id" != "role" && "capsule_id" != "app_role";
    assert "workspace_id" != "role" && "workspace_id" != "app_role" && "role" != "app_role";
  }

  /** No evidence supplies its own binding: a minted Capsule or Workspace is the configured one. */
  lemma MintedBindingsAreConfigured(evidence: Json, config: Config, memberships: Json)
    requires Resolve(evidence, config, memberships).Ok?
    ensures var c := Resolve(evidence, config, memberships).value;
            && (c.capsuleId.Some? ==> Given(c.capsuleId) && c.capsuleId == config.capsule)
            && (c.legacyWorkspaceId.Some? ==>
                  Given(c.legacyWorkspaceId) && c.legacyWorkspaceId == config.workspace && c.appRole == Some("member"))
            && (c.appRole == Some("owner") ==> c.capsuleId.Some? && c.legacyWorkspaceId.None?)
            && (c.appRole.None? || c.appRole == Some("owner") || c.appRole == Some("member"))
            && (c.appRole.Some? ==> c.capsuleId.Some? || c.legacyWorkspaceId.Some?)
  {
  }

  /** What a claim may be: absent, or acceptable. */
  predicate AbsentOr(claim: Json, acceptable: bool) {
    claim.Undefined? || acceptable
  }

  /** Evidence that names no other Capsule and claims no role of the app by itself. */
  predicate NoAppRole(claims: map<string, Json>, config: Config) {
    var capsule, role := Field(claims, "capsule_id"), Field(claims, "app_role");
    && AbsentOr(capsule, CapsuleClaimAccepted(capsule, config.capsule))
    && AbsentOr(role, (role == Str("owner") || role == Str("member")) && capsule.Str? && !Given(config.capsule))
  }

  /** Evidence of membership in the configured Workspace that nothing beside it contradicts. */
  predicate WorkspaceMember(claims: map<string, Json>, config: Config, memberships: Json) {
    var space, role := Field(claims, "workspace_id"), Field(claims, "role");
    && Given(config.workspace) && AbsentOr(space, space == Str(config.workspace.value))
    && AbsentOr(role, IsLegacyRole(role)) && AbsentOr(memberships, AreMemberships(memberships))
    && var listed := memberships.Arr? && Str(config.workspace.value) in memberships.items;
       // Listed, or told so by a role when no list denies it; a bound Capsule needs the Workspace named.
       && (listed || (memberships.Undefined? && !space.Undefined? && !role.Undefined?))
       && (Given(config.capsule) && !Field(claims, "capsule_id").Undefined? ==> !space.Undefined?)
  }

  /** The Capsule and the app role, as far as they are given, are in order. */
  predicate AppClaimsInOrder(claims: map<string, Json>, config: Config) {
    var capsule, role := Field(claims, "capsule_id"), Field(claims, "app_role");
    && AbsentOr(capsule, CapsuleClaimAccepted(capsule, config.capsule))
    && AbsentOr(role, (role == Str("owner") || role == Str("member")) && !capsule.Undefined?)
  }

  /** What is said of the configured Workspace is in order, and nothing in it contradicts a list. */
  predicate WorkspaceClaimsInOrder(claims: map<string, Json>, workspace: string, memberships: Json) {
    var space, role := Field(claims, "workspace_id"), Field(claims, "role");
    && AbsentOr(space, space == Str(workspace)) && AbsentOr(role, IsLegacyRole(role))
    && AbsentOr(memberships, AreMemberships(memberships))
    && (memberships.Arr? && Str(workspace) !in memberships.items ==> space.Undefined? && role.Undefined?)
  }

  /**
   * Exactly this evidence signs in at all: the app claims are in order, and so are the
   * Workspace's, unless an app role bound to the configured Capsule makes them moot or no
   * Workspace is configured. Everything else is refused, not signed in without a role.
   */
  lemma SignInIsExact(evidence: Json, config: Config, memberships: Json)
    ensures var claims := if evidence.Obj? then evidence.fields else map[];
            Resolve(evidence, config, memberships).Ok? <==>
            && (evidence.Obj? || evidence.Undefined?) && AppClaimsInOrder(claims, config)
            && (|| !Given(config.workspace)
                || (Given(config.capsule) && !Field(claims, "app_role").Undefined?)
                || WorkspaceClaimsInOrder(claims, config.workspace.value, memberships))
  {
  }

  /** And this is the reason given for a refusal, the first that applies. */
  lemma RefusalIsExact(evidence: Json, config: Config, memberships: Json)
    requires Resolve(evidence, config, memberships).Err?
    ensures var claims := if evidence.Obj? then evidence.fields else map[];
            var capsule, role := Field(claims, "capsule_id"), Field(claims, "app_role");
            var e := Resolve(evidence, config, memberships).error;
            && (e == InvalidEvidence <==> !evidence.Obj? && !evidence.Undefined?)
            && (e == CapsuleMismatch ==> !AppClaimsInOrder(claims, config))
            && (e == InvalidAppRole ==> role != Str("owner") && role != Str("member") && !role.Undefined?)
            && (e == WorkspaceMismatch ==> Field(claims, "workspace_id") != Str(config.workspace.value))
            && (e == InvalidLegacyRole ==> !IsLegacyRole(Field(claims, "role")))
            && (e == InvalidMemberships ==> !AreMemberships(memberships))
            && (e == MembershipMismatch ==> memberships.Arr? && Str(config.workspace.value) !in memberships.items)
  {
  }

  /** A role is enough to create a sandbox; without one only a public installation lets a caller. */
  lemma RolesMayCreate(s: Claims)
    ensures CanCreateSandbox(false, s) <==> s.appRole.Some? && s.appRole.value in {"owner", "member"}
    ensures CanCreateSandbox(true, s)
  {
  }

  /** Exactly the evidence that names the configured Capsule makes an owner. */
  lemma OwnersAreExact(evidence: Json, config: Config, memberships: Json)
    ensures var r := Resolve(evidence, config, memberships);
            (r.Ok? && r.value.appRole == Some("owner")) <==>
            && evidence.Obj? && Given(config.capsule)
            && Field(evidence.fields, "capsule_id") == Str(config.capsule.value)
            && Field(evidence.fields, "app_role") == Str("owner")
  {
  }

  /** A member is one of the Capsule by its app role, or one of the Workspace without any. */
  lemma MembersAreExact(evidence: Json, config: Config, memberships: Json)
    ensures var r := Resolve(evidence, config, memberships);
            var claims := if evidence.Obj? then evidence.fields else map[];
            (r.Ok? && r.value.appRole == Some("member")) <==>
            && (evidence.Obj? || evidence.Undefined?)
            && (|| (Given(config.capsule)
                    && Field(claims, "capsule_id") == Str(config.capsule.value)
                    && Field(claims, "app_role") == Str("member"))
                || (NoAppRole(claims, config) && WorkspaceMember(claims, config, memberships)))
  {
  }

  /** Under the configuration that minted it, a session is read back unchanged. */
  lemma MintedIsAccepted(evidence: Json, config: Config, memberships: Json)
    requires Resolve(evidence, config, memberships).Ok?
    ensures Recheck(Resolve(evidence, config, memberships).value, config)
  {
    MintedBindingsAreConfigured(evidence, config, memberships);
    SealedFields(Resolve(evidence, config, memberships).value);
  }

  // ---------------------------------------------------------------------------
  // What another configuration accepts

  predicate CapsuleStillFits(s: Claims, config: Config) {
    s.capsuleId.Some? ==> s.capsuleId.value != "" && (Given(config.capsule) ==> s.capsuleId == config.capsule)
  }

  /** The sessions a configuration reads, whatever sealed them: the Capsule fits, and so does each role. */
  predicate StillBound(s: Claims, config: Config) {
    && CapsuleStillFits(s, config)
    && (if s.legacyWorkspaceId.Some?
        then Given(s.legacyWorkspaceId) && s.legacyWorkspaceId == config.workspace && s.appRole == Some("member")
        else
          s.appRole.Some? ==>
            && (s.appRole.value == "owner" || s.appRole.value == "member")
            && s.capsuleId.Some? && Given(config.capsule))
  }

  lemma RecheckIsExact(s: Claims, config: Config)
    ensures Recheck(s, config) <==> StillBound(s, config)
  {
    SealedFields(s);
  }

  /** An accepted owner belongs to the configured Capsule, an accepted member to it or to the Workspace. */
  lemma AcceptedRolesAreBound(s: Claims, config: Config)
    requires Recheck(s, config)
    ensures s.appRole == Some("owner") ==> Given(config.capsule) && s.capsuleId == config.capsule
    ensures s.appRole == Some("member") ==>
              || (Given(config.capsule) && s.capsuleId == config.capsule)
              || (Given(config.workspace) && s.legacyWorkspaceId == config.workspace)
    ensures CanCreateSandbox(false, s) ==> s.capsuleId.Some? || s.legacyWorkspaceId.Some?
  {
    RecheckIsExact(s, config);
  }

  /** Moving an installation to another Capsule and Workspace leaves no minted role in force. */
  lemma ReboundInstallationRevokesRoles(evidence: Json, minted: Config, memberships: Json, current: Config)
    requires Resolve(evidence, minted, memberships).Ok?
    requires minted.capsule != current.capsule && minted.workspace != current.workspace
    requires Recheck(Resolve(evidence, minted, memberships).value, current)
    ensures Resolve(evidence, minted, memberships).value.appRole == None
  {
    MintedBindingsAreConfigured(evidence, minted, memberships);
    AcceptedRolesAreBound(Resolve(evidence, minted, memberships).value, current);
  }
}
