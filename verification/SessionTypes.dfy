// The shapes the session host, its Durable Objects and the index exchange.
module SessionTypes {
  import opened Prelude
  import Utf8

  datatype Status = Starting | Active | Stopped

  datatype SessionState = SessionState(
    sessionId: string, spaceId: string, userId: string, status: Status, createdAt: string)
  {
    predicate Live() { status != Stopped }

    predicate OwnedBy(user: string, space: string) { userId == user && spaceId == space }
  }

  datatype CreatePayload = CreatePayload(sessionId: string, spaceId: string, userId: string)

  const MAX_SESSION_ID_BYTES := 120

  predicate ValidSessionId(sessionId: string) {
    1 <= |Utf8.Encode(sessionId)| <= MAX_SESSION_ID_BYTES
  }

  const PUBLISHED_SCOPE_PREFIX := "pmcp-"

  predicate IsPublishedScopedId(id: string) {
    PUBLISHED_SCOPE_PREFIX <= id
  }

  /** A sealed GUI identity: `sub`, and a space when the sign-in carried one. */
  datatype GuiSession = GuiSession(sub: string, spaceId: Option<string>)

  /** The caller of a host route: an administrator, or a signed-in GUI user. */
  datatype Scope = Admin | Gui(session: GuiSession)

  predicate GuiOwns(gui: GuiSession, state: SessionState) {
    if IsPublishedScopedId(state.sessionId) then false
    else if gui.sub != state.userId then false
    else if gui.spaceId.Some? && gui.spaceId.value != "" && gui.spaceId.value != state.spaceId then false
    else true
  }
}
