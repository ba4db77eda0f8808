// The session index: keys `session:<owner>:<id>` and the paged owner listing.
module SessionIndex {
  import opened Prelude
  import opened SessionTypes
  import Utf8

  // ---------------------------------------------------------------------------
  // encodeURIComponent

  /** The characters the encoding leaves alone. */
  predicate Unescaped(c: char) {
    'A' <= c <= 'Z' || 'a' <= c <= 'z' || '0' <= c <= '9' || c in "-_.!~*'()"
  }

  function HexDigit(d: int): (c: char)
    requires 0 <= d < 16
    ensures c != ':' && HexValue(c) == d
  {
    if d < 10 then '0' + d as char else 'A' + (d - 10) as char
  }

  function HexValue(c: char): int {
    if c <= '9' then c as int - '0' as int else c as int - 'A' as int + 10
  }

  function EscapeByte(b: byte): string {
    if b < 128 && Unescaped(b as char) then [b as char] else ['%', HexDigit(b / 16), HexDigit(b % 16)]
  }

  function EscapeBytes(bytes: seq<byte>): string {
    if bytes == [] then "" else EscapeByte(bytes[0]) + EscapeBytes(bytes[1..])
  }

  function EncodeURIComponent(s: string): string {
    EscapeBytes(Utf8.Encode(s))
  }

  lemma {:induction false} EscapedHasNoColon(bytes: seq<byte>)
    ensures ':' !in EscapeBytes(bytes)
  {
    if bytes != [] {
      EscapedHasNoColon(bytes[1..]);
    }
  }

  lemma EscapedByteIsSelfDelimiting(a: byte, x: string, b: byte, y: string)
    requires EscapeByte(a) + x == EscapeByte(b) + y
    ensures a == b && x == y
  {
    var s, e, f := EscapeByte(a) + x, EscapeByte(a), EscapeByte(b);
    assert s[0] == e[0] == f[0];
    assert |e| == |f|;
    assert forall k :: 0 <= k < |e| ==> e[k] == s[k] == f[k];
    assert |e| == 3 ==> HexDigit(a / 16) == e[1] == f[1] == HexDigit(b / 16);
    assert |e| == 3 ==> HexDigit(a % 16) == e[2] == f[2] == HexDigit(b % 16);
    assert x == s[|e|..] == y;
  }

  lemma {:induction false} EscapeIsInjective(a: seq<byte>, b: seq<byte>)
    requires EscapeBytes(a) == EscapeBytes(b)
    ensures a == b
    decreases |a|
  {
    if a != [] && b != [] {
      EscapedByteIsSelfDelimiting(a[0], EscapeBytes(a[1..]), b[0], EscapeBytes(b[1..]));
      EscapeIsInjective(a[1..], b[1..]);
      assert a == [a[0]] + a[1..] && b == [b[0]] + b[1..];
    }
  }

  // ---------------------------------------------------------------------------
  // Keys

  const GLOBAL_PREFIX := "session:"

  function OwnerIndexPrefix(userId: string): string {
    GLOBAL_PREFIX + EncodeURIComponent(userId) + ":"
  }

  function SessionIndexKey(userId: string, sessionId: string): string {
    GLOBAL_PREFIX + EncodeURIComponent(userId) + ":" + sessionId
  }

  /** Two texts without a colon, each closed by one: the first colon settles both. */
  lemma FirstColonSplits(a: string, x: string, b: string, y: string)
    requires ':' !in a && ':' !in b
    requires a + ":" + x == b + ":" + y
    ensures a == b && x == y
  {
    var s, t := a + ":" + x, b + ":" + y;
    assert s[|a|] == ':' && t[|b|] == ':';
    assert |a| == |b|;
    assert a == s[..|a|] == t[..|b|] == b;
    assert x == s[|a| + 1..] == t[|b| + 1..] == y;
  }

  lemma ComponentIsInjective(a: string, b: string)
    requires EncodeURIComponent(a) == EncodeURIComponent(b)
    ensures a == b
  {
    EscapeIsInjective(Utf8.Encode(a), Utf8.Encode(b));
    Utf8.EncodeIsInjective(a, b);
  }

  /** A key names one owner and one session, even when either contains colons. */
  lemma KeyIsInjective(userA: string, idA: string, userB: string, idB: string)
    requires SessionIndexKey(userA, idA) == SessionIndexKey(userB, idB)
    ensures userA == userB && idA == idB
  {
    var a, b := EncodeURIComponent(userA), EncodeURIComponent(userB);
    EscapedHasNoColon(Utf8.Encode(userA));
    EscapedHasNoColon(Utf8.Encode(userB));
    assert a + ":" + idA == SessionIndexKey(userA, idA)[8..];
    assert b + ":" + idB == SessionIndexKey(userB, idB)[8..];
    FirstColonSplits(a, idA, b, idB);
    ComponentIsInjective(userA, userB);
  }

  /** An owner's prefix selects that owner's keys and no others. */
  lemma OwnerPrefixIsExact(owner: string, userId: string, sessionId: string)
    ensures OwnerIndexPrefix(owner) <= SessionIndexKey(userId, sessionId) <==> owner == userId
  {
    var prefix, key := OwnerIndexPrefix(owner), SessionIndexKey(userId, sessionId);
    assert SessionIndexKey(owner, sessionId) == OwnerIndexPrefix(owner) + sessionId;
    if prefix <= key {
      var rest := key[|prefix|..];
      assert key == prefix + rest;
      assert SessionIndexKey(owner, rest) == key;
      KeyIsInjective(owner, rest, userId, sessionId);
    }
  }

  // ---------------------------------------------------------------------------
  // The stored index and its pages

  /** Every entry sits under the key of its own owner and id: what indexSession writes. */
  ghost predicate WellKeyed(values: map<string, SessionState>) {
    forall key :: key in values ==> key == SessionIndexKey(values[key].userId, values[key].sessionId)
  }

  /** The keys of the store in listing order. */
  ghost predicate Enumerates(order: seq<string>, values: map<string, SessionState>) {
    forall key :: key in order <==> key in values
  }

  function KeysUnder(order: seq<string>, prefix: string): (keys: seq<string>)
    ensures forall key :: key in keys <==> key in order && prefix <= key
  {
    if order == [] then []
    else (if prefix <= order[0] then [order[0]] else []) + KeysUnder(order[1..], prefix)
  }

  /** The values stored at keys; a key without a value contributes nothing. */
  function ValuesAt(keys: seq<string>, values: map<string, SessionState>): seq<SessionState> {
    if keys == [] then []
    else (if keys[0] in values then [values[keys[0]]] else []) + ValuesAt(keys[1..], values)
  }

  lemma {:induction false} ValuesAtConcat(a: seq<string>, b: seq<string>, values: map<string, SessionState>)
    ensures ValuesAt(a + b, values) == ValuesAt(a, values) + ValuesAt(b, values)
  {
    if a == [] {
      assert a + b == b;
    } else {
      assert (a + b)[1..] == a[1..] + b;
      ValuesAtConcat(a[1..], b, values);
    }
  }

  /** One answer of the store: how many keys it gives, and whether it holds back the end marker. */
  datatype PagePlan = PagePlan(size: nat, heldBack: bool)

  /** The store's `list`: keys from the cursor on, and a cursor while there may be more. */
  method ListPage(keys: seq<string>, cursor: nat, plan: seq<PagePlan>, turn: nat)
    returns (page: seq<string>, complete: bool, next: nat)
    requires cursor <= |keys|
    ensures cursor <= next <= |keys| && page == keys[cursor..next]
    ensures complete ==> next == |keys|
    ensures turn >= |plan| ==> complete
  {
    if turn < |plan| {
      next := if cursor + plan[turn].size < |keys| then cursor + plan[turn].size else |keys|;
      complete := next == |keys| && !plan[turn].heldBack;
    } else {
      next, complete := |keys|, true;
    }
    page := keys[cursor..next];
  }

  /** Follow the cursor to the end, reading every entry; the store chooses its page sizes freely. */
  method ListSessionStates(order: seq<string>, values: map<string, SessionState>, prefix: string, plan: seq<PagePlan>)
    returns (out: seq<SessionState>)
    ensures out == ValuesAt(KeysUnder(order, prefix), values)
  {
    var keys := KeysUnder(order, prefix);
    out := [];
    var cursor, turn, more := 0, 0, true;
    while more
      invariant cursor <= |keys|
      invariant !more ==> cursor == |keys|
      invariant more ==> turn <= |plan|
      invariant out == ValuesAt(keys[..cursor], values)
      decreases if more then |plan| + 1 - turn else 0
    {
      var page, complete, next := ListPage(keys, cursor, plan, turn);
      var i := 0;
      while i < |page|
        invariant i <= |page|
        invariant out == ValuesAt(keys[..cursor + i], values)
      {
        assert keys[..cursor + i + 1] == keys[..cursor + i] + [page[i]];
        ValuesAtConcat(keys[..cursor + i], [page[i]], values);
        if page[i] in values {
          out := out + [values[page[i]]];
        }
        i := i + 1;
      }
      more := !complete;
      cursor, turn := next, turn + 1;
    }
    assert keys[..cursor] == keys;
  }

  function ScopePrefix(scope: Scope): string {
    match scope case Admin => GLOBAL_PREFIX case Gui(gui) => OwnerIndexPrefix(gui.sub)
  }

  /** The states a scope may see among those given. */
  function VisibleTo(scope: Scope, states: seq<SessionState>): seq<SessionState> {
    if states == [] then []
    else (if scope.Admin? || GuiOwns(scope.session, states[0]) then [states[0]] else [])
         + VisibleTo(scope, states[1..])
  }

  method FilterVisible(scope: Scope, all: seq<SessionState>) returns (sessions: seq<SessionState>)
    ensures sessions == VisibleTo(scope, all)
  {
    sessions := [];
    for i := 0 to |all|
      invariant sessions == VisibleTo(scope, all[..i])
    {
      assert all[..i + 1] == all[..i] + [all[i]];
      VisibleToConcat(scope, all[..i], [all[i]]);
      if scope.Admin? || GuiOwns(scope.session, all[i]) {
        sessions := sessions + [all[i]];
      }
    }
    assert all[..|all|] == all;
  }

  /** The list route: an owner prefix for a GUI caller, everything for an administrator. */
  method ListSessions(scope: Scope, order: seq<string>, values: map<string, SessionState>, plan: seq<PagePlan>)
    returns (sessions: seq<SessionState>)
    ensures sessions == VisibleTo(scope, ValuesAt(KeysUnder(order, ScopePrefix(scope)), values))
    ensures WellKeyed(values) && Enumerates(order, values) ==> sessions == VisibleTo(scope, ValuesAt(order, values))
    // A GUI caller is shown exactly its own unreserved sessions, within its space if it claims one.
    ensures WellKeyed(values) && Enumerates(order, values) && scope.Gui? ==>
              forall state :: state in sessions <==>
                && IsEntry(state, values)
                && state.userId == scope.session.sub && !("pmcp-" <= state.sessionId)
                && (scope.session.spaceId.Some? && scope.session.spaceId.value != "" ==>
                      state.spaceId == scope.session.spaceId.value)
    ensures WellKeyed(values) && Enumerates(order, values) && scope.Admin? ==>
              forall state :: state in sessions <==> IsEntry(state, values)
  {
    var all := ListSessionStates(order, values, ScopePrefix(scope), plan);
    sessions := FilterVisible(scope, all);
    if WellKeyed(values) && Enumerates(order, values) {
      PrefixListingIsFilteredScan(scope, order, values);
      forall state
        ensures state in sessions <==> IsEntry(state, values) && (scope.Admin? || GuiOwns(scope.session, state))
      {
        VisibleMembers(scope, ValuesAt(order, values), state);
        ValuesAtMembers(order, values, state);
      }
    }
  }

  ghost predicate IsEntry(state: SessionState, values: map<string, SessionState>) {
    exists key :: key in values && values[key] == state
  }

  lemma {:induction false} ValuesAtMembers(keys: seq<string>, values: map<string, SessionState>, state: SessionState)
    ensures state in ValuesAt(keys, values) <==> exists key :: key in keys && key in values && values[key] == state
  {
    if keys != [] {
      ValuesAtMembers(keys[1..], values, state);
      assert forall key :: key in keys <==> key == keys[0] || key in keys[1..];
    }
  }

  lemma {:induction false} VisibleMembers(scope: Scope, states: seq<SessionState>, state: SessionState)
    ensures state in VisibleTo(scope, states) <==> state in states && (scope.Admin? || GuiOwns(scope.session, state))
  {
    if states != [] {
      VisibleMembers(scope, states[1..], state);
      assert state in states <==> state == states[0] || state in states[1..];
    }
  }

  lemma {:induction false} VisibleToConcat(scope: Scope, a: seq<SessionState>, b: seq<SessionState>)
    ensures VisibleTo(scope, a + b) == VisibleTo(scope, a) + VisibleTo(scope, b)
  {
    if a == [] {
      assert a + b == b;
    } else {
      assert (a + b)[1..] == a[1..] + b;
      VisibleToConcat(scope, a[1..], b);
    }
  }

  /** Reading one owner's prefix and filtering shows what scanning the whole index and filtering shows. */
  lemma {:induction false} PrefixListingIsFilteredScan(
    scope: Scope, order: seq<string>, values: map<string, SessionState>)
    requires WellKeyed(values) && forall key :: key in order ==> key in values
    ensures VisibleTo(scope, ValuesAt(KeysUnder(order, ScopePrefix(scope)), values)) ==
            VisibleTo(scope, ValuesAt(order, values))
  {
    if order != [] {
      var key, rest := order[0], order[1..];
      PrefixListingIsFilteredScan(scope, rest, values);
      var state := values[key];
      if scope.Gui? {
        OwnerPrefixIsExact(scope.session.sub, state.userId, state.sessionId);
      }
      var head := if ScopePrefix(scope) <= key then [key] else [];
      ValuesAtConcat(head, KeysUnder(rest, ScopePrefix(scope)), values);
      VisibleToConcat(scope, ValuesAt(head, values), ValuesAt(KeysUnder(rest, ScopePrefix(scope)), values));
      VisibleToConcat(scope, [state], ValuesAt(rest, values));
    }
  }

  /** Whatever an owner prefix lists belongs to that owner, before any filter. */
  lemma {:induction false} OwnerListingIsIsolated(owner: string, order: seq<string>, values: map<string, SessionState>)
    requires WellKeyed(values) && forall key :: key in order ==> key in values
    ensures forall state :: state in ValuesAt(KeysUnder(order, OwnerIndexPrefix(owner)), values) ==>
              state.userId == owner
  {
    if order != [] {
      var key, rest := order[0], order[1..];
      OwnerListingIsIsolated(owner, rest, values);
      OwnerPrefixIsExact(owner, values[key].userId, values[key].sessionId);
      var head := if OwnerIndexPrefix(owner) <= key then [key] else [];
      ValuesAtConcat(head, KeysUnder(rest, OwnerIndexPrefix(owner)), values);
    }
  }
}
