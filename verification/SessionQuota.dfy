// The reservation list of one principal, and the local simulator's set form.
module SessionQuota {
  import opened Prelude

  const DEFAULT_LIMIT := 10
  const MAX_CONFIGURED_LIMIT := 1000

  datatype Reservation = Reservation(ok: bool, created: bool, count: nat, limit: int)

  datatype QuotaError = SessionIdRequired

  type Limit = n: int | 1 <= n <= MAX_CONFIGURED_LIMIT witness 1

  /** A configured limit; None is a value that is not a safe integer. */
  function NormalizeLimit(value: Option<int>): (limit: Limit)
    ensures value.Some? && 1 <= value.value <= 1000 ==> limit == value.value
    ensures value.None? || value.value < 1 ==> limit == 10
    ensures value.Some? && value.value > 1000 ==> limit == 1000
  {
    if value.None? || value.value <= 0 then DEFAULT_LIMIT
    else if value.value < MAX_CONFIGURED_LIMIT then value.value
    else MAX_CONFIGURED_LIMIT
  }

  function UserPrincipal(userId: string): string {
    "user:" + userId
  }

  function PublishedPrincipal(tokenNamespace: string): string {
    "published:" + tokenNamespace
  }

  // ---------------------------------------------------------------------------
  // The list

  ghost predicate Distinct(ids: seq<string>) {
    forall i, j :: 0 <= i < j < |ids| ==> ids[i] != ids[j]
  }

  function Without(ids: seq<string>, id: string): (rest: seq<string>)
    ensures forall x :: x in rest <==> x in ids && x != id
    ensures |rest| <= |ids|
  {
    if ids == [] then []
    else (if ids[0] == id then [] else [ids[0]]) + Without(ids[1..], id)
  }

  lemma {:induction false} WithoutKeepsDistinct(ids: seq<string>, id: string)
    requires Distinct(ids)
    ensures Distinct(Without(ids, id))
    ensures |Without(ids, id)| == if id in ids then |ids| - 1 else |ids|
  {
    if ids != [] {
      var rest := Without(ids[1..], id);
      WithoutKeepsDistinct(ids[1..], id);
      assert ids[0] !in ids[1..];
      assert id in ids <==> id == ids[0] || id in ids[1..];
      assert Without(ids, id) == if ids[0] == id then rest else [ids[0]] + rest;
    }
  }

  /** Reserving: repeats are admitted without a second entry, and a full list admits nobody new. */
  function ReserveIn(ids: seq<string>, sessionId: string, limit: int): (r: (seq<string>, Reservation))
    ensures r.1.ok <==> sessionId in r.0
    ensures r.1.ok <==> sessionId in ids || |ids| < limit
    ensures forall x :: x in ids ==> x in r.0
    ensures forall x :: x in r.0 ==> x in ids || x == sessionId
    ensures |ids| <= limit ==> |r.0| <= limit
    ensures r.1.count == |r.0| && |r.0| == |ids| + (if r.1.created then 1 else 0)
    ensures Distinct(ids) ==> Distinct(r.0)
  {
    if sessionId in ids then (ids, Reservation(true, false, |ids|, limit))
    else if |ids| >= limit then (ids, Reservation(false, false, |ids|, limit))
    else (ids + [sessionId], Reservation(true, true, |ids| + 1, limit))
  }

  // ---------------------------------------------------------------------------
  // The stored form: the key is absent while nothing is reserved

  /** Durable storage of one principal; `stored` is what the reservations key holds. */
  class SessionQuotaStore {
    var stored: Option<seq<string>>

    ghost predicate Valid()
      reads this
    {
      stored.Some? ==> stored.value != [] && Distinct(stored.value)
    }

    function Reservations(): seq<string>
      reads this
    {
      if stored.Some? then stored.value else []
    }

    constructor ()
      ensures Valid() && Reservations() == []
    {
      stored := None;
    }

    method Reserve(sessionId: string, limit: Option<int>) returns (r: Result<Reservation, QuotaError>)
      requires Valid()
      modifies this
      ensures Valid()
      ensures r.Err? <==> sessionId == ""
      ensures r.Err? ==> stored == old(stored)
      ensures r.Ok? ==> (Reservations(), r.value) == ReserveIn(old(Reservations()), sessionId, NormalizeLimit(limit))
    {
      if sessionId == "" {
        return Err(SessionIdRequired);
      }
      var normalizedLimit := NormalizeLimit(limit);
      var reservations := Reservations();
      if sessionId in reservations {
        return Ok(Reservation(true, false, |reservations|, normalizedLimit));
      }
      var count := |reservations|;
      if count >= normalizedLimit {
        return Ok(Reservation(false, false, count, normalizedLimit));
      }
      stored := Some(reservations + [sessionId]);
      r := Ok(Reservation(true, true, count + 1, normalizedLimit));
    }

    method Release(sessionId: string) returns (r: Result<bool, QuotaError>)
      requires Valid()
      modifies this
      ensures Valid()
      ensures r.Err? <==> sessionId == ""
      ensures r.Err? ==> stored == old(stored)
      ensures r.Ok? ==> r.value == (sessionId in old(Reservations()))
      ensures r.Ok? ==> Reservations() == Without(old(Reservations()), sessionId)
    {
      if sessionId == "" {
        return Err(SessionIdRequired);
      }
      var reservations := Reservations();
      WithoutKeepsDistinct(reservations, sessionId);
      if sessionId !in reservations {
        NothingToRemove(reservations, sessionId);
        return Ok(false);
      }
      var next := Without(reservations, sessionId);
      stored := if next == [] then None else Some(next);
      r := Ok(true);
    }
  }

  lemma {:induction false} NothingToRemove(ids: seq<string>, id: string)
    requires id !in ids
    ensures Without(ids, id) == ids
  {
    if ids != [] {
      NothingToRemove(ids[1..], id);
      assert ids == [ids[0]] + ids[1..];
    }
  }

  /** What a reservation promises its caller about a set of places and the reply. */
  ghost predicate Admitted(before: set<string>, sessionId: string, limit: int, after: set<string>, r: Reservation) {
    && before <= after <= before + {sessionId}
    && (r.ok <==> sessionId in after) && (r.ok <==> sessionId in before || |before| < limit)
    && (r.created <==> before < after)
    && r.count == |after| && r.limit == limit
  }

  /** The simulator's coordinator: a set, with the limit taken as it comes. */
  class LocalSessionQuota {
    var sessions: set<string>

    constructor ()
      ensures sessions == {}
    {
      sessions := {};
    }

    method Reserve(sessionId: string, limit: int) returns (r: Reservation)
      modifies this
      ensures Admitted(old(sessions), sessionId, limit, sessions, r)
    {
      if sessionId in sessions {
        return Reservation(true, false, |sessions|, limit);
      }
      if |sessions| >= limit {
        return Reservation(false, false, |sessions|, limit);
      }
      sessions := sessions + {sessionId};
      r := Reservation(true, true, |sessions|, limit);
    }

    method Release(sessionId: string) returns (released: bool)
      modifies this
      ensures released == (sessionId in old(sessions))
      ensures sessions == old(sessions) - {sessionId}
    {
      released := sessionId in sessions;
      sessions := sessions - {sessionId};
    }
  }

  function LocalReserve(sessions: set<string>, sessionId: string, limit: int): (set<string>, Reservation) {
    if sessionId in sessions then (sessions, Reservation(true, false, |sessions|, limit))
    else if |sessions| >= limit then (sessions, Reservation(false, false, |sessions|, limit))
    else (sessions + {sessionId}, Reservation(true, true, |sessions| + 1, limit))
  }

  /** The promise leaves no choice: only one set and one reply keep it. */
  lemma AdmissionIsDetermined(before: set<string>, sessionId: string, limit: int, after: set<string>, r: Reservation)
    ensures Admitted(before, sessionId, limit, after, r) <==> (after, r) == LocalReserve(before, sessionId, limit)
  {
    if Admitted(before, sessionId, limit, after, r) {
      assert after == if sessionId in after then before + {sessionId} else before;
      assert sessionId in before ==> before + {sessionId} == before;
    }
  }

  // ---------------------------------------------------------------------------
  // Histories

  datatype Request = ReserveRequest(sessionId: string, limit: int) | ReleaseRequest(sessionId: string)

  datatype Reply = Reserved(reservation: Reservation) | Released(released: bool)

  predicate Admissible(q: Request) {
    q.sessionId != "" && (q.ReserveRequest? ==> 1 <= q.limit <= MAX_CONFIGURED_LIMIT)
  }

  function ListStep(ids: seq<string>, q: Request): (seq<string>, Reply) {
    match q
    case ReserveRequest(id, limit) =>
      var (next, r) := ReserveIn(ids, id, NormalizeLimit(Some(limit)));
      (next, Reserved(r))
    case ReleaseRequest(id) => (Without(ids, id), Released(id in ids))
  }

  function SetStep(sessions: set<string>, q: Request): (set<string>, Reply) {
    match q
    case ReserveRequest(id, limit) =>
      var (next, r) := LocalReserve(sessions, id, limit);
      (next, Reserved(r))
    case ReleaseRequest(id) => (sessions - {id}, Released(id in sessions))
  }

  function ListReplies(ids: seq<string>, history: seq<Request>): seq<Reply>
    decreases |history|
  {
    if history == [] then []
    else var (next, reply) := ListStep(ids, history[0]); [reply] + ListReplies(next, history[1..])
  }

  function SetReplies(sessions: set<string>, history: seq<Request>): seq<Reply>
    decreases |history|
  {
    if history == [] then []
    else var (next, reply) := SetStep(sessions, history[0]); [reply] + SetReplies(next, history[1..])
  }

  function Members(ids: seq<string>): set<string> {
    set id | id in ids
  }

  lemma {:induction false} MembersCount(ids: seq<string>)
    requires Distinct(ids)
    ensures |Members(ids)| == |ids|
  {
    if ids != [] {
      MembersCount(ids[1..]);
      assert Members(ids) == {ids[0]} + Members(ids[1..]);
    }
  }

  lemma StepsAgree(ids: seq<string>, q: Request)
    requires Distinct(ids) && Admissible(q)
    ensures Distinct(ListStep(ids, q).0)
    ensures SetStep(Members(ids), q) == (Members(ListStep(ids, q).0), ListStep(ids, q).1)
  {
    MembersCount(ids);
    WithoutKeepsDistinct(ids, q.sessionId);
    var next := ListStep(ids, q).0;
    assert SetStep(Members(ids), q).0 == Members(next);
  }

  /** The list and the set answer every history of admissible requests alike. */
  lemma {:induction false} ListAndSetAgree(ids: seq<string>, history: seq<Request>)
    requires Distinct(ids)
    requires forall i :: 0 <= i < |history| ==> Admissible(history[i])
    ensures ListReplies(ids, history) == SetReplies(Members(ids), history)
    decreases |history|
  {
    if history != [] {
      StepsAgree(ids, history[0]);
      ListAndSetAgree(ListStep(ids, history[0]).0, history[1..]);
    }
  }

  function ListAfter(ids: seq<string>, history: seq<Request>): seq<string>
    decreases |history|
  {
    if history == [] then ids else ListAfter(ListStep(ids, history[0]).0, history[1..])
  }

  /** Entries gained and lost, as the replies report them. */
  function NetCreated(replies: seq<Reply>): int {
    if replies == [] then 0
    else (match replies[0]
          case Reserved(r) => if r.created then 1 else 0
          case Released(released) => if released then -1 else 0) + NetCreated(replies[1..])
  }

  /** Conservation: what was created and not released is what the list holds. */
  lemma {:induction false} CreatedMinusReleased(ids: seq<string>, history: seq<Request>)
    requires Distinct(ids)
    ensures Distinct(ListAfter(ids, history))
    ensures |ListAfter(ids, history)| == |ids| + NetCreated(ListReplies(ids, history))
    decreases |history|
  {
    if history != [] {
      WithoutKeepsDistinct(ids, history[0].sessionId);
      CreatedMinusReleased(ListStep(ids, history[0]).0, history[1..]);
    }
  }

  /** Releasing a reservation that was just created restores the list. */
  lemma ReleaseUndoesReserve(ids: seq<string>, sessionId: string, limit: int)
    requires Distinct(ids) && ReserveIn(ids, sessionId, limit).1.created
    ensures Without(ReserveIn(ids, sessionId, limit).0, sessionId) == ids
  {
    NothingToRemove(ids, sessionId);
    WithoutConcat(ids, [sessionId], sessionId);
  }

  lemma {:induction false} WithoutConcat(a: seq<string>, b: seq<string>, id: string)
    ensures Without(a + b, id) == Without(a, id) + Without(b, id)
  {
    if a == [] {
      assert a + b == b;
    } else {
      assert (a + b)[1..] == a[1..] + b;
      WithoutConcat(a[1..], b, id);
    }
  }
}
