/**
 * The local cache of calculation sessions: an ordered list of sessions and the id of the current
 * one. JavaScript truthiness decides whether there is a current session, so an id of `0` counts as
 * none; when there is none, loading picks the default session, or else the first.
 */
module Sessions {
  import opened Wrappers

  /** A session as stored: the id may be missing; `is_default` is `1` for the default session. */
  datatype Session = Session(id: Option<int>, name: string, isDefault: int)

  /**
   * `Partial<Session>` as spread over a session: a key that is present replaces the field. The id
   * key may be present with `undefined`, hence the nested option.
   */
  datatype SessionPatch = SessionPatch(id: Option<Option<int>>, name: Option<string>, isDefault: Option<int>)

  /** `{ ...session, ...updates }`. */
  function Merge(s: Session, u: SessionPatch): (r: Session)
    ensures r.id == (if u.id.Some? then u.id.value else s.id)
    ensures r.name == (if u.name.Some? then u.name.value else s.name)
    ensures r.isDefault == (if u.isDefault.Some? then u.isDefault.value else s.isDefault)
  {
    Session(
      if u.id.Some? then u.id.value else s.id,
      if u.name.Some? then u.name.value else s.name,
      if u.isDefault.Some? then u.isDefault.value else s.isDefault)
  }

  /** `!id` for `number | null`: null and `0` are falsy, and every other id, negative ones too, is truthy. */
  predicate IsFalsy(id: Option<int>): (falsy: bool)
    ensures falsy <==> id == None || id == Some(0)
  {
    id.None? || id.value == 0
  }

  /** `findIndex`: the first position whose session satisfies `p`, or -1. */
  function FindIndex(sessions: seq<Session>, p: Session -> bool): (i: int)
    ensures -1 <= i < |sessions|
    ensures i == -1 <==> forall j :: 0 <= j < |sessions| ==> !p(sessions[j])
    ensures i >= 0 ==> p(sessions[i]) && forall j :: 0 <= j < i ==> !p(sessions[j])
  {
    if sessions == [] then -1
    else if p(sessions[0]) then 0
    else
      var i := FindIndex(sessions[1..], p);
      assert forall j :: 1 <= j < |sessions| ==> sessions[1..][j - 1] == sessions[j];
      if i == -1 then -1 else i + 1
  }

  /** `find((s: Session) => s.id === id) || null`: the first session with that id, or null. */
  function FirstWithId(sessions: seq<Session>, id: int): (r: Option<Session>)
    ensures r.None? <==> forall j :: 0 <= j < |sessions| ==> sessions[j].id != Some(id)
    ensures r.Some? ==> r.value.id == Some(id)
    ensures r.Some? ==> exists i :: 0 <= i < |sessions| && sessions[i] == r.value &&
                          forall j :: 0 <= j < i ==> sessions[j].id != Some(id)
  {
    var i := FindIndex(sessions, (s: Session) => s.id == Some(id));
    if i == -1 then None else Some(sessions[i])
  }

  /** `find((s: Session) => s.is_default === 1)`. */
  function FirstDefault(sessions: seq<Session>): (r: Option<Session>)
    ensures r.None? <==> forall j :: 0 <= j < |sessions| ==> sessions[j].isDefault != 1
    ensures r.Some? ==> r.value.isDefault == 1
    ensures r.Some? ==> exists i :: 0 <= i < |sessions| && sessions[i] == r.value &&
                          forall j :: 0 <= j < i ==> sessions[j].isDefault != 1
  {
    var i := FindIndex(sessions, (s: Session) => s.isDefault == 1);
    if i == -1 then None else Some(sessions[i])
  }

  /** `defaultSession?.id ?? sessions[0].id ?? null`: the id the current session falls back to. */
  function FallbackId(sessions: seq<Session>): (r: Option<int>)
    requires |sessions| > 0
  {
    var d := FirstDefault(sessions);
    if d.Some? && d.value.id.Some? then d.value.id else sessions[0].id
  }

  /**
   * The fallback is the id of a listed session: the first default one when it has an id, else the
   * first session's; it is missing only when both ids are.
   */
  lemma {:induction false} FallbackIdChoice(sessions: seq<Session>)
    requires |sessions| > 0
    ensures FallbackId(sessions).Some? ==> exists i :: 0 <= i < |sessions| && sessions[i].id == FallbackId(sessions)
    ensures FallbackId(sessions).None? <==>
      sessions[0].id.None? && (FirstDefault(sessions).None? || FirstDefault(sessions).value.id.None?)
    ensures FirstDefault(sessions).Some? && FirstDefault(sessions).value.id.Some? ==>
      FallbackId(sessions) == FirstDefault(sessions).value.id
  {
  }

  /**
   * When every session has a distinct truthy id, the fallback names a session that
   * `getCurrentSession` then finds: the first default one if there is one.
   */
  lemma {:induction false} FallbackFound(sessions: seq<Session>)
    requires |sessions| > 0
    requires forall i :: 0 <= i < |sessions| ==> !IsFalsy(sessions[i].id)
    requires forall i, j :: 0 <= i < j < |sessions| ==> sessions[i].id != sessions[j].id
    ensures !IsFalsy(FallbackId(sessions))
    ensures FirstWithId(sessions, FallbackId(sessions).value) ==
      if FirstDefault(sessions).Some? then FirstDefault(sessions) else Some(sessions[0])
  {
    var d := FirstDefault(sessions);
    var target := if d.Some? then d.value else sessions[0];
    var k :| 0 <= k < |sessions| && sessions[k] == target;
    var r := FirstWithId(sessions, target.id.value);
    var i :| 0 <= i < |sessions| && sessions[i] == r.value && forall j :: 0 <= j < i ==> sessions[j].id != Some(target.id.value);
    assert sessions[k].id == Some(target.id.value) == sessions[i].id;
  }

  /** `sessions.filter((s: Session) => s.id !== id)`: every session with that id gone, the rest kept in order. */
  function WithoutId(sessions: seq<Session>, id: int): (r: seq<Session>)
    ensures forall s :: s in r <==> s in sessions && s.id != Some(id)
    ensures |r| <= |sessions|
    ensures InOrder(r, sessions)
    ensures forall s: Session :: s.id != Some(id) ==> multiset(r)[s] == multiset(sessions)[s]
  {
    if sessions == [] then []
    else
      assert sessions == [sessions[0]] + sessions[1..];
      if sessions[0].id == Some(id) then WithoutId(sessions[1..], id)
      else [sessions[0]] + WithoutId(sessions[1..], id)
  }

  /** `a` is `b` with some sessions left out, the others in their order. */
  ghost predicate InOrder(a: seq<Session>, b: seq<Session>)
    decreases |b|
  {
    a == [] || (b != [] && ((a[0] == b[0] && InOrder(a[1..], b[1..])) || InOrder(a, b[1..])))
  }

  /** The list `updateSession` leaves: only the first session with the id is merged with the patch. */
  function Updated(sessions: seq<Session>, id: int, updates: SessionPatch): (r: seq<Session>)
    ensures |r| == |sessions|
    ensures forall j :: 0 <= j < |sessions| && r[j] != sessions[j] ==>
      sessions[j].id == Some(id) && forall k :: 0 <= k < j ==> sessions[k].id != Some(id)
    ensures (forall j :: 0 <= j < |sessions| ==> sessions[j].id != Some(id)) ==> r == sessions
    ensures forall j :: (0 <= j < |sessions| && sessions[j].id == Some(id) &&
                         forall k :: 0 <= k < j ==> sessions[k].id != Some(id)) ==> r[j] == Merge(sessions[j], updates)
  {
    var i := FindIndex(sessions, (s: Session) => s.id == Some(id));
    if i == -1 then sessions else sessions[i := Merge(sessions[i], updates)]
  }

  class SessionManager {
    var currentSessionId: Option<int>
    var sessions: seq<Session>

    constructor ()
      ensures currentSessionId == None && sessions == []
    {
      currentSessionId := None;
      sessions := [];
    }

    method GetCurrentSessionId() returns (r: Option<int>)
      ensures r == currentSessionId
    {
      r := currentSessionId;
    }

    method SetCurrentSessionId(id: int)
      modifies this
      ensures currentSessionId == Some(id) && sessions == old(sessions)
    {
      currentSessionId := Some(id);
    }

    method GetSessions() returns (r: seq<Session>)
      ensures r == sessions
    {
      r := sessions;
    }

    /**
     * `loadSessions`: replaces the list; a falsy current id moves to the fallback when the list is
     * non-empty, a truthy one is kept even when no listed session has it.
     */
    method LoadSessions(list: seq<Session>)
      modifies this
      ensures sessions == list
      ensures currentSessionId == if IsFalsy(old(currentSessionId)) && |list| > 0 then FallbackId(list) else old(currentSessionId)
    {
      sessions := list;
      if IsFalsy(currentSessionId) && |list| > 0 {
        var defaultSession := FirstDefault(list);
        currentSessionId := if defaultSession.Some? && defaultSession.value.id.Some? then defaultSession.value.id else list[0].id;
      }
    }

    /** `addSession`: appended, with no check for a duplicate id. */
    method AddSession(session: Session)
      modifies this
      ensures sessions == old(sessions) + [session]
      ensures currentSessionId == old(currentSessionId)
    {
      sessions := sessions + [session];
    }

    /** `updateSession`: merges the patch into the first session with the id; a no-op when none has it. */
    method UpdateSession(id: int, updates: SessionPatch)
      modifies this
      ensures sessions == Updated(old(sessions), id, updates)
      ensures currentSessionId == old(currentSessionId)
    {
      var index := FindIndex(sessions, (s: Session) => s.id == Some(id));
      if index != -1 {
        sessions := sessions[index := Merge(sessions[index], updates)];
      }
    }

    /**
     * `removeSession`: drops every session with the id; when that was the current session and
     * some remain, the current id moves to the fallback; when none remain, it is left as it was.
     */
    method RemoveSession(id: int)
      modifies this
      ensures sessions == WithoutId(old(sessions), id)
      ensures currentSessionId ==
        if old(currentSessionId) == Some(id) && |sessions| > 0 then FallbackId(sessions) else old(currentSessionId)
    {
      sessions := WithoutId(sessions, id);
      if currentSessionId == Some(id) && |sessions| > 0 {
        var defaultSession := FirstDefault(sessions);
        currentSessionId := if defaultSession.Some? && defaultSession.value.id.Some? then defaultSession.value.id else sessions[0].id;
      }
    }

    /** `getSessionById`: the first session with the id, or null. */
    method GetSessionById(id: int) returns (r: Option<Session>)
      ensures r == FirstWithId(sessions, id)
    {
      r := FirstWithId(sessions, id);
    }

    /** `getCurrentSession`: null for a falsy current id, else the first session with that id. */
    method GetCurrentSession() returns (r: Option<Session>)
      ensures IsFalsy(currentSessionId) ==> r.None?
      ensures !IsFalsy(currentSessionId) ==> r == FirstWithId(sessions, currentSessionId.value)
    {
      if IsFalsy(currentSessionId) {
        return None;
      }
      r := GetSessionById(currentSessionId.value);
    }
  }

  /** After `removeSession(id)` no session with that id is found, and the others are all still there. */
  lemma {:induction false} RemovedNotFound(sessions: seq<Session>, id: int)
    ensures FirstWithId(WithoutId(sessions, id), id).None?
    ensures forall s :: s in sessions && s.id != Some(id) ==> s in WithoutId(sessions, id)
  {
    var r := WithoutId(sessions, id);
    forall j | 0 <= j < |r| ensures r[j].id != Some(id) {
      assert r[j] in r;
    }
  }
}
