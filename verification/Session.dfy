// The locked-session state machine.
module Session {
  import opened Wrappers

  datatype Status = IDLE | LOCKED | EXPIRED

  /** Instants are microseconds in UTC; the sorted name lists of a session are kept as sets. */
  datatype SessionState = SessionState(
    status: Status,
    sessionId: Option<string>,
    createdAt: Option<int>,
    expiresAt: Option<int>,
    durationSeconds: int,
    domains: set<string>,
    services: set<string>,
    bootId: Option<string>)

  const NO_SESSION := SessionState(IDLE, None, None, None, 0, {}, {}, None)

  datatype SessionError =
    | LockedSession(expiresAt: int, remaining: int)
    | BadTimestamp   // a session without expiry cannot be read back

  /** Microseconds left of a locked session. */
  function Remaining(s: SessionState, now: int): (left: int)
    ensures left >= 0
  {
    if s.status != LOCKED || s.expiresAt.None? || s.expiresAt.value <= now then 0 else s.expiresAt.value - now
  }

  /** The new state of an expiry check, and whether the session expired just now. */
  function Checked(s: SessionState, now: int): (SessionState, Result<bool, SessionError>) {
    if s.status != LOCKED then (s, Success(false))
    else if s.createdAt.Some? && now < s.createdAt.value then (s, Success(false))
    else if s.expiresAt.None? then (s, Failure(BadTimestamp))
    else if now >= s.expiresAt.value then (s.(status := EXPIRED), Success(true))
    else (s, Success(false))
  }

  /** The guard of every mutation. It reads the clock twice: once for the remaining time, and again
      for the expiry check if none remains. */
  function Guarded(s: SessionState, first: int, second: int): (SessionState, Option<SessionError>) {
    if s.status != LOCKED then (s, None)
    else if Remaining(s, first) > 0 then (s, Some(LockedSession(s.expiresAt.value, Remaining(s, first))))
    else
      var (s', r) := Checked(s, second);
      (s', if r.Failure? then Some(r.error) else None)
  }

  class SessionManager {
    var state: SessionState

    constructor (initial: SessionState)
      ensures state == initial
    {
      state := initial;
    }

    method CheckExpiration(now: int) returns (r: Result<bool, SessionError>)
      modifies this
      ensures (state, r) == Checked(old(state), now)
    {
      if state.status != LOCKED {
        return Success(false);
      }
      if state.createdAt.Some? && now < state.createdAt.value {
        return Success(false);
      }
      if state.expiresAt.None? {
        return Failure(BadTimestamp);
      }
      if now >= state.expiresAt.value {
        state := state.(status := EXPIRED);
        return Success(true);
      }
      return Success(false);
    }

    method ReleaseExpired()
      modifies this
      ensures state == NO_SESSION
    {
      state := NO_SESSION;
    }

    method AssertNotLocked(first: int, second: int) returns (e: Option<SessionError>)
      modifies this
      ensures (state, e) == Guarded(old(state), first, second)
    {
      if state.status == LOCKED {
        var left := Remaining(state, first);
        if left > 0 {
          return Some(LockedSession(state.expiresAt.value, left));
        }
        var checked := CheckExpiration(second);
        return if checked.Failure? then Some(checked.error) else None;
      }
      return None;
    }

    method StartSession(started: SessionState, now: int) returns (e: Option<SessionError>)
      modifies this
      ensures Remaining(old(state), now) > 0 ==>
                e == Some(LockedSession(old(state).expiresAt.value, Remaining(old(state), now))) && state == old(state)
      ensures Remaining(old(state), now) == 0 ==> e == None && state == started
    {
      if state.status == LOCKED {
        var left := Remaining(state, now);
        if left > 0 {
          return Some(LockedSession(state.expiresAt.value, left));
        }
      }
      state := started;
      return None;
    }
  }

  /** A running or finished session that can be read back. */
  predicate Stamped(s: SessionState) {
    s.status != IDLE ==> s.createdAt.Some? && s.expiresAt.Some?
  }

  predicate Locked(s: SessionState) {
    s.status == LOCKED && s.createdAt.Some? && s.expiresAt.Some?
  }

  predicate WellOrdered(s: SessionState) {
    Locked(s) ==> s.createdAt.value < s.expiresAt.value
  }

  /** When the guard lets a caller pass although the session stays locked: exactly when the first
      reading is past the expiry and the second one is back before it, or before the creation. */
  lemma PassesWhileLocked(s: SessionState, first: int, second: int)
    requires Locked(s)
    ensures Guarded(s, first, second).1.None? && Guarded(s, first, second).0.status == LOCKED
        <==> first >= s.expiresAt.value && (second < s.expiresAt.value || second < s.createdAt.value)
  {
  }

  /** Hence a guard whose readings do not decrease never does, for a session that expires after it
      was created: it raises, or leaves a state that is not locked. */
  lemma GuardIsSound(s: SessionState, first: int, second: int)
    requires Stamped(s) && WellOrdered(s) && first <= second
    ensures var (s', e) := Guarded(s, first, second);
            && (e.None? ==> s'.status != LOCKED)
            && (e.Some? ==> s' == s && s.status == LOCKED && first < s.expiresAt.value)
  {
    if s.status == LOCKED {
      PassesWhileLocked(s, first, second);
    }
  }
}
