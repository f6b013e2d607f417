/**
 * The admin session table of package logincheck (`SessionManager`) and the
 * access decision its `AuthMiddleware` makes for every admin HTTP request.
 * Clock readings are integer nanoseconds, as Go's `time.Duration` counts them.
 */
module LoginCheck {
  import opened Wrappers
  import opened Strconv

  /** A session lives 24 hours. */
  const SessionLifetime := 24 * 60 * 60 * 1_000_000_000

  datatype Session = Session(userID: string, createdAt: int, expiresAt: int)

  /** `time.Now().After(expiresAt)`: the expiry instant itself is not yet expired. */
  predicate Expired(s: Session, now: int)
  {
    now > s.expiresAt
  }

  /** The entries of `m` that have not expired at `now`. */
  function Unexpired(m: map<string, Session>, now: int): (r: map<string, Session>)
    ensures r.Keys <= m.Keys
    ensures forall id :: id in r ==> r[id] == m[id] && !Expired(m[id], now)
    ensures forall id :: id in m && !Expired(m[id], now) ==> id in r
  {
    map id | id in m && !Expired(m[id], now) :: m[id]
  }

  class SessionManager {
    var sessions: map<string, Session>

    constructor ()
      ensures sessions == map[]
    {
      sessions := map[];
    }

    /**
     * `CreateSession`: inserts, or replaces, the entry for `sessionID`, valid for
     * 24 hours from `now`; returns the id it was given.
     */
    method CreateSession(userID: string, sessionID: string, now: int) returns (id: string)
      modifies this
      ensures id == sessionID
      ensures sessions == old(sessions)[sessionID := Session(userID, now, now + SessionLifetime)]
    {
      var session := Session(userID, now, now + SessionLifetime);
      sessions := sessions[sessionID := session];
      id := sessionID;
    }

    /**
     * `ValidateSession`: true exactly when the entry exists and has not expired at
     * `now`. An expired entry is removed; nothing else changes.
     */
    method ValidateSession(sessionID: string, now: int) returns (valid: bool)
      modifies this
      ensures valid <==> sessionID in old(sessions) && !Expired(old(sessions)[sessionID], now)
      ensures sessionID in old(sessions) && Expired(old(sessions)[sessionID], now) ==>
        sessions == old(sessions) - {sessionID}
      ensures !(sessionID in old(sessions) && Expired(old(sessions)[sessionID], now)) ==>
        sessions == old(sessions)
    {
      if sessionID !in sessions {
        return false;
      }
      var session := sessions[sessionID];
      if now > session.expiresAt {
        sessions := sessions - {sessionID};
        return false;
      }
      return true;
    }

    /** `RemoveSession`: deletes the entry if there is one. */
    method RemoveSession(sessionID: string)
      modifies this
      ensures sessions == old(sessions) - {sessionID}
    {
      sessions := sessions - {sessionID};
    }

    /**
     * One pass of `cleanupExpiredSessions`: visits every entry once and deletes
     * the ones expired at `now`, leaving the others untouched.
     */
    method SweepExpired(now: int)
      modifies this
      ensures sessions == Unexpired(old(sessions), now)
    {
      var pending := sessions.Keys;
      ghost var start := sessions;
      while pending != {}
        invariant pending <= start.Keys
        invariant sessions.Keys <= start.Keys
        invariant forall id :: id in sessions ==> sessions[id] == start[id]
        invariant forall id :: id in pending ==> id in sessions
        invariant forall id :: id in start && id !in pending ==> (id in sessions <==> !Expired(start[id], now))
        decreases pending
      {
        var id :| id in pending;
        if now > sessions[id].expiresAt {
          sessions := sessions - {id};
        }
        pending := pending - {id};
      }
    }
  }

  /** Removing a session twice is the same as removing it once. */
  lemma RemoveIdempotent(m: map<string, Session>, id: string)
    ensures (m - {id}) - {id} == m - {id}
  {
  }

  /** A sweep at `now` leaves nothing that validation at `now` would delete or reject. */
  lemma SweptTableValidates(m: map<string, Session>, now: int, id: string)
    ensures id in Unexpired(m, now) <==> id in m && !Expired(m[id], now)
    ensures id in Unexpired(m, now) ==> !Expired(Unexpired(m, now)[id], now)
  {
  }

  /** A session created at `t` is valid exactly until `t` plus 24 hours, that instant included. */
  lemma FreshSessionLifetime(userID: string, t: int, now: int)
    ensures !Expired(Session(userID, t, t + SessionLifetime), now) <==> now <= t + 86_400_000_000_000
  {
  }

  // The access decision of `AuthMiddleware`.

  /** The cookie a rejected request gets: `sessionID` emptied, path "/", HTTP-only, expiring at the Unix epoch. */
  datatype Cookie = Cookie(name: string, value: string, path: string, httpOnly: bool, expires: int)

  function ClearedCookie(): Cookie
  {
    Cookie("sessionID", "", "/", true, 0)
  }

  datatype Outcome =
    | PassThrough                                        // the next handler serves the request
    | Unauthorized(cookie: Cookie, contentType: string, body: string)   // 401
    | SeeOther(cookie: Cookie, location: string)        // 303

  /** The login page and the login API, which need no session. */
  predicate Exempt(path: string)
  {
    path == "/login.html" || HasPrefix(path, "/api/login")
  }

  /**
   * Whether the request's cookie is checked against the session table: only for
   * a non-exempt path with a non-empty `sessionID` cookie.
   */
  predicate NeedsValidation(path: string, cookie: Option<string>)
  {
    !Exempt(path) && cookie.Some? && cookie.value != ""
  }

  /**
   * The middleware's decision for a request to `path` carrying `cookie` (the
   * `sessionID` cookie's value, if sent), where `valid` is what validating that
   * cookie answered; it is consulted only when `NeedsValidation` holds.
   */
  function Decide(path: string, cookie: Option<string>, valid: bool): (o: Outcome)
    ensures Exempt(path) ==> o == PassThrough
    ensures !Exempt(path) ==> (o == PassThrough <==> cookie.Some? && cookie.value != "" && valid)
    ensures o != PassThrough ==> o.cookie == ClearedCookie()
    ensures o.Unauthorized? <==> o != PassThrough && HasPrefix(path, "/api/")
    ensures o.SeeOther? ==> o.location == "/login.html"
    ensures o.Unauthorized? ==> o.contentType == "application/json" && o.body == "{\"error\":\"请先登录\"}"
  {
    if Exempt(path) then PassThrough
    else if cookie.None? || cookie.value == "" || !valid then
      if HasPrefix(path, "/api/") then
        Unauthorized(ClearedCookie(), "application/json", "{\"error\":\"请先登录\"}")
      else SeeOther(ClearedCookie(), "/login.html")
    else PassThrough
  }

  /** Without a validation the answer of the session table does not matter. */
  lemma DecideWithoutValidation(path: string, cookie: Option<string>)
    requires !NeedsValidation(path, cookie)
    ensures Decide(path, cookie, true) == Decide(path, cookie, false)
  {
  }

  /**
   * `AuthMiddleware` against a session table: validates the cookie only when the
   * decision needs it, so an exempt path or a missing or empty cookie leaves the
   * table untouched; a validation removes the cookie's entry when it has expired
   * and changes nothing otherwise.
   */
  method Authorize(sm: SessionManager, path: string, cookie: Option<string>, now: int) returns (o: Outcome)
    modifies sm
    ensures !NeedsValidation(path, cookie) ==> sm.sessions == old(sm.sessions) && o == Decide(path, cookie, false)
    ensures NeedsValidation(path, cookie) ==>
      o == Decide(path, cookie, cookie.value in old(sm.sessions) && !Expired(old(sm.sessions)[cookie.value], now))
    ensures (NeedsValidation(path, cookie) && cookie.value in old(sm.sessions) &&
             Expired(old(sm.sessions)[cookie.value], now)) ==>
      sm.sessions == old(sm.sessions) - {cookie.value}
    ensures (NeedsValidation(path, cookie) &&
             !(cookie.value in old(sm.sessions) && Expired(old(sm.sessions)[cookie.value], now))) ==>
      sm.sessions == old(sm.sessions)
  {
    var valid := false;
    if NeedsValidation(path, cookie) {
      valid := sm.ValidateSession(cookie.value, now);
    }
    o := Decide(path, cookie, valid);
  }
}
