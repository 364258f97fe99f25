/** The `sessionAuth` middleware: resolves the `x-session-token` header to a
    live session and its account, or answers 401. It only reads the tables. */
module SessionAuth {
  import opened Common
  import opened DoctorSchema
  import opened DoctorSessionSchema

  /** What the guard attaches to the request on success. */
  datatype Guarded = Guarded(session: Session, doctor: Doctor)

  /** The request properties later handlers read: `req.session`,
      `req.doctor` and `req.user`. */
  datatype Context = Context(session: Option<Session>, doctor: Option<Doctor>, user: Option<Doctor>)

  /** The request as the guard leaves it before calling `next()`. */
  function Attach(g: Guarded): (ctx: Context)
    ensures ctx.session == Some(g.session) && ctx.doctor == Some(g.doctor)
    ensures ctx.user.None?
  {
    Context(Some(g.session), Some(g.doctor), None)
  }

  /** A session that the guard lets through at time `now`. */
  predicate Live(accounts: map<Id, Doctor>, sessions: map<string, Session>, token: string, now: int) {
    token != "" && token in sessions && !Expired(sessions[token], now) && sessions[token].doctorId in accounts
  }

  /** The guard: token present, session found, not expired, account found,
      checked in that order; the first failing check names the error. */
  function Authenticate(accounts: map<Id, Doctor>, sessions: map<string, Session>, token: Option<string>, now: int): (r: Reply<Guarded>)
    ensures r.Failure? ==> r.code == 401
    ensures r == Failure(401, "missing session token") <==> !Truthy(token)
    ensures r == Failure(401, "invalid session") <==> Truthy(token) && token.value !in sessions
    ensures r == Failure(401, "session expired") <==>
      Truthy(token) && token.value in sessions && Expired(sessions[token.value], now)
    ensures r == Failure(401, "user not found") <==>
      Truthy(token) && token.value in sessions && !Expired(sessions[token.value], now)
      && sessions[token.value].doctorId !in accounts
    ensures r.Success? <==> token.Some? && Live(accounts, sessions, token.value, now)
    ensures r.Success? ==>
      var s := sessions[token.value];
      r.code == 200 && r.value == Guarded(s, accounts[s.doctorId])
  {
    if !Truthy(token) then Failure(401, "missing session token")
    else if token.value !in sessions then Failure(401, "invalid session")
    else
      var session := sessions[token.value];
      if session.expiresAt < now then Failure(401, "session expired")
      else if session.doctorId !in accounts then Failure(401, "user not found")
      else Success(200, Guarded(session, accounts[session.doctorId]))
  }

  /** A session is accepted at every instant up to and including its
      `expiresAt`, and refused as expired at every later instant. */
  lemma AcceptedUntilExpiry(accounts: map<Id, Doctor>, sessions: map<string, Session>, token: string, now: int)
    requires token != "" && token in sessions && sessions[token].doctorId in accounts
    ensures now <= sessions[token].expiresAt ==> Authenticate(accounts, sessions, Some(token), now).Success?
    ensures now > sessions[token].expiresAt ==>
      Authenticate(accounts, sessions, Some(token), now) == Failure(401, "session expired")
  {
  }

  /** Purging expired sessions at time `reapedAt` never changes whether a
      later request is let through, nor what it resolves to; at most it turns
      "session expired" into "invalid session". */
  lemma ReapingKeepsDecisions(
    accounts: map<Id, Doctor>, sessions: map<string, Session>, token: Option<string>, reapedAt: int, now: int)
    requires reapedAt <= now
    ensures var before := Authenticate(accounts, sessions, token, now);
            var after := Authenticate(accounts, Reaped(sessions, reapedAt), token, now);
            after == before || (before == Failure(401, "session expired") && after == Failure(401, "invalid session"))
  {
    var reaped := Reaped(sessions, reapedAt);
    if Truthy(token) && token.value in sessions {
      var s := sessions[token.value];
      if !Expired(s, now) {
        assert !Expired(s, reapedAt);
        assert token.value in reaped && reaped[token.value] == s;
      } else if token.value in reaped {
        assert reaped[token.value] == s;
      }
    }
  }
}
