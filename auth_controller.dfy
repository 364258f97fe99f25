/** The account handlers `register`, `login`, `logout` and `getMe`, over the
    account and session collections. */
module AuthController {
  import opened Common
  import opened Text
  import opened DoctorSchema
  import opened DoctorSessionSchema
  import opened SessionAuth

  /** The `user` object of the register and login replies. */
  datatype PublicUser = PublicUser(id: Id, username: string, fullName: Option<string>)

  /** The body of a successful login reply. */
  datatype LoginBody = LoginBody(token: string, user: PublicUser)

  /** The `user` object of the `getMe` reply. */
  datatype Profile = Profile(id: Id, username: string, fullName: Option<string>, mobile: Option<string>, email: Option<string>)

  /** The register and login replies carry `_id`, `username` and `fullName`,
      and so never the password digest. */
  function PublicView(d: Doctor): (u: PublicUser)
    ensures u.id == d.id && u.username == d.username && u.fullName == d.fullName
  {
    PublicUser(d.id, d.username, d.fullName)
  }

  function ProfileOf(d: Doctor): (p: Profile)
    ensures p.id == d.id && p.username == d.username && p.fullName == d.fullName
    ensures p.mobile == d.mobile && p.email == d.email
  {
    Profile(d.id, d.username, d.fullName, d.mobile, d.email)
  }

  /** `getMe` as written: it answers from `req.user`. */
  function GetMe(ctx: Context): (r: Reply<Profile>)
    ensures r.Failure? <==> ctx.user.None?
    ensures r.Failure? ==> r == Failure(401, "not authenticated")
    ensures r.Success? ==> r == Success(200, ProfileOf(ctx.user.value))
  {
    if ctx.user.None? then Failure(401, "not authenticated")
    else Success(200, ProfileOf(ctx.user.value))
  }

  /** The guard sets `req.session` and `req.doctor` but never `req.user`, so
      `getMe` as written refuses every request the guard has let through. */
  lemma GetMeRefusesGuardedRequests(accounts: map<Id, Doctor>, sessions: map<string, Session>, token: Option<string>, now: int)
    requires Authenticate(accounts, sessions, token, now).Success?
    ensures GetMe(Attach(Authenticate(accounts, sessions, token, now).value)) == Failure(401, "not authenticated")
  {
  }

  /** `getMe` reading the account the guard attached, as `req.doctor`. */
  function GetMeFromDoctor(ctx: Context): (r: Reply<Profile>)
    ensures r.Failure? <==> ctx.doctor.None?
    ensures r.Failure? ==> r == Failure(401, "not authenticated")
    ensures r.Success? ==> r == Success(200, ProfileOf(ctx.doctor.value))
  {
    if ctx.doctor.None? then Failure(401, "not authenticated")
    else Success(200, ProfileOf(ctx.doctor.value))
  }

  /** Behind the guard, the corrected `getMe` answers with the profile of the
      account that owns the presented session. */
  lemma GetMeFromDoctorAnswersGuardedRequests(accounts: map<Id, Doctor>, sessions: map<string, Session>, token: Option<string>, now: int)
    requires Authenticate(accounts, sessions, token, now).Success?
    ensures token.Some? && token.value in sessions && sessions[token.value].doctorId in accounts
    ensures GetMeFromDoctor(Attach(Authenticate(accounts, sessions, token, now).value))
      == Success(200, ProfileOf(accounts[sessions[token.value].doctorId]))
  {
  }

  /** After a logout by token, the guard refuses that token. */
  lemma LoggedOutTokenRefused(accounts: map<Id, Doctor>, sessions: map<string, Session>, token: string, now: int)
    ensures Authenticate(accounts, sessions - {token}, Some(token), now).Failure?
  {
  }

  /** After a logout by session id, the guard refuses the token of that session. */
  lemma LoggedOutSessionRefused(accounts: map<Id, Doctor>, sessions: map<string, Session>, token: string, now: int)
    requires token in sessions
    ensures Authenticate(accounts, WithoutId(sessions, sessions[token].id), Some(token), now).Failure?
  {
  }

  /** Once a username is taken, every spelling of it in other letter case
      and with whitespace around it is taken too, so `register` answers 409
      for all of them. */
  lemma OtherSpellingTaken(accounts: map<Id, Doctor>, x: string, y: string, p: string, q: string)
    requires Taken(accounts, Normalize(x))
    requires |x| == |y| && forall i :: 0 <= i < |x| ==> LowerChar(x[i]) == LowerChar(y[i])
    requires AllSpace(p) && AllSpace(q)
    ensures Taken(accounts, Normalize(p + y + q))
  {
    NormalizeIgnoresCase(x, y);
    NormalizeIgnoresOuterSpace(p, y, q);
  }

  /** Account documents keyed by their `_id`, every `_id` handed out, and
      every document as the schema stores it. */
  ghost predicate AccountsKeyed(accounts: map<Id, Doctor>, nextId: Id) {
    forall k :: k in accounts ==> accounts[k].id == k && k < nextId && WellFormed(accounts[k])
  }

  /** The account table's invariant: keyed documents, unique usernames. */
  ghost predicate AccountsValid(accounts: map<Id, Doctor>, nextId: Id) {
    AccountsKeyed(accounts, nextId) && UniqueUsernames(accounts)
  }

  /** The session table's invariant: keyed by token, `_id`s unique and handed out. */
  ghost predicate SessionsValid(sessions: map<string, Session>, nextId: Id) {
    && WellKeyed(sessions) && UniqueSessionIds(sessions)
    && (forall t :: t in sessions ==> sessions[t].id < nextId)
  }

  lemma AddAccountKeepsKeyed(accounts: map<Id, Doctor>, nextId: Id, d: Doctor)
    requires AccountsKeyed(accounts, nextId)
    requires d.id == nextId && WellFormed(d)
    ensures AccountsKeyed(accounts[nextId := d], nextId + 1)
  {
  }

  lemma AddAccountKeepsUnique(accounts: map<Id, Doctor>, nextId: Id, d: Doctor)
    requires forall k :: k in accounts ==> k < nextId
    requires UniqueUsernames(accounts) && !Taken(accounts, d.username)
    ensures UniqueUsernames(accounts[nextId := d])
  {
  }

  lemma AddAccountKeepsValid(accounts: map<Id, Doctor>, nextId: Id, d: Doctor)
    requires AccountsValid(accounts, nextId)
    requires d.id == nextId && WellFormed(d) && !Taken(accounts, d.username)
    ensures nextId !in accounts
    ensures AccountsValid(accounts[nextId := d], nextId + 1)
  {
    AddAccountKeepsKeyed(accounts, nextId, d);
    assert forall k :: k in accounts ==> k < nextId;
    AddAccountKeepsUnique(accounts, nextId, d);
  }

  lemma AddSessionKeepsValid(sessions: map<string, Session>, nextId: Id, s: Session)
    requires SessionsValid(sessions, nextId)
    requires s.id == nextId && s.token != "" && s.token !in sessions
    ensures SessionsValid(sessions[s.token := s], nextId + 1)
  {
  }

  /** Handing out an `_id` to something other than an account keeps the account table valid. */
  lemma BumpKeepsAccountsValid(accounts: map<Id, Doctor>, nextId: Id)
    requires AccountsValid(accounts, nextId)
    ensures AccountsValid(accounts, nextId + 1)
  {
  }

  lemma RemoveSessionsKeepsValid(sessions: map<string, Session>, nextId: Id, rest: map<string, Session>)
    requires SessionsValid(sessions, nextId)
    requires rest.Keys <= sessions.Keys && forall t :: t in rest ==> rest[t] == sessions[t]
    ensures SessionsValid(rest, nextId)
  {
  }

  /** The account and session collections. */
  class AuthStore {
    var accounts: map<Id, Doctor>
    var sessions: map<string, Session>
    var nextId: Id

    ghost predicate Valid()
      reads this
    {
      AccountsValid(accounts, nextId) && SessionsValid(sessions, nextId)
    }

    constructor ()
      ensures Valid()
      ensures accounts == map[] && sessions == map[]
    {
      accounts, sessions, nextId := map[], map[], 0;
    }

    /** `register`. `hash` is bcrypt's digest of the password. Creating the
        account fails schema validation (500) when a required field is empty. */
    method Register(username: Option<string>, password: Option<string>, fullName: Option<string>,
                    mobile: Option<string>, hash: string -> string) returns (r: Reply<PublicUser>)
      requires Valid()
      modifies this
      ensures Valid()
      ensures sessions == old(sessions)
      ensures r.Failure? ==> accounts == old(accounts)
      ensures !Truthy(username) || !Truthy(password) ==> r == Failure(400, "username and password required")
      ensures Truthy(username) && Truthy(password) ==>
        var u := Normalize(username.value);
        && (Taken(old(accounts), u) ==> r == Failure(409, "username taken"))
        && (!Taken(old(accounts), u) && (u == "" || hash(password.value) == "") ==> r == Failure(500, "server error"))
        && (!Taken(old(accounts), u) && u != "" && hash(password.value) != "" ==>
              var d := Doctor(old(nextId), u, hash(password.value), Some(OrEmpty(fullName)), Some(OrEmpty(mobile)), None);
              && old(nextId) !in old(accounts)
              && accounts == old(accounts)[old(nextId) := d]
              && r == Success(201, PublicView(d)))
    {
      if !Truthy(username) || !Truthy(password) {
        return Failure(400, "username and password required");
      }
      var u := Normalize(username.value);
      if Taken(accounts, u) {
        return Failure(409, "username taken");
      }
      var digest := hash(password.value);
      if u == "" || digest == "" {
        return Failure(500, "server error");
      }
      var d := Doctor(nextId, u, digest, Some(OrEmpty(fullName)), Some(OrEmpty(mobile)), None);
      AddAccountKeepsValid(accounts, nextId, d);
      assert SessionsValid(sessions, nextId + 1);
      accounts := accounts[nextId := d];
      nextId := nextId + 1;
      r := Success(201, PublicView(d));
    }

    /** `login`. `verify` is bcrypt's comparison, `token` the fresh uuid,
        `now` the clock and `ttlSetting` the `SESSION_TTL_HOURS` setting. A
        token that is empty or already stored fails the session schema (500). */
    method Login(username: Option<string>, password: Option<string>, verify: (string, string) -> bool,
                 token: string, now: int, ttlSetting: Option<nat>) returns (r: Reply<LoginBody>)
      requires Valid()
      modifies this
      ensures Valid()
      ensures accounts == old(accounts)
      ensures r.Failure? ==> sessions == old(sessions)
      ensures !Truthy(username) || !Truthy(password) ==> r == Failure(400, "username and password required")
      ensures Truthy(username) && Truthy(password) ==>
        var found := FindByUsername(old(accounts), Normalize(username.value));
        && (found.None? ==> r == Failure(401, "User not found"))
        && (found.Some? && !verify(password.value, found.value.passwordHash) ==> r == Failure(401, "Incorrect password"))
        && (found.Some? && verify(password.value, found.value.passwordHash) ==>
              if token == "" || token in old(sessions) then r == Failure(500, "server error")
              else
                var s := Session(old(nextId), token, found.value.id, now, ExpiryFor(now, TtlHours(ttlSetting)));
                && sessions == old(sessions)[token := s]
                && r == Success(200, LoginBody(token, PublicView(found.value))))
    {
      if !Truthy(username) || !Truthy(password) {
        return Failure(400, "username and password required");
      }
      var found := FindByUsername(accounts, Normalize(username.value));
      if found.None? {
        return Failure(401, "User not found");
      }
      var doctor := found.value;
      if !verify(password.value, doctor.passwordHash) {
        return Failure(401, "Incorrect password");
      }
      if token == "" || token in sessions {
        return Failure(500, "server error");
      }
      var expiresAt := ExpiryFor(now, TtlHours(ttlSetting));
      var session := Session(nextId, token, doctor.id, now, expiresAt);
      AddSessionKeepsValid(sessions, nextId, session);
      BumpKeepsAccountsValid(accounts, nextId);
      sessions := sessions[token := session];
      nextId := nextId + 1;
      r := Success(200, LoginBody(token, PublicView(doctor)));
    }

    /** `logout`: by the guard's session when there is one, otherwise by the
        `x-session-token` header. Deleting nothing is still a success. */
    method Logout(ctx: Context, headerToken: Option<string>) returns (r: Reply<()>)
      requires Valid()
      modifies this
      ensures Valid()
      ensures accounts == old(accounts)
      ensures ctx.session.Some? ==> r == Success(200, ()) && sessions == WithoutId(old(sessions), ctx.session.value.id)
      ensures ctx.session.None? && !Truthy(headerToken) ==>
        r == Failure(400, "missing session token") && sessions == old(sessions)
      ensures ctx.session.None? && Truthy(headerToken) ==>
        r == Success(200, ()) && sessions == old(sessions) - {headerToken.value}
    {
      if ctx.session.Some? {
        RemoveSessionsKeepsValid(sessions, nextId, WithoutId(sessions, ctx.session.value.id));
        sessions := WithoutId(sessions, ctx.session.value.id);
        return Success(200, ());
      }
      if !Truthy(headerToken) {
        return Failure(400, "missing session token");
      }
      RemoveSessionsKeepsValid(sessions, nextId, sessions - {headerToken.value});
      sessions := sessions - {headerToken.value};
      r := Success(200, ());
    }

    /** The TTL monitor's purge at time `now`: only expired sessions go. */
    method ReapExpired(now: int)
      requires Valid()
      modifies this
      ensures Valid()
      ensures accounts == old(accounts)
      ensures sessions == Reaped(old(sessions), now)
    {
      RemoveSessionsKeepsValid(sessions, nextId, Reaped(sessions, now));
      sessions := Reaped(sessions, now);
    }
  }
}
