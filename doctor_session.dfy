/** The login session document (`DoctorSession` model) and its TTL index. */
module DoctorSessionSchema {
  import opened Common

  /** Times are milliseconds since the epoch, as `Date` stores them. */
  datatype Session = Session(id: Id, token: string, doctorId: Id, createdAt: int, expiresAt: int)

  /** The session table keyed by token: the unique index on `token`.
      `token` and the other required fields are present in every stored session. */
  predicate WellKeyed(sessions: map<string, Session>) {
    forall t :: t in sessions ==> sessions[t].token == t && t != ""
  }

  predicate UniqueSessionIds(sessions: map<string, Session>) {
    forall s, t :: s in sessions && t in sessions && s != t ==> sessions[s].id != sessions[t].id
  }

  /** The comparison the guard makes: `expiresAt < now`. */
  predicate Expired(s: Session, now: int) {
    s.expiresAt < now
  }

  const DefaultTtlHours: nat := 48

  /** `Number(process.env.SESSION_TTL_HOURS || 48)`, where `None` stands for an
      unset or empty variable. */
  function TtlHours(setting: Option<nat>): (h: nat)
    ensures setting.None? ==> h == DefaultTtlHours
    ensures setting.Some? ==> h == setting.value
  {
    match setting
    case None => DefaultTtlHours
    case Some(h) => h
  }

  /** `Date.now() + ttlHours * 3600 * 1000`. */
  function ExpiryFor(now: int, ttlHours: nat): (t: int)
    ensures t >= now
    ensures t - now == ttlHours * 3_600_000
  {
    now + ttlHours * 3600 * 1000
  }

  /** What the TTL index (`expireAfterSeconds: 0`) leaves behind when the store
      purges at time `now`: exactly the sessions that have not expired. */
  function Reaped(sessions: map<string, Session>, now: int): (r: map<string, Session>)
    ensures r.Keys <= sessions.Keys
    ensures forall t :: t in r ==> r[t] == sessions[t]
    ensures forall t :: t in sessions ==> (t in r <==> !Expired(sessions[t], now))
  {
    map t | t in sessions && !Expired(sessions[t], now) :: sessions[t]
  }

  /** `deleteOne({ _id: id })`: the sessions whose id differs from `id`. */
  function WithoutId(sessions: map<string, Session>, id: Id): (r: map<string, Session>)
    ensures r.Keys <= sessions.Keys
    ensures forall t :: t in r ==> r[t] == sessions[t]
    ensures forall t :: t in sessions ==> (t in r <==> sessions[t].id != id)
  {
    map t | t in sessions && sessions[t].id != id :: sessions[t]
  }
}
