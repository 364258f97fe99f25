/** The practitioner account document (`Doctor` model). */
module DoctorSchema {
  import opened Common
  import opened Text

  datatype Doctor = Doctor(
    id: Id,
    username: string,
    passwordHash: string,
    fullName: Option<string>,
    mobile: Option<string>,
    email: Option<string>)

  /** What the schema enforces on a stored account: `username` required,
      lower-cased and trimmed; `passwordHash` required; `email`, when
      present, lower-cased and trimmed. (A required string may not be empty.) */
  predicate WellFormed(d: Doctor) {
    && d.username != "" && Normalized(d.username)
    && d.passwordHash != ""
    && (d.email.Some? ==> Normalized(d.email.value))
  }

  /** The unique index on `username`. */
  predicate UniqueUsernames(accounts: map<Id, Doctor>) {
    forall a, b :: a in accounts && b in accounts && a != b ==> accounts[a].username != accounts[b].username
  }

  predicate Taken(accounts: map<Id, Doctor>, username: string) {
    exists k :: k in accounts && accounts[k].username == username
  }

  /** `Doctor.findOne({ username })`: the unique index makes the answer unique. */
  function FindByUsername(accounts: map<Id, Doctor>, username: string): (r: Option<Doctor>)
    requires UniqueUsernames(accounts)
    ensures r.None? <==> !Taken(accounts, username)
    ensures forall k :: k in accounts && accounts[k].username == username ==> r == Some(accounts[k])
  {
    if Taken(accounts, username) then
      var k :| k in accounts && accounts[k].username == username;
      Some(accounts[k])
    else None
  }
}
