/** Client code that drives the stores through the documented request
    sequences, relying only on the handlers' contracts. */
module Scenarios {
  import opened Common
  import opened Text
  import opened DoctorSchema
  import opened SessionAuth
  import opened AuthController
  import AppointmentSchema
  import AppointmentController

  /** "dr_amit" is stored as given, and " DR_Amit " names the same account. */
  lemma SameUsername()
    ensures Normalize("dr_amit") == "dr_amit"
    ensures Normalize(" DR_Amit ") == "dr_amit"
  {
    assert IsLowerCase("dr_amit") && Trimmed("dr_amit");
    NormalizedIff("dr_amit");
    var lowered := Lower(" DR_Amit ");
    assert lowered == " dr_amit " by {
      assert lowered[1] == 'd' && lowered[2] == 'r' && lowered[5] == 'm';
    }
    assert TrimStart(" dr_amit ") == "dr_amit " by {
      assert IsSpace(' ') && !IsSpace('d');
      assert " dr_amit "[1..] == "dr_amit ";
    }
    assert TrimEnd("dr_amit ") == "dr_amit" by {
      assert "dr_amit "[..7] == "dr_amit";
    }
  }

  /** Register `name` in an empty store. */
  method RegisterFirst(hash: string -> string, name: string, password: string)
    returns (store: AuthStore, id: Id)
    requires hash(password) != "" && password != ""
    requires name != "" && Normalize(name) == name
    ensures fresh(store) && store.Valid() && store.sessions == map[]
    ensures id in store.accounts && store.accounts[id].username == name
    ensures store.accounts[id].passwordHash == hash(password)
  {
    store := new AuthStore();
    var registered := store.Register(Some(name), Some(password), None, None, hash);
    assert registered.Success? && registered.code == 201 && registered.value.username == name;
    id := registered.value.id;
  }

  /** With `name` registered, a second registration under `spelling`,
      another way of writing the same name (as `SameUsername` shows for
      "dr_amit" and " DR_Amit "), is refused and changes nothing. */
  method RegisterAgain(store: AuthStore, id: Id, hash: string -> string, name: string, spelling: string)
    requires store.Valid()
    requires id in store.accounts && store.accounts[id].username == name
    requires spelling != "" && Normalize(spelling) == name
    modifies store
    ensures store.Valid() && store.accounts == old(store.accounts) && store.sessions == old(store.sessions)
  {
    assert Taken(store.accounts, Normalize(spelling));
    var again := store.Register(Some(spelling), Some("other"), None, None, hash);
    assert again == Failure(409, "username taken");
  }

  /** With `name` registered: a wrong password is refused, the right one
      opens a session under `token` that lasts the default 48 hours, and the
      guard lets that token through. `verify` accepts exactly the password a
      digest was made from. */
  method LogIn(store: AuthStore, id: Id, hash: string -> string, verify: (string, string) -> bool,
               name: string, password: string, wrong: string, token: string, now: int)
    requires store.Valid()
    requires forall p, q :: verify(p, hash(q)) <==> p == q
    requires id in store.accounts && store.accounts[id].username == name
    requires store.accounts[id].passwordHash == hash(password) && wrong != password
    requires name != "" && password != "" && wrong != ""
    requires Normalize(name) == name && token != "" && token !in store.sessions
    modifies store
    ensures store.Valid() && store.accounts == old(store.accounts)
    ensures token in store.sessions && store.sessions == old(store.sessions)[token := store.sessions[token]]
    ensures Authenticate(store.accounts, store.sessions, Some(token), now) == Success(200, Guarded(store.sessions[token], store.accounts[id]))
  {
    assert FindByUsername(store.accounts, name) == Some(store.accounts[id]);

    var refused := store.Login(Some(name), Some(wrong), verify, token, now, None);
    assert refused == Failure(401, "Incorrect password");

    var ok := store.Login(Some(name), Some(password), verify, token, now, None);
    assert ok.Success? && ok.value.token == token && ok.value.user.username == name;
    assert store.sessions[token].expiresAt == now + 48 * 3_600_000;
    assert store.sessions[token].doctorId == id;
  }

  /** Logging out by the header token ends the session: the guard refuses
      the token afterwards, and logging out again is still a success. */
  method LogOut(store: AuthStore, token: string, now: int)
    requires store.Valid() && token != ""
    modifies store
    ensures store.Valid() && store.accounts == old(store.accounts)
    ensures store.sessions == old(store.sessions) - {token}
  {
    var out := store.Logout(Context(None, None, None), Some(token));
    assert out == Success(200, ());
    assert Authenticate(store.accounts, store.sessions, Some(token), now) == Failure(401, "invalid session");

    var twice := store.Logout(Context(None, None, None), Some(token));
    assert twice == Success(200, ());
    assert store.sessions == old(store.sessions) - {token};
  }

  /** The whole sequence for "dr_amit", registered again as " DR_Amit ". */
  method AccountLifecycle(hash: string -> string, verify: (string, string) -> bool, now: int)
    requires forall p :: hash(p) != ""
    requires forall p, q :: verify(p, hash(q)) <==> p == q
  {
    SameUsername();
    var store, id := RegisterFirst(hash, "dr_amit", "secret123");
    RegisterAgain(store, id, hash, "dr_amit", " DR_Amit ");
    LogIn(store, id, hash, verify, "dr_amit", "secret123", "wrong", "t-1", now);
    LogOut(store, "t-1", now);
    assert store.sessions == map[];
  }

  /** A bogus status is refused and leaves the stored status as it was; any
      valid status may follow any other. */
  method AppointmentStatusChanges(userId: Id, now: int) {
    var store := new AppointmentController.AppointmentStore();
    var id := store.Add(userId, None, None, None, None, None, None, None, now);
    assert store.appointments[id].status == AppointmentSchema.Pending;

    var bogus := store.UpdateStatus(id, Some("bogus"));
    assert bogus == Failure(400, "invalid status");
    assert store.appointments[id].status == AppointmentSchema.Pending;

    var done := store.UpdateStatus(id, Some("completed"));
    assert done.Success? && store.appointments[id].status == AppointmentSchema.Completed;

    var back := store.UpdateStatus(id, Some("pending"));
    assert back.Success? && store.appointments[id].status == AppointmentSchema.Pending;

    var missing := store.UpdateStatus(id + 1, Some("pending"));
    assert missing == Failure(404, "appointment not found");
  }
}
