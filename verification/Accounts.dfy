/** Accounts and the identities of several login providers that are bound to them. Each method is one
    database transaction. Row times are not part of this model. */
module Accounts {
  import opened Wrappers
  import opened Text

  datatype Role = Admin | Ordinary
  datatype User = User(email: string, displayName: string, avatarUrl: string, provider: string, sub: string,
                       role: Role, enabled: bool)
  datatype Key = Key(provider: string, subject: string)
  datatype Identity = Identity(userId: nat, email: string)
  datatype Tables = Tables(users: map<nat, User>, identities: map<Key, Identity>, passwords: map<nat, string>, nextId: nat)
  datatype Error = NotFound | DuplicateKey
  datatype Login = Login(id: nat, user: User)

  const EMPTY := Tables(map[], map[], map[], 1)

  // ----- Queries -----

  /** The unique key of the user table. */
  predicate TakenKey(users: map<nat, User>, provider: string, sub: string) {
    exists id :: id in users && HasKey(users, id, provider, sub)
  }

  predicate HasEmail(users: map<nat, User>, id: nat, email: string, adminsOnly: bool) {
    id in users && users[id].email == email && (adminsOnly ==> users[id].role == Admin)
  }

  /** The lowest id in [from, end) whose account has this email, of administrators only if asked. */
  function Lowest(users: map<nat, User>, email: string, adminsOnly: bool, from: nat, end: nat): (r: Option<nat>)
    ensures r.Some? ==> from <= r.value < end && HasEmail(users, r.value, email, adminsOnly)
                        && forall id: nat :: from <= id < r.value ==> !HasEmail(users, id, email, adminsOnly)
    ensures r.None? ==> forall id: nat :: from <= id < end ==> !HasEmail(users, id, email, adminsOnly)
    decreases end - from
  {
    if from >= end then None
    else if HasEmail(users, from, email, adminsOnly) then Some(from)
    else Lowest(users, email, adminsOnly, from + 1, end)
  }

  /** ORDER BY administrator first, then id; LIMIT 1. */
  function PickByEmail(t: Tables, email: string): Option<nat> {
    var admin := Lowest(t.users, email, true, 0, t.nextId);
    if admin.Some? then admin else Lowest(t.users, email, false, 0, t.nextId)
  }

  /** The profile update that follows every identity login. */
  function UpdatedProfile(u: User, provider: string, email: string, displayName: string, avatarUrl: string): User {
    u.(email := email,
       displayName := if provider == "email_code" && !Blank(u.displayName) then u.displayName
                      else if displayName == "" then u.displayName else displayName,
       avatarUrl := if avatarUrl == "" then u.avatarUrl else avatarUrl)
  }

  function ResolvedName(displayName: string, email: string): string {
    if Trim(displayName) == "" then email else Trim(displayName)
  }

  // ----- Transactions as functions of the tables -----

  /** The account an identity login lands on, with the tables after the account and identity rows exist. */
  function Bind(t: Tables, key: Key, email: string, displayName: string, avatarUrl: string): Result<(Tables, nat), Error> {
    if key in t.identities then
      Ok((t, t.identities[key].userId))
    else
      var found := PickByEmail(t, email);
      if found.Some? then
        Ok((t.(identities := t.identities[key := Identity(found.value, email)]), found.value))
      else if TakenKey(t.users, key.provider, key.subject) then
        Err(DuplicateKey)
      else
        var user := User(email, displayName, avatarUrl, key.provider, key.subject, Ordinary, true);
        Ok((t.(users := t.users[t.nextId := user], nextId := t.nextId + 1,
               identities := t.identities[key := Identity(t.nextId, email)]), t.nextId))
  }

  function UpsertIdentity(t: Tables, provider: string, subject: string, email: string, displayName: string, avatarUrl: string)
    : (Tables, Result<Login, Error>)
  {
    var key, address := Key(Trim(provider), Trim(subject)), NormalizeEmail(email);
    if key.provider == "" || key.subject == "" || !ValidEmail(address) then
      (t, Err(NotFound))
    else
      var name := ResolvedName(displayName, address);
      match Bind(t, key, address, name, avatarUrl)
      case Err(e) => (t, Err(e))
      case Ok((bound, id)) =>
        if id !in bound.users then
          (t, Err(NotFound))
        else
          var user := UpdatedProfile(bound.users[id], key.provider, address, name, avatarUrl);
          (bound.(users := bound.users[id := user],
                  identities := bound.identities[key := bound.identities[key].(email := address)]),
           Ok(Login(id, user)))
  }

  function UpsertGoogle(t: Tables, verified: bool, subject: string, email: string, name: string, picture: string)
    : (Tables, Result<Login, Error>)
  {
    if !verified then (t, Err(NotFound))
    else UpsertIdentity(t, "google", Trim(subject), NormalizeEmail(email), Trim(name), Trim(picture))
  }

  function UpsertEmailCode(t: Tables, email: string): (Tables, Result<Login, Error>) {
    var address := NormalizeEmail(email);
    UpsertIdentity(t, "email_code", address, address, address, "")
  }

  predicate HasKey(users: map<nat, User>, id: nat, provider: string, sub: string) {
    id in users && users[id].provider == provider && users[id].sub == sub
  }

  /** The first row in [from, end) with this unique key. */
  function RowOf(users: map<nat, User>, provider: string, sub: string, from: nat, end: nat): (r: Option<nat>)
    ensures r.Some? ==> from <= r.value < end && HasKey(users, r.value, provider, sub)
    ensures r.None? ==> forall id: nat :: from <= id < end ==> !HasKey(users, id, provider, sub)
    decreases end - from
  {
    if from >= end then None
    else if HasKey(users, from, provider, sub) then Some(from)
    else RowOf(users, provider, sub, from + 1, end)
  }

  function UpsertAuthentik(t: Tables, subject: string, email: string, name: string, username: string, picture: string)
    : (Tables, Result<Login, Error>)
  {
    var sub, address := Trim(subject), NormalizeEmail(email);
    if sub == "" || !ValidEmail(address) then
      (t, Err(NotFound))
    else
      var display := if Trim(name) != "" then Trim(name) else ResolvedName(username, address);
      match RowOf(t.users, "authentik", sub, 0, t.nextId)
      case Some(id) =>
        var user := t.users[id].(email := address, displayName := display, avatarUrl := Trim(picture));
        (t.(users := t.users[id := user]), Ok(Login(id, user)))
      case None =>
        var user := User(address, display, Trim(picture), "authentik", sub, Ordinary, true);
        (t.(users := t.users[t.nextId := user], nextId := t.nextId + 1), Ok(Login(t.nextId, user)))
  }

  /** The administrator account of the configuration; its password is set once and then kept. */
  function Bootstrap(t: Tables, email: string, passwordHash: string): Tables {
    var address := NormalizeEmail(email);
    match RowOf(t.users, "local", address, 0, t.nextId)
    case Some(id) =>
      t.(users := t.users[id := t.users[id].(role := Admin)],
         passwords := if id in t.passwords then t.passwords else t.passwords[id := passwordHash])
    case None =>
      var user := User(address, address, "", "local", address, Admin, true);
      t.(users := t.users[t.nextId := user], nextId := t.nextId + 1,
         passwords := if t.nextId in t.passwords then t.passwords else t.passwords[t.nextId := passwordHash])
  }

  // ----- The store -----

  class AccountStore {
    var users: map<nat, User>
    var identities: map<Key, Identity>
    var passwords: map<nat, string>
    var nextId: nat

    ghost function View(): Tables
      reads this
    {
      Tables(users, identities, passwords, nextId)
    }

    constructor ()
      ensures View() == EMPTY
    {
      users, identities, passwords, nextId := map[], map[], map[], 1;
    }

    method EnsureAdmin(email: string, passwordHash: string)
      modifies this
      ensures View() == Bootstrap(old(View()), email, passwordHash)
    {
      var address := NormalizeEmail(email);
      var row := RowOf(users, "local", address, 0, nextId);
      var id := nextId;
      if row.Some? {
        id := row.value;
        users := users[id := users[id].(role := Admin)];
      } else {
        users := users[id := User(address, address, "", "local", address, Admin, true)];
        nextId := nextId + 1;
      }
      if id !in passwords {
        passwords := passwords[id := passwordHash];
      }
    }

    method UpsertAuthentikUser(subject: string, email: string, name: string, username: string, picture: string)
      returns (r: Result<Login, Error>)
      modifies this
      ensures (View(), r) == UpsertAuthentik(old(View()), subject, email, name, username, picture)
    {
      var sub, address := Trim(subject), NormalizeEmail(email);
      if sub == "" || !ValidEmail(address) {
        return Err(NotFound);
      }
      var display := Trim(name);
      if display == "" {
        display := Trim(username);
      }
      if display == "" {
        display := address;
      }
      var row := RowOf(users, "authentik", sub, 0, nextId);
      var id := nextId;
      if row.Some? {
        id := row.value;
        users := users[id := users[id].(email := address, displayName := display, avatarUrl := Trim(picture))];
      } else {
        users := users[id := User(address, display, Trim(picture), "authentik", sub, Ordinary, true)];
        nextId := nextId + 1;
      }
      return Ok(Login(id, users[id]));
    }

    method UpsertGoogleUser(verified: bool, subject: string, email: string, name: string, picture: string)
      returns (r: Result<Login, Error>)
      modifies this
      ensures (View(), r) == UpsertGoogle(old(View()), verified, subject, email, name, picture)
    {
      if !verified {
        return Err(NotFound);
      }
      r := UpsertIdentityUser("google", Trim(subject), NormalizeEmail(email), Trim(name), Trim(picture));
    }

    method UpsertEmailCodeUser(email: string) returns (r: Result<Login, Error>)
      modifies this
      ensures (View(), r) == UpsertEmailCode(old(View()), email)
    {
      var address := NormalizeEmail(email);
      r := UpsertIdentityUser("email_code", address, address, address, "");
    }

    /** Rows are changed in local copies, which stand for the transaction; an early return rolls them back. */
    method UpsertIdentityUser(provider: string, subject: string, email: string, displayName: string, avatarUrl: string)
      returns (r: Result<Login, Error>)
      modifies this
      ensures (View(), r) == UpsertIdentity(old(View()), provider, subject, email, displayName, avatarUrl)
    {
      var key, address := Key(Trim(provider), Trim(subject)), NormalizeEmail(email);
      if key.provider == "" || key.subject == "" || !ValidEmail(address) {
        return Err(NotFound);
      }
      var name := Trim(displayName);
      if name == "" {
        name := address;
      }
      var users', identities', nextId' := users, identities, nextId;
      var id: nat;
      if key in identities' {
        id := identities'[key].userId;
      } else {
        var found := Lowest(users', address, true, 0, nextId');
        if found.None? {
          found := Lowest(users', address, false, 0, nextId');
        }
        if found.Some? {
          id := found.value;
        } else {
          if TakenKey(users', key.provider, key.subject) {
            return Err(DuplicateKey);
          }
          id := nextId';
          users' := users'[id := User(address, name, avatarUrl, key.provider, key.subject, Ordinary, true)];
          nextId' := nextId' + 1;
        }
        identities' := identities'[key := Identity(id, address)];
      }
      if id !in users' {
        return Err(NotFound);
      }
      users' := users'[id := UpdatedProfile(users'[id], key.provider, address, name, avatarUrl)];
      identities' := identities'[key := identities'[key].(email := address)];
      users, identities, nextId := users', identities', nextId';
      return Ok(Login(id, users'[id]));
    }
  }
}
