/** What holds of the account tables over every interleaving of logins and administrator bootstraps. */
module AccountLaws {
  import opened Wrappers
  import opened Text
  import opened Accounts

  datatype Event =
    | BootstrapAdmin(email: string, passwordHash: string)
    | GoogleLogin(verified: bool, subject: string, email: string, name: string, picture: string)
    | EmailCodeLogin(email: string)
    | AuthentikLogin(subject: string, email: string, name: string, username: string, picture: string)

  function Step(t: Tables, e: Event): Tables {
    match e
    case BootstrapAdmin(email, hash) => Bootstrap(t, email, hash)
    case GoogleLogin(verified, subject, email, name, picture) => UpsertGoogle(t, verified, subject, email, name, picture).0
    case EmailCodeLogin(email) => UpsertEmailCode(t, email).0
    case AuthentikLogin(subject, email, name, username, picture) => UpsertAuthentik(t, subject, email, name, username, picture).0
  }

  function Run(t: Tables, events: seq<Event>): Tables
    decreases |events|
  {
    if events == [] then t else Run(Step(t, events[0]), events[1..])
  }

  /** The providers whose logins go through identity rows. */
  predicate Linked(provider: string) { provider == "google" || provider == "email_code" }

  ghost predicate IdsBelowNext(t: Tables) {
    1 <= t.nextId && forall id :: id in t.users ==> 1 <= id < t.nextId
  }

  ghost predicate UniqueKeys(t: Tables) {
    forall a, b :: a in t.users && b in t.users && t.users[a].provider == t.users[b].provider && t.users[a].sub == t.users[b].sub
                   ==> a == b
  }

  ghost predicate IdentitiesPointToAccounts(t: Tables) {
    forall k :: k in t.identities ==> t.identities[k].userId in t.users
  }

  /** An account created by an identity login has an identity row of its own bound to it. */
  ghost predicate OwnIdentity(t: Tables, id: nat)
    requires id in t.users
  {
    var key := Key(t.users[id].provider, t.users[id].sub);
    key in t.identities && t.identities[key].userId == id
  }

  ghost predicate LinkedAccountsOwnIdentities(t: Tables) {
    forall id :: id in t.users && Linked(t.users[id].provider) ==> OwnIdentity(t, id)
  }

  ghost predicate Inv(t: Tables) {
    && IdsBelowNext(t)
    && UniqueKeys(t)
    && IdentitiesPointToAccounts(t)
    && LinkedAccountsOwnIdentities(t)
  }

  // ----- One identity login -----

  /** The account a login without an identity row is linked to: an administrator with the email if there is one,
      else any account with it, in either case the lowest id. */
  ghost predicate IsChoice(t: Tables, email: string, id: nat) {
    && HasEmail(t.users, id, email, false)
    && ((exists a :: HasEmail(t.users, a, email, true)) ==>
          HasEmail(t.users, id, email, true) && forall a :: HasEmail(t.users, a, email, true) ==> id <= a)
    && ((forall a :: !HasEmail(t.users, a, email, true)) ==> forall a :: HasEmail(t.users, a, email, false) ==> id <= a)
  }

  lemma PickIsChoice(t: Tables, email: string)
    requires IdsBelowNext(t)
    ensures PickByEmail(t, email).Some? ==> IsChoice(t, email, PickByEmail(t, email).value)
    ensures PickByEmail(t, email).None? <==> forall id :: !HasEmail(t.users, id, email, false)
  {}

  lemma LinkedIsTrimmed(provider: string)
    requires Linked(provider)
    ensures Trim(provider) == provider && provider != ""
  {}

  /** t' binds key to account id, leaves every other binding and account alone, and adds at most account id. */
  ghost predicate Links(t: Tables, t': Tables, key: Key, id: nat) {
    && t'.identities.Keys == t.identities.Keys + {key} && t'.identities[key].userId == id
    && (forall k :: k in t.identities && k != key ==> t'.identities[k] == t.identities[k])
    && t'.users.Keys == t.users.Keys + {id}
    && (forall a :: a in t.users && a != id ==> t'.users[a] == t.users[a])
  }

  /** Which account that is. */
  ghost predicate RightAccount(t: Tables, key: Key, email: string, id: nat) {
    && (key in t.identities ==> id == t.identities[key].userId)
    && (key !in t.identities && id in t.users ==> IsChoice(t, email, id))
    && (id !in t.users <==> key !in t.identities && forall a :: !HasEmail(t.users, a, email, false))
    && (id !in t.users ==> id == t.nextId)
  }

  /** A new account is an ordinary, enabled one of this identity; an existing one keeps its role, its enabled flag, its
      provider and its subject. */
  ghost predicate StaysItself(t: Tables, key: Key, id: nat, user: User) {
    if id in t.users then
      user.role == t.users[id].role && user.enabled == t.users[id].enabled
      && user.provider == t.users[id].provider && user.sub == t.users[id].sub
    else user.role == Ordinary && user.enabled && user.provider == key.provider && user.sub == key.subject
  }

  /** Under the invariant the database never refuses the new account or the new identity row. */
  lemma BindSucceeds(t: Tables, key: Key, email: string, name: string, avatarUrl: string)
    requires Inv(t) && Linked(key.provider)
    ensures Bind(t, key, email, name, avatarUrl).Ok?
    ensures var (b, id) := Bind(t, key, email, name, avatarUrl).value; Links(t, b, key, id) && RightAccount(t, key, email, id)
  {
    PickIsChoice(t, email);
    if TakenKey(t.users, key.provider, key.subject) {
      var id :| id in t.users && HasKey(t.users, id, key.provider, key.subject);
      assert OwnIdentity(t, id);
    }
  }

  lemma BindKeepsRights(t: Tables, key: Key, email: string, name: string, avatarUrl: string)
    requires Inv(t) && Linked(key.provider)
    ensures Bind(t, key, email, name, avatarUrl).Ok?
    ensures var (b, id) := Bind(t, key, email, name, avatarUrl).value;
            && b.passwords == t.passwords && id in b.users && StaysItself(t, key, id, b.users[id])
            && b.nextId == if id in t.users then t.nextId else t.nextId + 1
  {
    BindSucceeds(t, key, email, name, avatarUrl);
  }

  lemma BindKeepsInv(t: Tables, key: Key, email: string, name: string, avatarUrl: string)
    requires Inv(t) && Linked(key.provider)
    ensures Bind(t, key, email, name, avatarUrl).Ok?
    ensures Inv(Bind(t, key, email, name, avatarUrl).value.0)
  {
    BindSucceeds(t, key, email, name, avatarUrl);
    var (b, id) := Bind(t, key, email, name, avatarUrl).value;
    forall a | a in b.users && Linked(b.users[a].provider) ensures OwnIdentity(b, a) {
      if a in t.users {
        assert OwnIdentity(t, a);
      }
    }
  }

  function WithProfile(t: Tables, key: Key, id: nat, user: User, address: string): Tables
    requires key in t.identities
  {
    t.(users := t.users[id := user], identities := t.identities[key := t.identities[key].(email := address)])
  }

  lemma ProfileKeepsLinks(t: Tables, b: Tables, key: Key, id: nat, user: User, address: string)
    requires Links(t, b, key, id)
    ensures Links(t, WithProfile(b, key, id, user, address), key, id)
  {}

  lemma ProfileKeepsInv(t: Tables, key: Key, id: nat, user: User, address: string)
    requires Inv(t) && id in t.users && key in t.identities
    requires user.provider == t.users[id].provider && user.sub == t.users[id].sub
    ensures Inv(WithProfile(t, key, id, user, address))
  {}

  /** Everything an accepted login does: it binds the identity to the right account, changes no other account, no
      password and nobody's rights, and keeps the invariant. */
  ghost predicate LoginDone(t: Tables, t': Tables, key: Key, address: string, login: Login) {
    && Inv(t')
    && Links(t, t', key, login.id)
    && RightAccount(t, key, address, login.id)
    && t'.identities[key].email == address
    && t'.users[login.id] == login.user
    && t'.passwords == t.passwords && StaysItself(t, key, login.id, login.user)
    && t'.nextId == (if login.id in t.users then t.nextId else t.nextId + 1)
  }

  lemma BoundLogin(t: Tables, key: Key, address: string, resolved: string, avatarUrl: string) returns (t': Tables, login: Login)
    requires Inv(t) && Linked(key.provider)
    ensures LoginDone(t, t', key, address, login)
    ensures Bind(t, key, address, resolved, avatarUrl).Ok?
    ensures var (b, id) := Bind(t, key, address, resolved, avatarUrl).value;
            && id in b.users && key in b.identities
            && login == Login(id, UpdatedProfile(b.users[id], key.provider, address, resolved, avatarUrl))
            && t' == WithProfile(b, key, id, login.user, address)
  {
    BindSucceeds(t, key, address, resolved, avatarUrl);
    BindKeepsInv(t, key, address, resolved, avatarUrl);
    BindKeepsRights(t, key, address, resolved, avatarUrl);
    var (b, id) := Bind(t, key, address, resolved, avatarUrl).value;
    login := Login(id, UpdatedProfile(b.users[id], key.provider, address, resolved, avatarUrl));
    ProfileKeepsInv(b, key, id, login.user, address);
    ProfileKeepsLinks(t, b, key, id, login.user, address);
    t' := WithProfile(b, key, id, login.user, address);
  }

  /** An identity login is refused only for a blank subject or a malformed email. */
  lemma IdentityLogin(t: Tables, provider: string, subject: string, email: string, name: string, avatarUrl: string)
    requires Inv(t) && Linked(provider)
    ensures var (t', r) := UpsertIdentity(t, provider, subject, email, name, avatarUrl);
            var key, address := Key(provider, Trim(subject)), NormalizeEmail(email);
            && (r.Err? <==> key.subject == "" || !ValidEmail(address))
            && (r.Err? ==> t' == t && r.error == NotFound)
            && (r.Ok? ==> LoginDone(t, t', key, address, r.value))
  {
    LinkedIsTrimmed(provider);
    var key, address := Key(provider, Trim(subject)), NormalizeEmail(email);
    if key.subject != "" && ValidEmail(address) {
      var t', login := BoundLogin(t, key, address, ResolvedName(name, address), avatarUrl);
    }
  }

  lemma BindPicture(t: Tables, key: Key, email: string, name: string, avatarUrl: string)
    requires Inv(t) && Linked(key.provider)
    ensures Bind(t, key, email, name, avatarUrl).Ok?
    ensures var (b, id) := Bind(t, key, email, name, avatarUrl).value;
            id in b.users && b.users[id].avatarUrl == if id in t.users then t.users[id].avatarUrl else avatarUrl
  {
    BindSucceeds(t, key, email, name, avatarUrl);
  }

  /** The email and the picture of the account after a login. */
  lemma LoginProfile(t: Tables, provider: string, subject: string, email: string, name: string, avatarUrl: string)
    requires Inv(t) && Linked(provider)
    ensures var (_, r) := UpsertIdentity(t, provider, subject, email, name, avatarUrl);
            r.Ok? ==>
              var id, user := r.value.id, r.value.user;
              && user.email == NormalizeEmail(email)
              && user.avatarUrl == if avatarUrl == "" && id in t.users then t.users[id].avatarUrl else avatarUrl
  {
    LinkedIsTrimmed(provider);
    var key, address := Key(provider, Trim(subject)), NormalizeEmail(email);
    if key.subject != "" && ValidEmail(address) {
      BindPicture(t, key, address, ResolvedName(name, address), avatarUrl);
    }
  }

  // ----- Whole runs -----

  lemma NewKeyIsUnused(t: Tables, provider: string, sub: string)
    requires IdsBelowNext(t) && RowOf(t.users, provider, sub, 0, t.nextId).None?
    ensures forall a :: a in t.users ==> t.users[a].provider != provider || t.users[a].sub != sub
  {
    forall a | a in t.users ensures t.users[a].provider != provider || t.users[a].sub != sub {
      assert !HasKey(t.users, a, provider, sub);
    }
  }

  lemma AuthentikKeepsInv(t: Tables, subject: string, email: string, name: string, username: string, picture: string)
    requires Inv(t)
    ensures var t' := UpsertAuthentik(t, subject, email, name, username, picture).0;
            Inv(t') && t'.identities == t.identities && t.users.Keys <= t'.users.Keys
  {
    var t' := UpsertAuthentik(t, subject, email, name, username, picture).0;
    if RowOf(t.users, "authentik", Trim(subject), 0, t.nextId).None? {
      NewKeyIsUnused(t, "authentik", Trim(subject));
    }
    forall a | a in t'.users && Linked(t'.users[a].provider) ensures OwnIdentity(t', a) {
      assert OwnIdentity(t, a);
    }
  }

  /** An Authentik login fails exactly for a blank subject or a malformed email. It lands on the one account with its
      subject, creating an ordinary one if there is none, and changes neither role nor enabled flag nor other accounts. */
  lemma AuthentikLands(t: Tables, subject: string, email: string, name: string, username: string, picture: string)
    requires Inv(t)
    ensures var (t', r) := UpsertAuthentik(t, subject, email, name, username, picture);
            var sub, address := Trim(subject), NormalizeEmail(email);
            && (r.Err? <==> sub == "" || !ValidEmail(address))
            && (r.Err? ==> t' == t && r.error == NotFound)
            && (r.Ok? ==>
                  var id, user := r.value.id, r.value.user;
                  && t' == t.(users := t.users[id := user], nextId := if id in t.users then t.nextId else id + 1)
                  && user.provider == "authentik" && user.sub == sub && user.email == address && user.avatarUrl == Trim(picture)
                  && [Trim(name), Trim(username), address][if Trim(name) != "" then 0 else if Trim(username) != "" then 1 else 2]
                     == user.displayName != ""
                  && (forall a :: HasKey(t'.users, a, "authentik", sub) ==> a == id)
                  && (if id in t.users then user.role == t.users[id].role && user.enabled == t.users[id].enabled
                      else user.role == Ordinary && user.enabled && forall a :: !HasKey(t.users, a, "authentik", sub)))
  {
    var sub := Trim(subject);
    if RowOf(t.users, "authentik", sub, 0, t.nextId).None? {
      NewKeyIsUnused(t, "authentik", sub);
    }
  }

  /** The bootstrap makes exactly the local account of the address an administrator; its password, once set, stays. */
  lemma BootstrapMakesAdmin(t: Tables, email: string, passwordHash: string) returns (id: nat)
    requires Inv(t)
    ensures var t' := Bootstrap(t, email, passwordHash);
            && HasKey(t'.users, id, "local", NormalizeEmail(email)) && t'.users[id].role == Admin
            && t'.passwords == (if id in t.passwords then t.passwords else t.passwords[id := passwordHash])
            && (id in t.users ==> t'.users == t.users[id := t.users[id].(role := Admin)])
            && (id !in t.users ==>
                  && t'.users == t.users[id := t'.users[id]] && t'.users[id].enabled && t'.users[id].avatarUrl == ""
                  && t'.users[id].email == t'.users[id].displayName == NormalizeEmail(email)
                  && forall a :: !HasKey(t.users, a, "local", NormalizeEmail(email)))
            && t'.identities == t.identities && t'.nextId == (if id in t.users then t.nextId else id + 1)
  {
    var row := RowOf(t.users, "local", NormalizeEmail(email), 0, t.nextId);
    id := if row.Some? then row.value else t.nextId;
    if row.None? {
      NewKeyIsUnused(t, "local", NormalizeEmail(email));
    }
  }

  lemma BootstrapKeepsInv(t: Tables, email: string, passwordHash: string)
    requires Inv(t)
    ensures var t' := Bootstrap(t, email, passwordHash);
            Inv(t') && t'.identities == t.identities && t.users.Keys <= t'.users.Keys
  {
    var t' := Bootstrap(t, email, passwordHash);
    if RowOf(t.users, "local", NormalizeEmail(email), 0, t.nextId).None? {
      NewKeyIsUnused(t, "local", NormalizeEmail(email));
    }
    forall a | a in t'.users && Linked(t'.users[a].provider) ensures OwnIdentity(t', a) {
      assert OwnIdentity(t, a);
    }
  }

  lemma StepKeepsInv(t: Tables, e: Event)
    requires Inv(t)
    ensures Inv(Step(t, e)) && t.users.Keys <= Step(t, e).users.Keys
    ensures forall k :: k in t.identities ==> k in Step(t, e).identities && Step(t, e).identities[k].userId == t.identities[k].userId
  {
    match e
    case BootstrapAdmin(email, hash) => BootstrapKeepsInv(t, email, hash);
    case GoogleLogin(verified, subject, email, name, picture) =>
      IdentityLogin(t, "google", Trim(subject), NormalizeEmail(email), Trim(name), Trim(picture));
    case EmailCodeLogin(email) =>
      var address := NormalizeEmail(email);
      IdentityLogin(t, "email_code", address, address, address, "");
    case AuthentikLogin(subject, email, name, username, picture) => AuthentikKeepsInv(t, subject, email, name, username, picture);
  }

  /** From empty tables, over every interleaving, the invariant holds; an account never disappears and a bound
      identity keeps its account forever. */
  lemma {:induction false} RunKeepsInv(t: Tables, events: seq<Event>)
    requires Inv(t)
    ensures Inv(Run(t, events)) && t.users.Keys <= Run(t, events).users.Keys
    ensures forall k :: k in t.identities
                        ==> k in Run(t, events).identities && Run(t, events).identities[k].userId == t.identities[k].userId
    decreases |events|
  {
    if events != [] {
      StepKeepsInv(t, events[0]);
      RunKeepsInv(Step(t, events[0]), events[1..]);
    }
  }

  lemma ReachableInv(events: seq<Event>)
    ensures Inv(Run(EMPTY, events))
  {
    RunKeepsInv(EMPTY, events);
  }

  /** In every reachable state a well-formed identity login succeeds: no unique key stands in its way. */
  lemma IdentityLoginNeverCollides(events: seq<Event>, provider: string, subject: string, email: string, name: string, avatarUrl: string)
    requires Linked(provider) && Trim(subject) != "" && ValidEmail(NormalizeEmail(email))
    ensures UpsertIdentity(Run(EMPTY, events), provider, subject, email, name, avatarUrl).1.Ok?
  {
    ReachableInv(events);
    IdentityLogin(Run(EMPTY, events), provider, subject, email, name, avatarUrl);
  }

  // ----- The profile of one account over its logins -----

  datatype Arrival = Arrival(provider: string, subject: string, email: string, name: string, avatarUrl: string)

  function Arrive(t: Tables, a: Arrival): (Tables, Result<Login, Error>) {
    UpsertIdentity(t, a.provider, a.subject, a.email, a.name, a.avatarUrl)
  }

  function ArriveAll(t: Tables, arrivals: seq<Arrival>): Tables
    decreases |arrivals|
  {
    if arrivals == [] then t else ArriveAll(Arrive(t, arrivals[0]).0, arrivals[1..])
  }

  /** The accepted arrivals that landed on account id, in order. */
  function Landed(t: Tables, arrivals: seq<Arrival>, id: nat): seq<Arrival>
    decreases |arrivals|
  {
    if arrivals == [] then []
    else
      var (t', r) := Arrive(t, arrivals[0]);
      (if r.Ok? && r.value.id == id then [arrivals[0]] else []) + Landed(t', arrivals[1..], id)
  }

  function NameOf(a: Arrival): string { ResolvedName(a.name, NormalizeEmail(a.email)) }

  /** The name an account should have: that of the last Google arrival if there was one; otherwise the name it had, if
      not blank, or else the name of the first arrival. */
  ghost predicate RightName(before: string, landed: seq<Arrival>, after: string) {
    if exists i :: 0 <= i < |landed| && landed[i].provider == "google" then
      exists i :: 0 <= i < |landed| && landed[i].provider == "google" && after == NameOf(landed[i])
                  && forall j :: i < j < |landed| ==> landed[j].provider != "google"
    else if !Blank(before) || landed == [] then after == before
    else after == NameOf(landed[0])
  }

  /** The name an account starts from: blank when it does not exist yet. */
  function NameBefore(t: Tables, id: nat): string {
    if id in t.users then t.users[id].displayName else ""
  }

  lemma NameIsVisible(a: Arrival)
    requires ValidEmail(NormalizeEmail(a.email))
    ensures !Blank(NameOf(a))
  {
    VisibleStart(NameOf(a));
  }

  lemma BindName(t: Tables, key: Key, email: string, name: string, avatarUrl: string)
    requires Inv(t) && Linked(key.provider)
    ensures Bind(t, key, email, name, avatarUrl).Ok?
    ensures var (b, id) := Bind(t, key, email, name, avatarUrl).value;
            id in b.users && b.users[id].displayName == if id in t.users then t.users[id].displayName else name
  {
    BindSucceeds(t, key, email, name, avatarUrl);
  }

  /** The name that an accepted arrival leaves its account with. */
  lemma ArrivalName(t: Tables, a: Arrival)
    requires Inv(t) && Linked(a.provider) && Arrive(t, a).1.Ok?
    ensures var login := Arrive(t, a).1.value;
            var before := NameBefore(t, login.id);
            && login.user.displayName == (if a.provider == "email_code" && !Blank(before) then before else NameOf(a))
            && !Blank(login.user.displayName)
  {
    LinkedIsTrimmed(a.provider);
    var key, address := Key(a.provider, Trim(a.subject)), NormalizeEmail(a.email);
    BindName(t, key, address, NameOf(a), a.avatarUrl);
    NameIsVisible(a);
  }

  /** What one arrival does to the profile of the account it lands on, and that it spares the others. */
  lemma ArrivalOnProfile(t: Tables, a: Arrival, id: nat)
    requires Inv(t) && Linked(a.provider)
    ensures var (t', r) := Arrive(t, a);
            && Inv(t')
            && (r.Ok? && r.value.id == id ==>
                  && id in t'.users
                  && !Blank(t'.users[id].displayName)
                  && t'.users[id].displayName == (if a.provider == "email_code" && !Blank(NameBefore(t, id)) then NameBefore(t, id) else NameOf(a))
                  && (id in t.users ==> t'.users[id].role == t.users[id].role && t'.users[id].enabled == t.users[id].enabled))
            && (!(r.Ok? && r.value.id == id) ==>
                  && NameBefore(t', id) == NameBefore(t, id)
                  && (id in t'.users <==> id in t.users)
                  && (id in t.users ==> t'.users[id] == t.users[id]))
  {
    IdentityLogin(t, a.provider, a.subject, a.email, a.name, a.avatarUrl);
    if Arrive(t, a).1.Ok? {
      ArrivalName(t, a);
    }
  }

  lemma RightNameLater(before: string, first: Arrival, rest: seq<Arrival>, middle: string, after: string)
    requires Linked(first.provider)
    requires middle == if first.provider == "email_code" && !Blank(before) then before else NameOf(first)
    requires !Blank(middle) && RightName(middle, rest, after)
    ensures RightName(before, [first] + rest, after)
  {
    var all := [first] + rest;
    assert forall i :: 0 <= i < |rest| ==> all[i + 1] == rest[i];
    if i :| 0 <= i < |rest| && rest[i].provider == "google" {
      var k :| 0 <= k < |rest| && rest[k].provider == "google" && after == NameOf(rest[k])
               && forall j :: k < j < |rest| ==> rest[j].provider != "google";
      assert all[k + 1].provider == "google" && after == NameOf(all[k + 1]);
      forall j | k + 1 < j < |all| ensures all[j].provider != "google" {
        assert all[j] == rest[j - 1];
      }
    } else {
      assert forall j :: 0 < j < |all| ==> all[j] == rest[j - 1];
      assert all[0] == first;
    }
  }

  /** Over any run of Google and email-code logins every account carries the right name, never a blank one once a login
      has landed on it, and its role and its enabled flag do not change. */
  lemma {:induction false} ProfileFold(t: Tables, arrivals: seq<Arrival>, id: nat)
    requires Inv(t) && forall i :: 0 <= i < |arrivals| ==> Linked(arrivals[i].provider)
    ensures var t' := ArriveAll(t, arrivals);
            && RightName(NameBefore(t, id), Landed(t, arrivals, id), NameBefore(t', id))
            && (Landed(t, arrivals, id) != [] ==> !Blank(NameBefore(t', id)))
            && (id in t.users ==> id in t'.users && t'.users[id].role == t.users[id].role && t'.users[id].enabled == t.users[id].enabled)
    decreases |arrivals|
  {
    if arrivals != [] {
      var a, rest := arrivals[0], arrivals[1..];
      var (t1, r) := Arrive(t, a);
      ArrivalOnProfile(t, a, id);
      ProfileFold(t1, rest, id);
      var later := Landed(t1, rest, id);
      var after := NameBefore(ArriveAll(t1, rest), id);
      if r.Ok? && r.value.id == id {
        RightNameLater(NameBefore(t, id), a, later, NameBefore(t1, id), after);
      } else {
        assert [] + later == later;
      }
    }
  }
}
