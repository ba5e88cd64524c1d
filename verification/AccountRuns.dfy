/** What whole runs of logins and bootstraps say about rights, passwords and the accounts that logins land on. */
module AccountRuns {
  import opened Wrappers
  import opened Text
  import opened Accounts
  import opened AccountLaws

  lemma {:induction false} RunBoth(t: Tables, before: seq<Event>, later: seq<Event>)
    ensures Run(t, before + later) == Run(Run(t, before), later)
    decreases |before|
  {
    if before == [] {
      assert before + later == later;
    } else {
      assert (before + later)[1..] == before[1..] + later;
      RunBoth(Step(t, before[0]), before[1..], later);
    }
  }

  lemma RunThrough(t: Tables, before: seq<Event>, e: Event, later: seq<Event>)
    ensures Run(t, before + [e] + later) == Run(Step(Run(t, before), e), later)
  {
    var mid := Run(t, before);
    RunBoth(t, before + [e], later);
    RunBoth(t, before, [e]);
    assert [e][1..] == [];
    assert Run(mid, [e]) == Run(Step(mid, e), []);
  }

  // ----- What a Google or email-code login shows -----

  /** A verified Google login: the account takes the trimmed name, or the address if there is none, and the picture if
      one comes with it. An unverified email changes nothing and lets nobody in. */
  lemma GoogleLoginShows(t: Tables, verified: bool, subject: string, email: string, name: string, picture: string)
    requires Inv(t)
    ensures var (t', r) := UpsertGoogle(t, verified, subject, email, name, picture);
            var address := NormalizeEmail(email);
            && (r.Ok? <==> verified && Trim(subject) != "" && ValidEmail(address))
            && (r.Err? ==> t' == t && r.error == NotFound)
            && (r.Ok? ==>
                  && LoginDone(t, t', Key("google", Trim(subject)), address, r.value)
                  && var id, user := r.value.id, r.value.user;
                  && user.email == address
                  && user.displayName == (if Trim(name) == "" then address else Trim(name))
                  && user.avatarUrl == (if Trim(picture) == "" && id in t.users then t.users[id].avatarUrl else Trim(picture)))
  {
    TrimTwice(subject);
    TrimTwice(name);
    NormalizeTwice(email);
    if verified {
      ShownLogin(t, Arrival("google", Trim(subject), NormalizeEmail(email), Trim(name), Trim(picture)));
    }
  }

  /** An email-code login binds the address itself; a name and a picture that are there already stay. */
  lemma EmailCodeLoginShows(t: Tables, email: string)
    requires Inv(t)
    ensures var (t', r) := UpsertEmailCode(t, email);
            var address := NormalizeEmail(email);
            && (r.Ok? <==> ValidEmail(address))
            && (r.Err? ==> t' == t && r.error == NotFound)
            && (r.Ok? ==>
                  && LoginDone(t, t', Key("email_code", address), address, r.value)
                  && var id, user := r.value.id, r.value.user;
                  && user.email == address
                  && user.displayName == (if Blank(NameBefore(t, id)) then address else NameBefore(t, id))
                  && user.avatarUrl == (if id in t.users then t.users[id].avatarUrl else ""))
  {
    var address := NormalizeEmail(email);
    NormalizeTwice(email);
    ShownLogin(t, Arrival("email_code", address, address, address, ""));
  }

  lemma ShownLogin(t: Tables, a: Arrival)
    requires Inv(t) && Linked(a.provider)
    ensures var (t', r) := Arrive(t, a);
            var address := NormalizeEmail(a.email);
            && (r.Ok? <==> Trim(a.subject) != "" && ValidEmail(address))
            && (r.Err? ==> t' == t && r.error == NotFound)
            && (r.Ok? ==>
                  && LoginDone(t, t', Key(a.provider, Trim(a.subject)), address, r.value)
                  && var id, user := r.value.id, r.value.user;
                  && user.email == address
                  && user.displayName == (if a.provider == "email_code" && !Blank(NameBefore(t, id)) then NameBefore(t, id) else NameOf(a))
                  && user.avatarUrl == (if a.avatarUrl == "" && id in t.users then t.users[id].avatarUrl else a.avatarUrl))
  {
    IdentityLogin(t, a.provider, a.subject, a.email, a.name, a.avatarUrl);
    LoginProfile(t, a.provider, a.subject, a.email, a.name, a.avatarUrl);
    var (t', r) := Arrive(t, a);
    if r.Ok? {
      ArrivalOnProfile(t, a, r.value.id);
    }
  }

  // ----- Logins over runs -----

  /** Unverified Google logins might as well not happen. */
  lemma UnverifiedLoginsDoNothing(t: Tables, before: seq<Event>, e: Event, later: seq<Event>)
    requires e.GoogleLogin? && !e.verified
    ensures Run(t, before + [e] + later) == Run(t, before + later)
  {
    RunThrough(t, before, e, later);
    RunBoth(t, before, later);
  }

  /** The answer to a Google or email-code login, and the identity it binds. */
  function LoginAnswer(t: Tables, e: Event): Result<Login, Error>
    requires e.GoogleLogin? || e.EmailCodeLogin?
  {
    if e.GoogleLogin? then UpsertGoogle(t, e.verified, e.subject, e.email, e.name, e.picture).1 else UpsertEmailCode(t, e.email).1
  }

  function LoginKey(e: Event): Key
    requires e.GoogleLogin? || e.EmailCodeLogin?
  {
    if e.GoogleLogin? then Key("google", Trim(e.subject)) else Key("email_code", NormalizeEmail(e.email))
  }

  lemma AnsweredLogin(t: Tables, e: Event)
    requires Inv(t) && (e.GoogleLogin? || e.EmailCodeLogin?) && LoginAnswer(t, e).Ok?
    ensures LoginDone(t, Step(t, e), LoginKey(e), NormalizeEmail(e.email), LoginAnswer(t, e).value)
  {
    if e.GoogleLogin? {
      GoogleLoginShows(t, e.verified, e.subject, e.email, e.name, e.picture);
    } else {
      EmailCodeLoginShows(t, e.email);
    }
  }

  lemma RefusedLogin(t: Tables, e: Event)
    requires Inv(t) && (e.GoogleLogin? || e.EmailCodeLogin?) && LoginAnswer(t, e).Err?
    ensures Step(t, e) == t
  {
    if e.GoogleLogin? {
      GoogleLoginShows(t, e.verified, e.subject, e.email, e.name, e.picture);
    } else {
      EmailCodeLoginShows(t, e.email);
    }
  }

  /** Whoever has logged in once lands on the same account with every later login of the same identity. */
  lemma LoginsLast(before: seq<Event>, e: Event, later: seq<Event>, again: Event)
    requires (e.GoogleLogin? || e.EmailCodeLogin?) && (again.GoogleLogin? || again.EmailCodeLogin?)
    requires LoginKey(again) == LoginKey(e)
    requires LoginAnswer(Run(EMPTY, before), e).Ok? && LoginAnswer(Run(EMPTY, before + [e] + later), again).Ok?
    ensures LoginAnswer(Run(EMPTY, before + [e] + later), again).value.id == LoginAnswer(Run(EMPTY, before), e).value.id
  {
    var t := Run(EMPTY, before);
    ReachableInv(before);
    AnsweredLogin(t, e);
    RunThrough(EMPTY, before, e, later);
    RunKeepsInv(Step(t, e), later);
    AnsweredLogin(Run(Step(t, e), later), again);
  }

  // ----- Rights and passwords over runs -----

  /** The administrators are the local accounts, each for a named address and one for each; every account is enabled. */
  ghost predicate AdminsAre(t: Tables, named: set<string>) {
    && (forall a :: a in t.users ==> t.users[a].enabled)
    && (forall a :: a in t.users ==> (t.users[a].role == Admin <==> t.users[a].provider == "local"))
    && (forall a :: a in t.users && t.users[a].provider == "local" ==> t.users[a].sub in named)
    && (forall n :: n in named ==> exists a :: HasKey(t.users, a, "local", n))
  }

  function NamedBy(e: Event): set<string> {
    if e.BootstrapAdmin? then {NormalizeEmail(e.email)} else {}
  }

  function Named(events: seq<Event>): set<string> {
    if events == [] then {} else NamedBy(events[0]) + Named(events[1..])
  }

  lemma {:induction false} NamedIs(events: seq<Event>, address: string)
    ensures address in Named(events) <==>
              exists i :: 0 <= i < |events| && events[i].BootstrapAdmin? && NormalizeEmail(events[i].email) == address
  {
    if events != [] {
      NamedIs(events[1..], address);
      assert forall i :: 1 <= i < |events| ==> events[i] == events[1..][i - 1];
    }
  }

  /** One account taken over by u, who is local exactly if the account is: the administrators stay who they are. */
  lemma OneAccountChanges(t: Tables, t': Tables, named: set<string>, id: nat)
    requires AdminsAre(t, named) && id in t'.users && t'.users.Keys == t.users.Keys + {id}
    requires forall a :: a in t.users && a != id ==> t'.users[a] == t.users[a]
    requires t'.users[id].enabled && (t'.users[id].role == Admin <==> t'.users[id].provider == "local")
    requires if id in t.users then t'.users[id].provider == t.users[id].provider && t'.users[id].sub == t.users[id].sub
             else t'.users[id].provider != "local"
    ensures AdminsAre(t', named)
  {
    forall n | n in named ensures exists a :: HasKey(t'.users, a, "local", n) {
      var a :| HasKey(t.users, a, "local", n);
      assert HasKey(t'.users, a, "local", n);
    }
  }

  lemma LoginKeepsAdmins(t: Tables, e: Event, named: set<string>)
    requires Inv(t) && AdminsAre(t, named) && (e.GoogleLogin? || e.EmailCodeLogin?)
    ensures AdminsAre(Step(t, e), named) && Step(t, e).passwords == t.passwords
  {
    if LoginAnswer(t, e).Ok? {
      var login := LoginAnswer(t, e).value;
      AnsweredLogin(t, e);
      OneAccountChanges(t, Step(t, e), named, login.id);
    } else {
      RefusedLogin(t, e);
    }
  }

  lemma BootstrapNamesAdmin(t: Tables, e: Event, named: set<string>)
    requires Inv(t) && AdminsAre(t, named) && e.BootstrapAdmin?
    ensures AdminsAre(Step(t, e), named + NamedBy(e))
  {
    var t' := Step(t, e);
    var id := BootstrapMakesAdmin(t, e.email, e.passwordHash);
    assert HasKey(t'.users, id, "local", NormalizeEmail(e.email));
    forall n | n in named + NamedBy(e) ensures exists a :: HasKey(t'.users, a, "local", n) {
      if n in named {
        var a :| HasKey(t.users, a, "local", n);
        assert HasKey(t'.users, a, "local", n);
      }
    }
  }

  lemma AuthentikKeepsAdmins(t: Tables, e: Event, named: set<string>)
    requires Inv(t) && AdminsAre(t, named) && e.AuthentikLogin?
    ensures AdminsAre(Step(t, e), named) && Step(t, e).passwords == t.passwords
  {
    AuthentikLands(t, e.subject, e.email, e.name, e.username, e.picture);
    var r := UpsertAuthentik(t, e.subject, e.email, e.name, e.username, e.picture).1;
    if r.Ok? {
      OneAccountChanges(t, Step(t, e), named, r.value.id);
    }
  }

  lemma StepKeepsAdmins(t: Tables, e: Event, named: set<string>)
    requires Inv(t) && AdminsAre(t, named)
    ensures AdminsAre(Step(t, e), named + NamedBy(e))
    ensures forall a :: a in t.passwords ==> a in Step(t, e).passwords && Step(t, e).passwords[a] == t.passwords[a]
  {
    match e
    case BootstrapAdmin(email, hash) =>
      BootstrapNamesAdmin(t, e, named);
      var _ := BootstrapMakesAdmin(t, email, hash);
    case AuthentikLogin(_, _, _, _, _) =>
      assert named + {} == named;
      AuthentikKeepsAdmins(t, e, named);
    case _ =>
      assert named + {} == named;
      LoginKeepsAdmins(t, e, named);
  }

  lemma {:induction false} RunKeepsAdmins(t: Tables, events: seq<Event>, named: set<string>)
    requires Inv(t) && AdminsAre(t, named)
    ensures AdminsAre(Run(t, events), named + Named(events))
    ensures forall a :: a in t.passwords ==> a in Run(t, events).passwords && Run(t, events).passwords[a] == t.passwords[a]
    decreases |events|
  {
    if events == [] {
      assert named + {} == named;
    } else {
      StepKeepsInv(t, events[0]);
      StepKeepsAdmins(t, events[0], named);
      RunKeepsAdmins(Step(t, events[0]), events[1..], named + NamedBy(events[0]));
      assert named + NamedBy(events[0]) + Named(events[1..]) == named + Named(events);
    }
  }

  lemma EmptyHasNoAdmins(events: seq<Event>)
    ensures AdminsAre(Run(EMPTY, events), Named(events))
  {
    RunKeepsAdmins(EMPTY, events, {});
    assert {} + Named(events) == Named(events);
  }

  /** Over every run from empty tables an account is an administrator exactly if it is the local account of an address
      that some bootstrap named, and every such address has its account. */
  lemma OnlyBootstrapMakesAdmins(events: seq<Event>, a: nat)
    requires a in Run(EMPTY, events).users
    ensures var u := Run(EMPTY, events).users[a];
            && (u.role == Admin <==> u.provider == "local")
            && (u.role == Admin ==> exists i :: 0 <= i < |events| && events[i].BootstrapAdmin? && NormalizeEmail(events[i].email) == u.sub)
  {
    EmptyHasNoAdmins(events);
    NamedIs(events, Run(EMPTY, events).users[a].sub);
  }

  /** Every bootstrap leaves its address an administrator with a password, for good: the hash of the first bootstrap of the
      account. */
  lemma BootstrapLasts(before: seq<Event>, e: Event, later: seq<Event>) returns (id: nat)
    requires e.BootstrapAdmin?
    ensures var t, t' := Run(EMPTY, before), Run(EMPTY, before + [e] + later);
            && HasKey(t'.users, id, "local", NormalizeEmail(e.email)) && t'.users[id].role == Admin
            && id in t'.passwords && t'.passwords[id] == (if id in t.passwords then t.passwords[id] else e.passwordHash)
  {
    var t := Run(EMPTY, before);
    ReachableInv(before);
    EmptyHasNoAdmins(before);
    var named := Named(before);
    id := BootstrapMakesAdmin(t, e.email, e.passwordHash);
    StepKeepsInv(t, e);
    StepKeepsAdmins(t, e, named);
    var mid := Step(t, e);
    RunKeepsAdmins(mid, later, named + NamedBy(e));
    RunKeepsInv(mid, later);
    RunThrough(EMPTY, before, e, later);
    KeysStay(mid, later, id);
  }

  lemma {:induction false} KeysStay(t: Tables, events: seq<Event>, a: nat)
    requires Inv(t) && a in t.users && t.users[a].provider == "local"
    ensures a in Run(t, events).users
            && Run(t, events).users[a].provider == "local" && Run(t, events).users[a].sub == t.users[a].sub
    decreases |events|
  {
    if events != [] {
      StepKeepsInv(t, events[0]);
      StepKeepsKey(t, events[0], a);
      KeysStay(Step(t, events[0]), events[1..], a);
    }
  }

  lemma StepKeepsKey(t: Tables, e: Event, a: nat)
    requires Inv(t) && a in t.users
    ensures a in Step(t, e).users && Step(t, e).users[a].provider == t.users[a].provider && Step(t, e).users[a].sub == t.users[a].sub
  {
    match e
    case BootstrapAdmin(email, hash) => var _ := BootstrapMakesAdmin(t, email, hash);
    case AuthentikLogin(subject, email, name, username, picture) => AuthentikLands(t, subject, email, name, username, picture);
    case _ => LoginKeepsKey(t, e, a);
  }

  lemma LoginKeepsKey(t: Tables, e: Event, a: nat)
    requires Inv(t) && a in t.users && (e.GoogleLogin? || e.EmailCodeLogin?)
    ensures a in Step(t, e).users && Step(t, e).users[a].provider == t.users[a].provider && Step(t, e).users[a].sub == t.users[a].sub
  {
    if LoginAnswer(t, e).Ok? {
      AnsweredLogin(t, e);
    } else {
      RefusedLogin(t, e);
    }
  }
}
