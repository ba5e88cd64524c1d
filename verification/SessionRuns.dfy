/** Login handlers as short sequences of transactions, interleaved at will and free to stop after any of them:
    where every session and every desktop ticket comes from. */
module SessionRuns {
  import opened Wrappers
  import opened Text
  import opened Credentials

  /** The credential that pays for a session or a ticket. Password, id-token and first-party logins come from
      elsewhere. */
  datatype Origin = FromCode(row: nat) | FromRequest(stateHash: string) | FromTicket(ticketHash: string) | Elsewhere

  /** A handler that has consumed its credential, and later knows the account. */
  datatype Handler = Paid(origin: Origin) | Ready(origin: Origin, userId: nat)

  datatype Created = Created(hash: string, userId: nat, origin: Origin)

  /** The database, the running handlers, and the history of sessions and desktop tickets ever created. */
  datatype State = State(db: Db, handlers: map<nat, Handler>, sessions: seq<Created>, tickets: seq<Created>)

  const START := State(EMPTY, map[], [], [])

  datatype Step =
    | EmailCodeStart(email: string, codeHash: string, expiresAt: int, now: int)
    | GoogleStart(stateHash: string, request: OAuthRequest)
    | FirstPartyTicket(userId: nat, ticketHash: string, expiresAt: int)
    | EmailCodeVerify(handler: nat, email: string, codeHash: string, now: int)
    | GoogleCallback(handler: nat, stateHash: string, now: int)
    | TicketExchange(handler: nat, ticketHash: string, now: int, enabled: bool)
    | AccountFound(handler: nat, userId: nat, enabled: bool)
    | Finish(handler: nat, hash: string, csrfToken: string, expiresAt: int, now: int)
    | OtherLogin(userId: nat, hash: string, csrfToken: string, expiresAt: int, now: int)
    | Stop(handler: nat)
    | Logout(tokenHash: string)

  function Drop(s: State, handler: nat): State {
    s.(handlers := s.handlers - {handler})
  }

  function CreateSessionFor(s: State, userId: nat, origin: Origin, hash: string, csrfToken: string, expiresAt: int, now: int): State {
    var (db, error) := AddSession(s.db, hash, SessionRow(userId, csrfToken, expiresAt, now));
    if error.Some? then s else s.(db := db, sessions := s.sessions + [Created(hash, userId, origin)])
  }

  function CreateTicketFor(s: State, userId: nat, origin: Origin, hash: string, expiresAt: int): State {
    var (db, error) := SaveTicket(s.db, userId, hash, expiresAt);
    if error.Some? then s else s.(db := db, tickets := s.tickets + [Created(hash, userId, origin)])
  }

  predicate IsDesktop(db: Db, origin: Origin) {
    origin.FromRequest? && origin.stateHash in db.requests && db.requests[origin.stateHash].request.kind == "desktop"
  }

  function Next(s: State, step: Step): State {
    match step
    case EmailCodeStart(email, codeHash, expiresAt, now) => s.(db := SaveCode(s.db, email, codeHash, expiresAt, now))
    case GoogleStart(stateHash, request) => s.(db := SaveRequest(s.db, stateHash, request).0)
    case FirstPartyTicket(userId, ticketHash, expiresAt) => CreateTicketFor(s, userId, Elsewhere, ticketHash, expiresAt)
    case EmailCodeVerify(handler, email, codeHash, now) =>
      var (db, r) := ConsumeCode(s.db, email, codeHash, now);
      if handler in s.handlers || r.Err? then s
      else s.(db := db, handlers := s.handlers[handler := Paid(FromCode(r.value))])
    case GoogleCallback(handler, stateHash, now) =>
      var (db, r) := ConsumeRequest(s.db, stateHash, now);
      if handler in s.handlers || r.Err? then s
      else s.(db := db, handlers := s.handlers[handler := Paid(FromRequest(stateHash))])
    case TicketExchange(handler, ticketHash, now, enabled) =>
      var (db, r) := ConsumeTicket(s.db, ticketHash, now);
      if handler in s.handlers || r.Err? then s
      else if !enabled then s.(db := db)
      else s.(db := db, handlers := s.handlers[handler := Ready(FromTicket(ticketHash), r.value)])
    case AccountFound(handler, userId, enabled) =>
      if handler !in s.handlers || s.handlers[handler].Ready? then s
      else if !enabled then Drop(s, handler)
      else s.(handlers := s.handlers[handler := Ready(s.handlers[handler].origin, userId)])
    case Finish(handler, hash, csrfToken, expiresAt, now) =>
      if handler !in s.handlers || s.handlers[handler].Paid? then s
      else
        var h := s.handlers[handler];
        if IsDesktop(s.db, h.origin) then CreateTicketFor(Drop(s, handler), h.userId, h.origin, hash, expiresAt)
        else CreateSessionFor(Drop(s, handler), h.userId, h.origin, hash, csrfToken, expiresAt, now)
    case OtherLogin(userId, hash, csrfToken, expiresAt, now) => CreateSessionFor(s, userId, Elsewhere, hash, csrfToken, expiresAt, now)
    case Stop(handler) => Drop(s, handler)
    case Logout(tokenHash) => s.(db := Revoke(s.db, tokenHash))
  }

  function Run(s: State, steps: seq<Step>): State
    decreases |steps|
  {
    if steps == [] then s else Run(Next(s, steps[0]), steps[1..])
  }

  // ----- Conservation -----

  /** The credential was consumed, strictly before it expired. */
  predicate Spent(db: Db, origin: Origin) {
    match origin
    case FromCode(i) => i < |db.codes| && db.codes[i].consumedAt.Some? && db.codes[i].consumedAt.value < db.codes[i].expiresAt
    case FromRequest(h) => h in db.requests && db.requests[h].consumedAt.Some?
                           && db.requests[h].consumedAt.value < db.requests[h].request.expiresAt
    case FromTicket(h) => h in db.tickets && db.tickets[h].consumedAt.Some? && db.tickets[h].consumedAt.value < db.tickets[h].expiresAt
    case Elsewhere => true
  }

  /** Different entries, different credentials. */
  ghost predicate Injective(log: seq<Created>) {
    forall i, j :: 0 <= i < j < |log| && log[i].origin == log[j].origin ==> log[i].origin == Elsewhere
  }

  /** A ticket's session is for the ticket's account. */
  predicate RightUser(db: Db, origin: Origin, userId: nat) {
    origin.FromTicket? ==> origin.ticketHash in db.tickets && db.tickets[origin.ticketHash].userId == userId
  }

  ghost predicate GoodSession(db: Db, c: Created) {
    Spent(db, c.origin) && RightUser(db, c.origin, c.userId) && !IsDesktop(db, c.origin)
  }

  ghost predicate GoodTicket(db: Db, c: Created) {
    && Spent(db, c.origin)
    && (c.origin == Elsewhere || IsDesktop(db, c.origin))
    && c.hash in db.tickets && db.tickets[c.hash].userId == c.userId
  }

  ghost predicate Recorded(log: seq<Created>, hash: string, userId: nat) {
    exists i :: 0 <= i < |log| && log[i].hash == hash && log[i].userId == userId
  }

  ghost predicate SessionsConserved(db: Db, log: seq<Created>) {
    && Injective(log)
    && (forall i :: 0 <= i < |log| ==> GoodSession(db, log[i]))
    && (forall h :: h in db.sessions ==> Recorded(log, h, db.sessions[h].userId))
  }

  ghost predicate TicketsConserved(db: Db, log: seq<Created>) {
    && Injective(log)
    && (forall i :: 0 <= i < |log| ==> GoodTicket(db, log[i]))
    && (forall h :: h in db.tickets ==> Recorded(log, h, db.tickets[h].userId))
  }

  /** Every live session and every ticket row was created by a recorded creation, recorded creations were each paid by a
      credential spent in time, and no credential paid twice. */
  ghost predicate Conserved(s: State) {
    SessionsConserved(s.db, s.sessions) && TicketsConserved(s.db, s.tickets)
  }

  /** The handlers that are still running hold credentials that are spent, theirs alone, and not yet used. */
  ghost predicate HandlersHold(s: State) {
    && (forall p :: p in s.handlers ==> s.handlers[p].origin != Elsewhere && Spent(s.db, s.handlers[p].origin))
    && (forall p :: p in s.handlers && s.handlers[p].Ready? ==> RightUser(s.db, s.handlers[p].origin, s.handlers[p].userId))
    && (forall p :: p in s.handlers && s.handlers[p].Paid? ==> !s.handlers[p].origin.FromTicket?)
    && (forall p, q :: p in s.handlers && q in s.handlers && s.handlers[p].origin == s.handlers[q].origin ==> p == q)
    && (forall p, i :: p in s.handlers && 0 <= i < |s.sessions| ==> s.handlers[p].origin != s.sessions[i].origin)
    && (forall p, i :: p in s.handlers && 0 <= i < |s.tickets| ==> s.handlers[p].origin != s.tickets[i].origin)
  }

  ghost predicate Inv(s: State) { Conserved(s) && HandlersHold(s) }

  /** Later tables keep what earlier ones say about credentials: nothing spent is ever spent again or undone. */
  ghost predicate Preserves(db: Db, db': Db) {
    && |db.codes| <= |db'.codes| && db.requests.Keys <= db'.requests.Keys && db.tickets.Keys <= db'.tickets.Keys
    && (forall i :: 0 <= i < |db.codes| && db.codes[i].consumedAt.Some? ==> db'.codes[i] == db.codes[i])
    && (forall h :: h in db.requests ==> db'.requests[h].request == db.requests[h].request
                                         && (db.requests[h].consumedAt.Some? ==> db'.requests[h] == db.requests[h]))
    && (forall h :: h in db.tickets ==> db'.tickets[h].userId == db.tickets[h].userId
                                        && (db.tickets[h].consumedAt.Some? ==> db'.tickets[h] == db.tickets[h]))
  }

  lemma PreservedSessions(db: Db, db': Db, log: seq<Created>)
    requires Preserves(db, db') && SessionsConserved(db, log)
    requires forall h :: h in db'.sessions ==> h in db.sessions && db'.sessions[h] == db.sessions[h]
    ensures SessionsConserved(db', log)
  {}

  lemma PreservedTickets(db: Db, db': Db, log: seq<Created>)
    requires Preserves(db, db') && TicketsConserved(db, log) && db'.tickets.Keys == db.tickets.Keys
    ensures TicketsConserved(db', log)
  {}

  lemma PreservedHandlers(s: State, db': Db)
    requires Preserves(s.db, db') && HandlersHold(s)
    ensures HandlersHold(s.(db := db'))
  {}

  /** Facts about credentials survive any change of tables that preserves them and adds no session and no ticket. */
  lemma PreservedInv(s: State, db': Db)
    requires Inv(s) && Preserves(s.db, db')
    requires forall h :: h in db'.sessions ==> h in s.db.sessions && db'.sessions[h] == s.db.sessions[h]
    requires db'.tickets.Keys == s.db.tickets.Keys
    ensures Inv(s.(db := db'))
  {
    PreservedSessions(s.db, db', s.sessions);
    PreservedTickets(s.db, db', s.tickets);
    PreservedHandlers(s, db');
  }

  /** No entry and no handler uses this credential. */
  ghost predicate Unused(s: State, origin: Origin) {
    && (forall i :: 0 <= i < |s.sessions| ==> s.sessions[i].origin != origin)
    && (forall i :: 0 <= i < |s.tickets| ==> s.tickets[i].origin != origin)
    && (forall p :: p in s.handlers ==> s.handlers[p].origin != origin)
  }

  lemma UnspentIsUnused(s: State, origin: Origin)
    requires Inv(s) && !Spent(s.db, origin)
    ensures Unused(s, origin)
  {}

  /** A credential spent just now, and held by a new handler. */
  lemma HandlerStarts(s: State, db': Db, p: nat, h: Handler)
    requires Inv(s) && Inv(s.(db := db')) && p !in s.handlers
    requires h.origin != Elsewhere && !Spent(s.db, h.origin) && Spent(db', h.origin)
    requires if h.Ready? then RightUser(db', h.origin, h.userId) else !h.origin.FromTicket?
    ensures Inv(s.(db := db', handlers := s.handlers[p := h]))
  {
    UnspentIsUnused(s, h.origin);
  }

  lemma DropKeepsInv(s: State, p: nat)
    requires Inv(s)
    ensures Inv(Drop(s, p))
  {}

  lemma Append(log: seq<Created>, c: Created)
    requires Injective(log) && (c.origin == Elsewhere || forall i :: 0 <= i < |log| ==> log[i].origin != c.origin)
    ensures Injective(log + [c]) && Recorded(log + [c], c.hash, c.userId)
    ensures forall h, u :: Recorded(log, h, u) ==> Recorded(log + [c], h, u)
  {
    var log' := log + [c];
    assert log'[|log|] == c;
    forall h, u | Recorded(log, h, u) ensures Recorded(log', h, u) {
      var i :| 0 <= i < |log| && log[i].hash == h && log[i].userId == u;
      assert log'[i] == log[i];
    }
  }

  lemma SessionLogged(db: Db, log: seq<Created>, c: Created, row: SessionRow)
    requires SessionsConserved(db, log) && GoodSession(db, c) && row.userId == c.userId
    requires c.origin == Elsewhere || forall i :: 0 <= i < |log| ==> log[i].origin != c.origin
    ensures SessionsConserved(db.(sessions := db.sessions[c.hash := row]), log + [c])
  {
    Append(log, c);
    var db' := db.(sessions := db.sessions[c.hash := row]);
    forall i | 0 <= i < |log + [c]| ensures GoodSession(db', (log + [c])[i]) {
      assert i < |log| ==> GoodSession(db, log[i]);
    }
  }

  lemma TicketLogged(db: Db, log: seq<Created>, c: Created, expiresAt: int)
    requires TicketsConserved(db, log) && c.hash !in db.tickets
    requires Spent(db, c.origin) && (c.origin == Elsewhere || IsDesktop(db, c.origin))
    requires c.origin == Elsewhere || forall i :: 0 <= i < |log| ==> log[i].origin != c.origin
    ensures TicketsConserved(db.(tickets := db.tickets[c.hash := TicketRow(c.userId, expiresAt, None)]), log + [c])
  {
    Append(log, c);
    var db' := db.(tickets := db.tickets[c.hash := TicketRow(c.userId, expiresAt, None)]);
    forall i | 0 <= i < |log + [c]| ensures GoodTicket(db', (log + [c])[i]) {
      assert i < |log| ==> GoodTicket(db, log[i]);
    }
  }

  /** New entries leave the handlers' claims alone when no handler holds their credential. */
  lemma HandlersKeepHolding(s: State, s': State, origin: Origin)
    requires HandlersHold(s) && Preserves(s.db, s'.db) && s'.handlers == s.handlers
    requires origin == Elsewhere || Unused(s, origin)
    requires forall i :: 0 <= i < |s'.sessions| ==> s'.sessions[i].origin == origin || s'.sessions[i] in s.sessions
    requires forall i :: 0 <= i < |s'.tickets| ==> s'.tickets[i].origin == origin || s'.tickets[i] in s.tickets
    ensures HandlersHold(s')
  {
    PreservedHandlers(s, s'.db);
  }

  lemma SessionKeepsInv(s: State, userId: nat, origin: Origin, hash: string, csrfToken: string, expiresAt: int, now: int)
    requires Inv(s) && (origin == Elsewhere || Unused(s, origin)) && GoodSession(s.db, Created(hash, userId, origin))
    ensures Inv(CreateSessionFor(s, userId, origin, hash, csrfToken, expiresAt, now))
  {
    var s' := CreateSessionFor(s, userId, origin, hash, csrfToken, expiresAt, now);
    if hash !in s.db.sessions {
      SessionLogged(s.db, s.sessions, Created(hash, userId, origin), SessionRow(userId, csrfToken, expiresAt, now));
      PreservedTickets(s.db, s'.db, s.tickets);
      HandlersKeepHolding(s, s', origin);
    }
  }

  lemma TicketKeepsInv(s: State, userId: nat, origin: Origin, hash: string, expiresAt: int)
    requires Inv(s) && (origin == Elsewhere || Unused(s, origin)) && Spent(s.db, origin) && (origin == Elsewhere || IsDesktop(s.db, origin))
    ensures Inv(CreateTicketFor(s, userId, origin, hash, expiresAt))
  {
    var s' := CreateTicketFor(s, userId, origin, hash, expiresAt);
    if hash !in s.db.tickets {
      TicketLogged(s.db, s.tickets, Created(hash, userId, origin), expiresAt);
      PreservedSessions(s.db, s'.db, s.sessions);
      HandlersKeepHolding(s, s', origin);
    }
  }

  lemma FinishKeepsInv(s: State, p: nat, hash: string, csrfToken: string, expiresAt: int, now: int)
    requires Inv(s) && p in s.handlers && s.handlers[p].Ready?
    ensures Inv(Next(s, Finish(p, hash, csrfToken, expiresAt, now)))
  {
    var h := s.handlers[p];
    DropKeepsInv(s, p);
    var s' := Drop(s, p);
    assert Unused(s', h.origin);
    if IsDesktop(s.db, h.origin) {
      TicketKeepsInv(s', h.userId, h.origin, hash, expiresAt);
    } else {
      SessionKeepsInv(s', h.userId, h.origin, hash, csrfToken, expiresAt, now);
    }
  }

  lemma NextPreserves(s: State, step: Step)
    ensures Preserves(s.db, Next(s, step).db)
  {}

  lemma VerifyKeepsInv(s: State, step: Step)
    requires Inv(s) && step.EmailCodeVerify?
    ensures Inv(Next(s, step))
  {
    var s' := Next(s, step);
    NextPreserves(s, step);
    PreservedInv(s, s'.db);
    if s' != s {
      HandlerStarts(s, s'.db, step.handler, s'.handlers[step.handler]);
    }
  }

  lemma CallbackKeepsInv(s: State, step: Step)
    requires Inv(s) && step.GoogleCallback?
    ensures Inv(Next(s, step))
  {
    var s' := Next(s, step);
    NextPreserves(s, step);
    PreservedInv(s, s'.db);
    if s' != s {
      HandlerStarts(s, s'.db, step.handler, s'.handlers[step.handler]);
    }
  }

  lemma ExchangeKeepsInv(s: State, step: Step)
    requires Inv(s) && step.TicketExchange?
    ensures Inv(Next(s, step))
  {
    var s' := Next(s, step);
    NextPreserves(s, step);
    PreservedInv(s, s'.db);
    if s' != s && step.enabled {
      HandlerStarts(s, s'.db, step.handler, s'.handlers[step.handler]);
    }
  }

  lemma AccountFoundKeepsInv(s: State, step: Step)
    requires Inv(s) && step.AccountFound?
    ensures Inv(Next(s, step))
  {}

  lemma NextKeepsInv(s: State, step: Step)
    requires Inv(s)
    ensures Inv(Next(s, step))
  {
    match step
    case EmailCodeStart(_, _, _, _) =>
      NextPreserves(s, step);
      PreservedInv(s, Next(s, step).db);
    case GoogleStart(_, _) =>
      NextPreserves(s, step);
      PreservedInv(s, Next(s, step).db);
    case FirstPartyTicket(userId, ticketHash, expiresAt) => TicketKeepsInv(s, userId, Elsewhere, ticketHash, expiresAt);
    case EmailCodeVerify(_, _, _, _) => VerifyKeepsInv(s, step);
    case GoogleCallback(_, _, _) => CallbackKeepsInv(s, step);
    case TicketExchange(_, _, _, _) => ExchangeKeepsInv(s, step);
    case AccountFound(_, _, _) => AccountFoundKeepsInv(s, step);
    case Finish(p, hash, csrfToken, expiresAt, now) =>
      if p in s.handlers && s.handlers[p].Ready? {
        FinishKeepsInv(s, p, hash, csrfToken, expiresAt, now);
      }
    case OtherLogin(userId, hash, csrfToken, expiresAt, now) => SessionKeepsInv(s, userId, Elsewhere, hash, csrfToken, expiresAt, now);
    case Stop(p) => DropKeepsInv(s, p);
    case Logout(tokenHash) =>
      NextPreserves(s, step);
      PreservedInv(s, Next(s, step).db);
  }

  lemma {:induction false} RunPreserves(s: State, steps: seq<Step>)
    ensures Preserves(s.db, Run(s, steps).db)
    decreases |steps|
  {
    if steps != [] {
      NextPreserves(s, steps[0]);
      RunPreserves(Next(s, steps[0]), steps[1..]);
    }
  }

  lemma {:induction false} RunKeepsInv(s: State, steps: seq<Step>)
    requires Inv(s)
    ensures Inv(Run(s, steps))
    decreases |steps|
  {
    if steps != [] {
      NextKeepsInv(s, steps[0]);
      RunKeepsInv(Next(s, steps[0]), steps[1..]);
    }
  }

  /** A login request comes back as it was stored, before it expires, and only once, whatever runs in between. */
  lemma RequestsComeBackOnce(s: State, stateHash: string, request: OAuthRequest, between: seq<Step>, now: int,
                             later: seq<Step>, again: int)
    requires stateHash !in s.db.requests
    ensures var open := Run(Next(s, GoogleStart(stateHash, request)), between);
            var (db, r) := ConsumeRequest(open.db, stateHash, now);
            r.Ok? ==> r.value == Stored(request) && now < request.expiresAt
                      && ConsumeRequest(Run(open.(db := db), later).db, stateHash, again).1.Err?
  {
    var start := Next(s, GoogleStart(stateHash, request));
    var open := Run(start, between);
    RunPreserves(start, between);
    var (db, r) := ConsumeRequest(open.db, stateHash, now);
    RunPreserves(open.(db := db), later);
  }

  /** In every run, however handlers interleave or stop, sessions and desktop tickets are conserved; and whatever has been
      consumed at some point of the run stays consumed as it was. */
  lemma SessionConservation(before: seq<Step>, after: seq<Step>)
    ensures Conserved(Run(START, before))
    ensures Conserved(Run(Run(START, before), after))
    ensures Preserves(Run(START, before).db, Run(Run(START, before), after).db)
  {
    RunKeepsInv(START, before);
    RunKeepsInv(Run(START, before), after);
    RunPreserves(Run(START, before), after);
  }

  /** Whoever a session lets in was logged in by a recorded creation of that very session for that account, paid by a
      credential that was spent in time. */
  lemma SessionsLetInTheirUsers(steps: seq<Step>, enabled: map<nat, bool>, tokenHash: string, now: int)
    requires FindUser(Run(START, steps).db, enabled, tokenHash, now).Ok?
    ensures var s, userId := Run(START, steps), FindUser(Run(START, steps).db, enabled, tokenHash, now).value;
            exists i :: 0 <= i < |s.sessions| && s.sessions[i].hash == tokenHash && s.sessions[i].userId == userId
                        && GoodSession(s.db, s.sessions[i])
  {
    RunKeepsInv(START, steps);
    var s, userId := Run(START, steps), FindUser(Run(START, steps).db, enabled, tokenHash, now).value;
    assert Recorded(s.sessions, tokenHash, userId);
    var i :| 0 <= i < |s.sessions| && s.sessions[i].hash == tokenHash && s.sessions[i].userId == userId;
    assert GoodSession(s.db, s.sessions[i]);
  }

  /** The step may create a session under this token hash. */
  predicate Issues(step: Step, tokenHash: string) {
    (step.Finish? || step.OtherLogin?) && step.hash == tokenHash
  }

  lemma NextIssuesNothing(s: State, step: Step, tokenHash: string)
    requires tokenHash !in s.db.sessions && !Issues(step, tokenHash)
    ensures tokenHash !in Next(s, step).db.sessions
  {}

  lemma {:induction false} StaysDead(s: State, steps: seq<Step>, tokenHash: string)
    requires tokenHash !in s.db.sessions && forall i :: 0 <= i < |steps| ==> !Issues(steps[i], tokenHash)
    ensures tokenHash !in Run(s, steps).db.sessions
    decreases |steps|
  {
    if steps != [] {
      NextIssuesNothing(s, steps[0], tokenHash);
      StaysDead(Next(s, steps[0]), steps[1..], tokenHash);
    }
  }

  /** After a logout the token lets nobody in, whatever happens next, until its hash is issued again. */
  lemma LogoutLasts(s: State, tokenHash: string, later: seq<Step>, enabled: map<nat, bool>, now: int)
    requires forall i :: 0 <= i < |later| ==> !Issues(later[i], tokenHash)
    ensures FindUser(Run(Next(s, Logout(tokenHash)), later).db, enabled, tokenHash, now) == Err(NotFound)
  {
    StaysDead(Next(s, Logout(tokenHash)), later, tokenHash);
  }
}
