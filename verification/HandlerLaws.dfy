/** What the login handlers do for whom, over runs: a disabled account gets nothing, a completed login gets exactly its
    session, and a session, a login request and a ticket are good for exactly as long as they say. */
module HandlerLaws {
  import opened Wrappers
  import opened Text
  import opened Credentials
  import opened SessionRuns

  // ----- Disabled accounts -----

  /** A credential that is spent and serves nobody never serves anybody again. */
  lemma NextKeepsUnused(s: State, step: Step, origin: Origin)
    requires Inv(s) && origin != Elsewhere && Spent(s.db, origin) && Unused(s, origin)
    ensures Unused(Next(s, step), origin)
  {
    if step.EmailCodeVerify? || step.GoogleCallback? || step.TicketExchange? {
      NewHandlerHasFreshCredential(s, step);
    } else if step.Finish? {
      FinishKeepsUnused(s, step, origin);
    } else {
      OthersKeepUnused(s, step, origin);
    }
  }

  lemma OthersKeepUnused(s: State, step: Step, origin: Origin)
    requires origin != Elsewhere && Unused(s, origin) && !step.Finish?
    requires !step.EmailCodeVerify? && !step.GoogleCallback? && !step.TicketExchange?
    ensures Unused(Next(s, step), origin)
  {}

  lemma FinishKeepsUnused(s: State, step: Step, origin: Origin)
    requires origin != Elsewhere && Unused(s, origin) && step.Finish?
    ensures Unused(Next(s, step), origin)
  {}

  lemma NewHandlerHasFreshCredential(s: State, step: Step)
    requires step.EmailCodeVerify? || step.GoogleCallback? || step.TicketExchange?
    ensures var s' := Next(s, step);
            && s'.sessions == s.sessions && s'.tickets == s.tickets
            && forall p :: p in s'.handlers ==>
                 (p in s.handlers && s'.handlers[p] == s.handlers[p]) || !Spent(s.db, s'.handlers[p].origin)
  {}

  lemma {:induction false} UnusedStays(s: State, steps: seq<Step>, origin: Origin)
    requires Inv(s) && origin != Elsewhere && Spent(s.db, origin) && Unused(s, origin)
    ensures Unused(Run(s, steps), origin)
    decreases |steps|
  {
    if steps != [] {
      var s' := Next(s, steps[0]);
      NextKeepsInv(s, steps[0]);
      NextPreserves(s, steps[0]);
      NextKeepsUnused(s, steps[0], origin);
      UnusedStays(s', steps[1..], origin);
    }
  }

  /** Once a handler finds its account disabled, what it paid with never buys a session or a ticket, and no handler ever
      holds it again. */
  lemma DisabledAccountsGetNothing(before: seq<Step>, p: nat, userId: nat, later: seq<Step>)
    requires p in Run(START, before).handlers && Run(START, before).handlers[p].Paid?
    ensures var s := Run(START, before);
            Unused(Run(Next(s, AccountFound(p, userId, false)), later), s.handlers[p].origin)
  {
    var s := Run(START, before);
    RunKeepsInv(START, before);
    NextKeepsInv(s, AccountFound(p, userId, false));
    var origin := s.handlers[p].origin;
    UnusedStays(Next(s, AccountFound(p, userId, false)), later, origin);
  }

  /** Nor does it buy anything when the handler stops for any other reason. */
  lemma StoppedHandlersGetNothing(before: seq<Step>, p: nat, later: seq<Step>)
    requires p in Run(START, before).handlers
    ensures Unused(Run(Next(Run(START, before), Stop(p)), later), Run(START, before).handlers[p].origin)
  {
    var s := Run(START, before);
    RunKeepsInv(START, before);
    NextKeepsInv(s, Stop(p));
    UnusedStays(Next(s, Stop(p)), later, s.handlers[p].origin);
  }

  /** A ticket exchanged for a disabled account is spent for nothing. */
  lemma DisabledTicketsGetNothing(before: seq<Step>, p: nat, ticketHash: string, now: int, later: seq<Step>)
    requires p !in Run(START, before).handlers && ConsumeTicket(Run(START, before).db, ticketHash, now).1.Ok?
    ensures Unused(Run(Next(Run(START, before), TicketExchange(p, ticketHash, now, false)), later), FromTicket(ticketHash))
  {
    var s := Run(START, before);
    RunKeepsInv(START, before);
    NextKeepsInv(s, TicketExchange(p, ticketHash, now, false));
    DisabledTicketIsSpent(s, p, ticketHash, now);
    UnusedStays(Next(s, TicketExchange(p, ticketHash, now, false)), later, FromTicket(ticketHash));
  }

  lemma DisabledTicketIsSpent(s: State, p: nat, ticketHash: string, now: int)
    requires Inv(s) && p !in s.handlers && ConsumeTicket(s.db, ticketHash, now).1.Ok?
    ensures var s' := Next(s, TicketExchange(p, ticketHash, now, false));
            Spent(s'.db, FromTicket(ticketHash)) && Unused(s', FromTicket(ticketHash))
  {
    UnspentIsUnused(s, FromTicket(ticketHash));
  }

  // ----- Completed logins -----

  /** A handler that finishes under a fresh hash creates exactly one thing, for its account and until the time it asked
      for: a ticket if it paid with a desktop request, and a session otherwise. */
  lemma FinishCreatesExactly(s: State, p: nat, hash: string, csrfToken: string, expiresAt: int, now: int)
    requires p in s.handlers && s.handlers[p].Ready?
    ensures var h, s' := s.handlers[p], Next(s, Finish(p, hash, csrfToken, expiresAt, now));
            && s'.handlers == s.handlers - {p}
            && (if h.origin.FromRequest? && h.origin.stateHash in s.db.requests
                   && s.db.requests[h.origin.stateHash].request.kind == "desktop" then
                  hash !in s.db.tickets ==>
                    && s'.tickets == s.tickets + [Created(hash, h.userId, h.origin)] && s'.sessions == s.sessions
                    && s'.db == s.db.(tickets := s.db.tickets[hash := TicketRow(h.userId, expiresAt, None)])
                else
                  hash !in s.db.sessions ==>
                    && s'.sessions == s.sessions + [Created(hash, h.userId, h.origin)] && s'.tickets == s.tickets
                    && s'.db == s.db.(sessions := s.db.sessions[hash := SessionRow(h.userId, csrfToken, expiresAt, now)]))
  {}

  /** The step belongs to this handler. */
  predicate About(step: Step, p: nat) {
    match step
    case EmailCodeVerify(handler, _, _, _) => handler == p
    case GoogleCallback(handler, _, _) => handler == p
    case TicketExchange(handler, _, _, _) => handler == p
    case AccountFound(handler, _, _) => handler == p
    case Finish(handler, _, _, _, _) => handler == p
    case Stop(handler) => handler == p
    case _ => false
  }

  lemma {:induction false} HandlerWaits(s: State, steps: seq<Step>, p: nat)
    requires p in s.handlers && forall i :: 0 <= i < |steps| ==> !About(steps[i], p)
    ensures p in Run(s, steps).handlers && Run(s, steps).handlers[p] == s.handlers[p]
    decreases |steps|
  {
    if steps != [] {
      NextLeavesHandler(s, steps[0], p);
      HandlerWaits(Next(s, steps[0]), steps[1..], p);
    }
  }

  lemma NextLeavesHandler(s: State, step: Step, p: nat)
    requires p in s.handlers && !About(step, p)
    ensures p in Next(s, step).handlers && Next(s, step).handlers[p] == s.handlers[p]
  {}

  // ----- Sessions -----

  lemma {:induction false} SessionStays(s: State, steps: seq<Step>, tokenHash: string)
    requires tokenHash in s.db.sessions && Logout(tokenHash) !in steps
    ensures tokenHash in Run(s, steps).db.sessions && Run(s, steps).db.sessions[tokenHash] == s.db.sessions[tokenHash]
    decreases |steps|
  {
    if steps != [] {
      assert steps[0] in steps;
      NextKeepsSession(s, steps[0], tokenHash);
      SessionStays(Next(s, steps[0]), steps[1..], tokenHash);
    }
  }

  lemma NextKeepsSession(s: State, step: Step, tokenHash: string)
    requires tokenHash in s.db.sessions && step != Logout(tokenHash)
    ensures tokenHash in Next(s, step).db.sessions && Next(s, step).db.sessions[tokenHash] == s.db.sessions[tokenHash]
  {}

  /** A session created under a fresh hash lets in its user, and nobody else, exactly while it has not expired and the
      account is there and enabled, whatever runs in between short of its logout. */
  lemma SessionLetsInExactly(s: State, tokenHash: string, row: SessionRow, later: seq<Step>, enabled: map<nat, bool>, now: int)
    requires tokenHash !in s.db.sessions && Logout(tokenHash) !in later
    ensures var found := FindUser(Run(s.(db := AddSession(s.db, tokenHash, row).0), later).db, enabled, tokenHash, now);
            && (found.Ok? <==> now < row.expiresAt && row.userId in enabled && enabled[row.userId])
            && (found.Ok? ==> found.value == row.userId)
            && (found == Err(DisabledUser) <==> now < row.expiresAt && row.userId in enabled && !enabled[row.userId])
  {
    SessionStays(s.(db := AddSession(s.db, tokenHash, row).0), later, tokenHash);
  }

  /** Password and token logins create their session outright. */
  lemma OtherLoginLetsIn(s: State, userId: nat, tokenHash: string, csrfToken: string, expiresAt: int, created: int,
                         later: seq<Step>, enabled: map<nat, bool>, now: int)
    requires tokenHash !in s.db.sessions && Logout(tokenHash) !in later
    ensures var found := FindUser(Run(Next(s, OtherLogin(userId, tokenHash, csrfToken, expiresAt, created)), later).db,
                                  enabled, tokenHash, now);
            && (found.Ok? <==> now < expiresAt && userId in enabled && enabled[userId])
            && (found.Ok? ==> found.value == userId)
  {
    SessionStays(Next(s, OtherLogin(userId, tokenHash, csrfToken, expiresAt, created)), later, tokenHash);
  }

  /** A ready handler that finishes under a fresh hash, however late, logs its account in: the token then lets in exactly
      this account, exactly until the session expires or is logged out. */
  lemma ReadyLetsIn(s: State, p: nat, between: seq<Step>, tokenHash: string, csrfToken: string, expiresAt: int, created: int,
                    later: seq<Step>, enabled: map<nat, bool>, now: int)
    requires p in s.handlers && s.handlers[p].Ready? && forall i :: 0 <= i < |between| ==> !About(between[i], p)
    requires tokenHash !in Run(s, between).db.sessions && !IsDesktop(Run(s, between).db, s.handlers[p].origin)
    requires Logout(tokenHash) !in later
    ensures var mid, userId := Run(s, between), s.handlers[p].userId;
            var done := Next(mid, Finish(p, tokenHash, csrfToken, expiresAt, created));
            var found := FindUser(Run(done, later).db, enabled, tokenHash, now);
            && done.sessions == mid.sessions + [Created(tokenHash, userId, s.handlers[p].origin)]
            && (found.Ok? <==> now < expiresAt && userId in enabled && enabled[userId])
            && (found.Ok? ==> found.value == userId)
  {
    var mid := Run(s, between);
    HandlerWaits(s, between, p);
    FinishCreatesExactly(mid, p, tokenHash, csrfToken, expiresAt, created);
    SessionStays(Next(mid, Finish(p, tokenHash, csrfToken, expiresAt, created)), later, tokenHash);
  }

  /** A paid handler whose account is found and enabled is ready for that account. */
  lemma EnabledAccountIsReady(s: State, p: nat, userId: nat)
    requires p in s.handlers && s.handlers[p].Paid?
    ensures Next(s, AccountFound(p, userId, true)) == s.(handlers := s.handlers[p := Ready(s.handlers[p].origin, userId)])
  {}

  // ----- Login requests and tickets -----

  lemma {:induction false} RequestWaits(s: State, steps: seq<Step>, stateHash: string)
    requires stateHash in s.db.requests
    requires forall i :: 0 <= i < |steps| && steps[i].GoogleCallback? ==> steps[i].stateHash != stateHash
    ensures stateHash in Run(s, steps).db.requests && Run(s, steps).db.requests[stateHash] == s.db.requests[stateHash]
    decreases |steps|
  {
    if steps != [] {
      NextLeavesRequest(s, steps[0], stateHash);
      RequestWaits(Next(s, steps[0]), steps[1..], stateHash);
    }
  }

  lemma NextLeavesRequest(s: State, step: Step, stateHash: string)
    requires stateHash in s.db.requests && (step.GoogleCallback? ==> step.stateHash != stateHash)
    ensures stateHash in Next(s, step).db.requests && Next(s, step).db.requests[stateHash] == s.db.requests[stateHash]
  {}

  /** The first callback for a login request is accepted, with the request as stored, exactly before the request expires,
      whatever else has run; from then on none is. */
  lemma RequestsAcceptedExactly(s: State, stateHash: string, request: OAuthRequest, between: seq<Step>, now: int,
                                later: seq<Step>, again: int)
    requires stateHash !in s.db.requests
    requires forall i :: 0 <= i < |between| && between[i].GoogleCallback? ==> between[i].stateHash != stateHash
    ensures var open := Run(Next(s, GoogleStart(stateHash, request)), between);
            var (db, r) := ConsumeRequest(open.db, stateHash, now);
            && (r.Ok? <==> now < request.expiresAt)
            && (r.Ok? ==> r.value == Stored(request)
                          && db == open.db.(requests := open.db.requests[stateHash := RequestRow(Stored(request), Some(now))]))
            && (r.Err? ==> db == open.db && r.error == NotFound)
            && (r.Ok? ==> ConsumeRequest(Run(open.(db := db), later).db, stateHash, again).1.Err?)
  {
    var start := Next(s, GoogleStart(stateHash, request));
    RequestWaits(start, between, stateHash);
    RequestsComeBackOnce(s, stateHash, request, between, now, later, again);
  }

  lemma {:induction false} TicketWaits(s: State, steps: seq<Step>, ticketHash: string)
    requires ticketHash in s.db.tickets
    requires forall i :: 0 <= i < |steps| && steps[i].TicketExchange? ==> steps[i].ticketHash != ticketHash
    ensures ticketHash in Run(s, steps).db.tickets && Run(s, steps).db.tickets[ticketHash] == s.db.tickets[ticketHash]
    decreases |steps|
  {
    if steps != [] {
      NextLeavesTicket(s, steps[0], ticketHash);
      TicketWaits(Next(s, steps[0]), steps[1..], ticketHash);
    }
  }

  lemma NextLeavesTicket(s: State, step: Step, ticketHash: string)
    requires ticketHash in s.db.tickets && (step.TicketExchange? ==> step.ticketHash != ticketHash)
    ensures ticketHash in Next(s, step).db.tickets && Next(s, step).db.tickets[ticketHash] == s.db.tickets[ticketHash]
  {}

  /** The first exchange of a ticket is accepted, for its account, exactly before the ticket expires; from then on none is. */
  lemma TicketsAcceptedExactly(s: State, userId: nat, ticketHash: string, expiresAt: int, between: seq<Step>, now: int,
                               later: seq<Step>, again: int)
    requires ticketHash !in s.db.tickets
    requires forall i :: 0 <= i < |between| && between[i].TicketExchange? ==> between[i].ticketHash != ticketHash
    ensures var open := Run(s.(db := SaveTicket(s.db, userId, ticketHash, expiresAt).0), between);
            var (db, r) := ConsumeTicket(open.db, ticketHash, now);
            && (r.Ok? <==> now < expiresAt)
            && (r.Ok? ==> r.value == userId
                          && db == open.db.(tickets := open.db.tickets[ticketHash := TicketRow(userId, expiresAt, Some(now))]))
            && (r.Err? ==> db == open.db && r.error == NotFound)
            && (r.Ok? ==> ConsumeTicket(Run(open.(db := db), later).db, ticketHash, again).1.Err?)
  {
    var start := s.(db := SaveTicket(s.db, userId, ticketHash, expiresAt).0);
    TicketWaits(start, between, ticketHash);
    var open := Run(start, between);
    var (db, r) := ConsumeTicket(open.db, ticketHash, now);
    RunPreserves(open.(db := db), later);
  }

  // ----- Good credentials start their handlers -----

  /** The code was the last one sent to the address, and has not been used. */
  ghost predicate NewestOpen(codes: seq<CodeRow>, n: nat, row: CodeRow) {
    && n < |codes| && codes[n] == row && row.consumedAt.None?
    && (forall i :: 0 <= i < n ==> codes[i].createdAt < row.createdAt)
    && (forall i :: n < i < |codes| ==> codes[i].email != row.email)
  }

  lemma NewestOpenIsFound(codes: seq<CodeRow>, n: nat, row: CodeRow)
    requires NewestOpen(codes, n, row)
    ensures NewestOf(codes, row.email, |codes|) == Some(n)
  {
    var r := NewestOf(codes, row.email, |codes|);
    assert Open(codes[n], row.email);
    assert r.Some? && !(n < r.value);
    assert codes[n].createdAt <= codes[r.value].createdAt;
  }

  /** The step sends or tries a code of this address. */
  predicate Concerns(step: Step, address: string) {
    (step.EmailCodeStart? || step.EmailCodeVerify?) && NormalizeEmail(step.email) == address
  }

  lemma NextLeavesCode(s: State, step: Step, n: nat, row: CodeRow)
    requires NewestOpen(s.db.codes, n, row) && !Concerns(step, row.email)
    ensures NewestOpen(Next(s, step).db.codes, n, row)
  {
    var codes' := Next(s, step).db.codes;
    if step.EmailCodeVerify? && codes' != s.db.codes {
      var k := NewestOf(s.db.codes, NormalizeEmail(step.email), |s.db.codes|).value;
      assert codes' == s.db.codes[k := s.db.codes[k].(consumedAt := Some(step.now))];
    }
  }

  lemma {:induction false} CodeWaits(s: State, steps: seq<Step>, n: nat, row: CodeRow)
    requires NewestOpen(s.db.codes, n, row) && forall i :: 0 <= i < |steps| ==> !Concerns(steps[i], row.email)
    ensures NewestOpen(Run(s, steps).db.codes, n, row)
    decreases |steps|
  {
    if steps != [] {
      NextLeavesCode(s, steps[0], n, row);
      CodeWaits(Next(s, steps[0]), steps[1..], n, row);
    }
  }

  lemma VerifyAnswers(s: State, p: nat, tried: string, triedHash: string, now: int, n: nat, row: CodeRow)
    requires p !in s.handlers && NewestOpen(s.db.codes, n, row) && NormalizeEmail(tried) == row.email
    ensures var done := Next(s, EmailCodeVerify(p, tried, triedHash, now));
            if triedHash == row.codeHash && now < row.expiresAt then done.handlers == s.handlers[p := Paid(FromCode(n))]
            else done == s
  {
    NewestOpenIsFound(s.db.codes, n, row);
  }

  lemma CallbackAnswers(s: State, p: nat, stateHash: string, now: int)
    requires p !in s.handlers && stateHash in s.db.requests && s.db.requests[stateHash].consumedAt.None?
    ensures var request := s.db.requests[stateHash].request;
            var done := Next(s, GoogleCallback(p, stateHash, now));
            if now < request.expiresAt then
              && done.handlers == s.handlers[p := Paid(FromRequest(stateHash))]
              && (IsDesktop(done.db, FromRequest(stateHash)) <==> request.kind == "desktop")
            else done == s
  {}

  lemma ExchangeAnswers(s: State, p: nat, ticketHash: string, now: int)
    requires p !in s.handlers && ticketHash in s.db.tickets && s.db.tickets[ticketHash].consumedAt.None?
    ensures var ticket := s.db.tickets[ticketHash];
            var done := Next(s, TicketExchange(p, ticketHash, now, true));
            if now < ticket.expiresAt then done.handlers == s.handlers[p := Ready(FromTicket(ticketHash), ticket.userId)]
            else done == s
  {}

  /** The last code sent to an address, tried in time, pays for a handler; tried too late or wrong, it changes nothing. */
  lemma EmailCodePays(s: State, email: string, codeHash: string, expiresAt: int, created: int, between: seq<Step>,
                      p: nat, tried: string, triedHash: string, now: int)
    requires forall i :: 0 <= i < |s.db.codes| ==> s.db.codes[i].createdAt < created
    requires NormalizeEmail(tried) == NormalizeEmail(email)
    requires forall i :: 0 <= i < |between| ==> !Concerns(between[i], NormalizeEmail(email))
    requires p !in Run(Next(s, EmailCodeStart(email, codeHash, expiresAt, created)), between).handlers
    ensures var open := Run(Next(s, EmailCodeStart(email, codeHash, expiresAt, created)), between);
            var done := Next(open, EmailCodeVerify(p, tried, triedHash, now));
            if triedHash == codeHash && now < expiresAt then
              done.handlers == open.handlers[p := Paid(FromCode(|s.db.codes|))]
            else done == open
  {
    var start := Next(s, EmailCodeStart(email, codeHash, expiresAt, created));
    var n := |s.db.codes|;
    var row := CodeRow(NormalizeEmail(email), codeHash, expiresAt, created, None);
    assert start.db.codes == s.db.codes + [row];
    CodeWaits(start, between, n, row);
    VerifyAnswers(Run(start, between), p, tried, triedHash, now, n, row);
  }

  /** The first callback for a login request pays for a handler exactly before the request expires. */
  lemma RequestPays(s: State, stateHash: string, request: OAuthRequest, between: seq<Step>, p: nat, now: int)
    requires stateHash !in s.db.requests
    requires forall i :: 0 <= i < |between| && between[i].GoogleCallback? ==> between[i].stateHash != stateHash
    requires p !in Run(Next(s, GoogleStart(stateHash, request)), between).handlers
    ensures var open := Run(Next(s, GoogleStart(stateHash, request)), between);
            var done := Next(open, GoogleCallback(p, stateHash, now));
            if now < request.expiresAt then
              && done.handlers == open.handlers[p := Paid(FromRequest(stateHash))]
              && (IsDesktop(done.db, FromRequest(stateHash)) <==> Stored(request).kind == "desktop")
            else done == open
  {
    var start := Next(s, GoogleStart(stateHash, request));
    RequestIsStored(s, stateHash, request);
    RequestWaits(start, between, stateHash);
    CallbackAnswers(Run(start, between), p, stateHash, now);
  }

  lemma RequestIsStored(s: State, stateHash: string, request: OAuthRequest)
    requires stateHash !in s.db.requests
    ensures var requests := Next(s, GoogleStart(stateHash, request)).db.requests;
            stateHash in requests && requests[stateHash] == RequestRow(Stored(request), None)
  {}

  lemma TicketIsStored(s: State, userId: nat, ticketHash: string, expiresAt: int)
    requires ticketHash !in s.db.tickets
    ensures var tickets := Next(s, FirstPartyTicket(userId, ticketHash, expiresAt)).db.tickets;
            ticketHash in tickets && tickets[ticketHash] == TicketRow(userId, expiresAt, None)
  {}

  /** The first exchange of a ticket for an enabled account makes a handler ready for that account, exactly before the
      ticket expires. */
  lemma TicketPays(s: State, userId: nat, ticketHash: string, expiresAt: int, between: seq<Step>, p: nat, now: int)
    requires ticketHash !in s.db.tickets
    requires forall i :: 0 <= i < |between| && between[i].TicketExchange? ==> between[i].ticketHash != ticketHash
    requires p !in Run(Next(s, FirstPartyTicket(userId, ticketHash, expiresAt)), between).handlers
    ensures var open := Run(Next(s, FirstPartyTicket(userId, ticketHash, expiresAt)), between);
            var done := Next(open, TicketExchange(p, ticketHash, now, true));
            if now < expiresAt then done.handlers == open.handlers[p := Ready(FromTicket(ticketHash), userId)] else done == open
  {
    var start := Next(s, FirstPartyTicket(userId, ticketHash, expiresAt));
    TicketIsStored(s, userId, ticketHash, expiresAt);
    TicketWaits(start, between, ticketHash);
    ExchangeAnswers(Run(start, between), p, ticketHash, now);
  }
}
