/** One-shot credentials and the sessions they buy: email codes, OAuth requests, desktop tickets. Each method is one
    database transaction; hashes are opaque texts. */
module Credentials {
  import opened Wrappers
  import opened Text

  datatype CodeRow = CodeRow(email: string, codeHash: string, expiresAt: int, createdAt: int, consumedAt: Option<int>)
  datatype OAuthRequest = OAuthRequest(kind: string, nonce: string, codeVerifier: string, returnTo: string,
                                       callbackUrl: string, desktopState: string, expiresAt: int)
  datatype RequestRow = RequestRow(request: OAuthRequest, consumedAt: Option<int>)
  datatype TicketRow = TicketRow(userId: nat, expiresAt: int, consumedAt: Option<int>)
  datatype SessionRow = SessionRow(userId: nat, csrfToken: string, expiresAt: int, createdAt: int)
  datatype Db = Db(codes: seq<CodeRow>, requests: map<string, RequestRow>, tickets: map<string, TicketRow>,
                   sessions: map<string, SessionRow>)
  datatype Error = NotFound | DuplicateKey | DisabledUser

  const EMPTY := Db([], map[], map[], map[])

  function Truncate(s: string, max: nat): (t: string)
    ensures t <= s && |t| <= max
    ensures |s| <= max ==> t == s
  {
    if |s| <= max then s else s[..max]
  }

  // ----- Email codes -----

  predicate Open(row: CodeRow, email: string) { row.email == email && row.consumedAt.None? }

  /** The open code of this email with the latest creation time among the first n rows; of equals, the later row. */
  function NewestOf(codes: seq<CodeRow>, email: string, n: nat): (r: Option<nat>)
    requires n <= |codes|
    ensures r.None? <==> forall i :: 0 <= i < n ==> !Open(codes[i], email)
    ensures r.Some? ==> r.value < n && Open(codes[r.value], email)
                        && forall i :: 0 <= i < n && Open(codes[i], email) ==> codes[i].createdAt <= codes[r.value].createdAt
  {
    if n == 0 then None
    else
      var before := NewestOf(codes, email, n - 1);
      if Open(codes[n - 1], email) && (before.None? || codes[before.value].createdAt <= codes[n - 1].createdAt)
      then Some(n - 1) else before
  }

  function SaveCode(db: Db, email: string, codeHash: string, expiresAt: int, now: int): Db {
    db.(codes := db.codes + [CodeRow(NormalizeEmail(email), codeHash, expiresAt, now, None)])
  }

  function ConsumeCode(db: Db, email: string, codeHash: string, now: int): (Db, Result<nat, Error>) {
    var newest := NewestOf(db.codes, NormalizeEmail(email), |db.codes|);
    if newest.None? then
      (db, Err(NotFound))
    else
      var row := db.codes[newest.value];
      if row.expiresAt <= now || row.codeHash != codeHash then
        (db, Err(NotFound))
      else
        (db.(codes := db.codes[newest.value := row.(consumedAt := Some(now))]), Ok(newest.value))
  }

  // ----- OAuth requests -----

  /** The fields are free of outer white space and fit their columns. */
  predicate FitsColumns(request: OAuthRequest) {
    && Trim(request.kind) == request.kind && |request.kind| <= 32
    && Trim(request.nonce) == request.nonce && |request.nonce| <= 128
    && Trim(request.codeVerifier) == request.codeVerifier && |request.codeVerifier| <= 128
    && Trim(request.returnTo) == request.returnTo && |request.returnTo| <= 2048
    && Trim(request.callbackUrl) == request.callbackUrl && |request.callbackUrl| <= 2048
    && Trim(request.desktopState) == request.desktopState && |request.desktopState| <= 512
  }

  function Stored(request: OAuthRequest): (stored: OAuthRequest)
    ensures FitsColumns(request) ==> stored == request
    ensures stored.kind <= Trim(request.kind) && |stored.kind| <= 32
    ensures stored.nonce <= Trim(request.nonce) && |stored.nonce| <= 128
    ensures stored.codeVerifier <= Trim(request.codeVerifier) && |stored.codeVerifier| <= 128
    ensures stored.returnTo <= Trim(request.returnTo) && |stored.returnTo| <= 2048
    ensures stored.callbackUrl <= Trim(request.callbackUrl) && |stored.callbackUrl| <= 2048
    ensures stored.desktopState <= Trim(request.desktopState) && |stored.desktopState| <= 512
    ensures stored.expiresAt == request.expiresAt
  {
    OAuthRequest(Truncate(Trim(request.kind), 32), Truncate(Trim(request.nonce), 128), Truncate(Trim(request.codeVerifier), 128),
                 Truncate(Trim(request.returnTo), 2048), Truncate(Trim(request.callbackUrl), 2048),
                 Truncate(Trim(request.desktopState), 512), request.expiresAt)
  }

  function SaveRequest(db: Db, stateHash: string, request: OAuthRequest): (Db, Option<Error>) {
    if stateHash in db.requests then (db, Some(DuplicateKey))
    else (db.(requests := db.requests[stateHash := RequestRow(Stored(request), None)]), None)
  }

  function ConsumeRequest(db: Db, stateHash: string, now: int): (Db, Result<OAuthRequest, Error>) {
    if stateHash !in db.requests || db.requests[stateHash].consumedAt.Some? || db.requests[stateHash].request.expiresAt <= now then
      (db, Err(NotFound))
    else
      var row := db.requests[stateHash];
      (db.(requests := db.requests[stateHash := row.(consumedAt := Some(now))]), Ok(row.request))
  }

  // ----- Desktop tickets -----

  function SaveTicket(db: Db, userId: nat, ticketHash: string, expiresAt: int): (Db, Option<Error>) {
    if ticketHash in db.tickets then (db, Some(DuplicateKey))
    else (db.(tickets := db.tickets[ticketHash := TicketRow(userId, expiresAt, None)]), None)
  }

  /** The account a ticket was for; whether that account is enabled is asked after the ticket is spent. */
  function ConsumeTicket(db: Db, ticketHash: string, now: int): (Db, Result<nat, Error>) {
    if ticketHash !in db.tickets || db.tickets[ticketHash].consumedAt.Some? || db.tickets[ticketHash].expiresAt <= now then
      (db, Err(NotFound))
    else
      var row := db.tickets[ticketHash];
      (db.(tickets := db.tickets[ticketHash := row.(consumedAt := Some(now))]), Ok(row.userId))
  }

  // ----- Sessions -----

  function AddSession(db: Db, tokenHash: string, row: SessionRow): (Db, Option<Error>) {
    if tokenHash in db.sessions then (db, Some(DuplicateKey))
    else (db.(sessions := db.sessions[tokenHash := row]), None)
  }

  /** The account a session token stands for; `enabled` is the account table as far as it matters here. */
  function FindUser(db: Db, enabled: map<nat, bool>, tokenHash: string, now: int): Result<nat, Error> {
    if tokenHash !in db.sessions || db.sessions[tokenHash].expiresAt <= now || db.sessions[tokenHash].userId !in enabled then
      Err(NotFound)
    else if !enabled[db.sessions[tokenHash].userId] then Err(DisabledUser)
    else Ok(db.sessions[tokenHash].userId)
  }

  function Revoke(db: Db, tokenHash: string): Db {
    db.(sessions := db.sessions - {tokenHash})
  }

  // ----- The store -----

  class CredentialStore {
    var codes: seq<CodeRow>
    var requests: map<string, RequestRow>
    var tickets: map<string, TicketRow>
    var sessions: map<string, SessionRow>

    ghost function View(): Db
      reads this
    {
      Db(codes, requests, tickets, sessions)
    }

    constructor ()
      ensures View() == EMPTY
    {
      codes, requests, tickets, sessions := [], map[], map[], map[];
    }

    method SaveEmailCode(email: string, codeHash: string, expiresAt: int, now: int)
      modifies this
      ensures View() == SaveCode(old(View()), email, codeHash, expiresAt, now)
    {
      codes := codes + [CodeRow(NormalizeEmail(email), codeHash, expiresAt, now, None)];
    }

    method ConsumeEmailCode(email: string, codeHash: string, now: int) returns (r: Result<nat, Error>)
      modifies this
      ensures (View(), r) == ConsumeCode(old(View()), email, codeHash, now)
    {
      var address := NormalizeEmail(email);
      var newest: Option<nat> := None;
      for i := 0 to |codes|
        invariant View() == old(View())
        invariant newest == NewestOf(codes, address, i)
      {
        if codes[i].email == address && codes[i].consumedAt.None?
           && (newest.None? || codes[newest.value].createdAt <= codes[i].createdAt) {
          newest := Some(i);
        }
      }
      if newest.None? {
        return Err(NotFound);
      }
      var challenge := codes[newest.value];
      if !(challenge.expiresAt > now) || challenge.codeHash != codeHash {
        return Err(NotFound);
      }
      codes := codes[newest.value := challenge.(consumedAt := Some(now))];
      return Ok(newest.value);
    }

    method SaveOAuthRequest(stateHash: string, request: OAuthRequest) returns (error: Option<Error>)
      modifies this
      ensures (View(), error) == SaveRequest(old(View()), stateHash, request)
    {
      if stateHash in requests {
        return Some(DuplicateKey);
      }
      requests := requests[stateHash := RequestRow(Stored(request), None)];
      return None;
    }

    method ConsumeOAuthRequest(stateHash: string, now: int) returns (r: Result<OAuthRequest, Error>)
      modifies this
      ensures (View(), r) == ConsumeRequest(old(View()), stateHash, now)
    {
      if stateHash !in requests || requests[stateHash].consumedAt.Some? {
        return Err(NotFound);
      }
      var request := requests[stateHash].request;
      if !(request.expiresAt > now) {
        return Err(NotFound);
      }
      requests := requests[stateHash := requests[stateHash].(consumedAt := Some(now))];
      return Ok(request);
    }

    method SaveDesktopSsoTicket(userId: nat, ticketHash: string, expiresAt: int) returns (error: Option<Error>)
      modifies this
      ensures (View(), error) == SaveTicket(old(View()), userId, ticketHash, expiresAt)
    {
      if ticketHash in tickets {
        return Some(DuplicateKey);
      }
      tickets := tickets[ticketHash := TicketRow(userId, expiresAt, None)];
      return None;
    }

    method ConsumeDesktopSsoTicket(ticketHash: string, now: int) returns (r: Result<nat, Error>)
      modifies this
      ensures (View(), r) == ConsumeTicket(old(View()), ticketHash, now)
    {
      if ticketHash in tickets && tickets[ticketHash].consumedAt.None? && tickets[ticketHash].expiresAt > now {
        tickets := tickets[ticketHash := tickets[ticketHash].(consumedAt := Some(now))];
      } else {
        return Err(NotFound);
      }
      return Ok(tickets[ticketHash].userId);
    }

    method CreateSession(userId: nat, tokenHash: string, csrfToken: string, expiresAt: int, now: int) returns (error: Option<Error>)
      modifies this
      ensures (View(), error) == AddSession(old(View()), tokenHash, SessionRow(userId, csrfToken, expiresAt, now))
    {
      if tokenHash in sessions {
        return Some(DuplicateKey);
      }
      sessions := sessions[tokenHash := SessionRow(userId, csrfToken, expiresAt, now)];
      return None;
    }

    method FindUserBySession(enabled: map<nat, bool>, tokenHash: string, now: int) returns (r: Result<nat, Error>)
      ensures r == FindUser(View(), enabled, tokenHash, now)
    {
      if tokenHash !in sessions || !(sessions[tokenHash].expiresAt > now) {
        return Err(NotFound);
      }
      var userId := sessions[tokenHash].userId;
      if userId !in enabled {
        return Err(NotFound);
      }
      if !enabled[userId] {
        return Err(DisabledUser);
      }
      return Ok(userId);
    }

    method RevokeSession(tokenHash: string)
      modifies this
      ensures View() == Revoke(old(View()), tokenHash)
    {
      sessions := sessions - {tokenHash};
    }
  }
}
