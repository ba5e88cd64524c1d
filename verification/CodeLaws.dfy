/** The open email codes of an address behave as a stack. */
module CodeLaws {
  import opened Wrappers
  import opened Text
  import opened Credentials

  /** Rows were created one after the other and expire in that order. */
  ghost predicate Chronological(codes: seq<CodeRow>) {
    forall i, j :: 0 <= i < j < |codes| ==> codes[i].createdAt < codes[j].createdAt && codes[i].expiresAt <= codes[j].expiresAt
  }

  /** The open codes of an address, oldest first. */
  function Stack(codes: seq<CodeRow>, email: string): seq<CodeRow> {
    if codes == [] then []
    else
      var n := |codes| - 1;
      Stack(codes[..n], email) + (if Open(codes[n], email) then [codes[n]] else [])
  }

  lemma {:induction false} StackOfOpen(codes: seq<CodeRow>, email: string)
    ensures forall r :: r in Stack(codes, email) <==> r in codes && Open(r, email)
  {
    if codes != [] {
      var n := |codes| - 1;
      StackOfOpen(codes[..n], email);
      assert codes == codes[..n] + [codes[n]];
    }
  }

  /** Rows that are not open for the address do not show. */
  lemma {:induction false} StackSkips(codes: seq<CodeRow>, email: string, top: nat)
    requires top <= |codes| && forall i :: top <= i < |codes| ==> !Open(codes[i], email)
    ensures Stack(codes, email) == Stack(codes[..top], email)
    decreases |codes|
  {
    if top < |codes| {
      var n := |codes| - 1;
      StackSkips(codes[..n], email, top);
      assert codes[..n][..top] == codes[..top];
    } else {
      assert codes[..top] == codes;
    }
  }

  lemma StackTop(codes: seq<CodeRow>, email: string, top: nat)
    requires top < |codes| && Open(codes[top], email)
    requires forall i :: top < i < |codes| ==> !Open(codes[i], email)
    ensures Stack(codes, email) == Stack(codes[..top], email) + [codes[top]]
  {
    StackSkips(codes, email, top + 1);
    assert codes[..top + 1][..top] == codes[..top];
  }

  lemma {:induction false} SameStack(a: seq<CodeRow>, b: seq<CodeRow>, email: string)
    requires |a| == |b| && forall i :: 0 <= i < |a| ==> a[i] == b[i] || (!Open(a[i], email) && !Open(b[i], email))
    ensures Stack(a, email) == Stack(b, email)
    decreases |a|
  {
    if a != [] {
      SameStack(a[..|a| - 1], b[..|b| - 1], email);
    }
  }

  /** In chronological order the newest open code is the last. */
  lemma NewestIsLast(codes: seq<CodeRow>, email: string)
    requires Chronological(codes)
    ensures var r := NewestOf(codes, email, |codes|);
            && (r.None? ==> Stack(codes, email) == [])
            && (r.Some? ==> (forall i :: r.value < i < |codes| ==> !Open(codes[i], email))
                            && Stack(codes, email) == Stack(codes[..r.value], email) + [codes[r.value]])
  {
    var r := NewestOf(codes, email, |codes|);
    if r.None? {
      StackSkips(codes, email, 0);
    } else {
      forall i | r.value < i < |codes| ensures !Open(codes[i], email) {
        assert codes[r.value].createdAt < codes[i].createdAt;
      }
      StackTop(codes, email, r.value);
    }
  }

  /** Saving a code pushes it. */
  lemma SavePushes(db: Db, email: string, codeHash: string, expiresAt: int, now: int, other: string)
    ensures var codes' := SaveCode(db, email, codeHash, expiresAt, now).codes;
            Stack(codes', other) == Stack(db.codes, other)
                                    + if other == NormalizeEmail(email) then [CodeRow(other, codeHash, expiresAt, now, None)] else []
  {}

  /** Trying a code pops the top of the stack if it is that code and still lives, and otherwise changes nothing. */
  lemma ConsumePops(db: Db, email: string, codeHash: string, now: int, other: string)
    requires Chronological(db.codes)
    ensures var (db', r) := ConsumeCode(db, email, codeHash, now);
            var stack := Stack(db.codes, NormalizeEmail(email));
            && (r.Ok? <==> stack != [] && stack[|stack| - 1].codeHash == codeHash && now < stack[|stack| - 1].expiresAt)
            && (r.Ok? ==>
                  && Stack(db'.codes, NormalizeEmail(email)) == stack[..|stack| - 1]
                  && r.value < |db.codes| && db.codes[r.value] == stack[|stack| - 1]
                  && db' == db.(codes := db.codes[r.value := stack[|stack| - 1].(consumedAt := Some(now))]))
            && (r.Err? ==> db' == db && r.error == NotFound)
            && (other != NormalizeEmail(email) ==> Stack(db'.codes, other) == Stack(db.codes, other))
  {
    var address := NormalizeEmail(email);
    NewestIsLast(db.codes, address);
    var (db', r) := ConsumeCode(db, email, codeHash, now);
    if r.Ok? {
      StackSkips(db'.codes, address, r.value);
      assert db'.codes[..r.value] == db.codes[..r.value];
      if other != address {
        SameStack(db.codes, db'.codes, other);
      }
    }
  }

  /** Refused because the newest open code has expired: then no open code of that address still lives. */
  lemma ExpiryRefusalIsFinal(db: Db, email: string, codeHash: string, now: int, row: CodeRow)
    requires Chronological(db.codes)
    requires var stack := Stack(db.codes, NormalizeEmail(email)); stack != [] && stack[|stack| - 1].expiresAt <= now
    requires row in db.codes && Open(row, NormalizeEmail(email))
    ensures ConsumeCode(db, email, codeHash, now).1.Err? && row.expiresAt <= now
  {
    var address := NormalizeEmail(email);
    NewestIsLast(db.codes, address);
    var newest := NewestOf(db.codes, address, |db.codes|).value;
    var i :| 0 <= i < |db.codes| && db.codes[i] == row;
    assert i <= newest;
    assert i < newest ==> db.codes[i].expiresAt <= db.codes[newest].expiresAt;
  }

  /** A code is accepted only when every newer code of its address has been consumed. */
  lemma OlderOnlyAfterNewer(db: Db, email: string, codeHash: string, now: int, later: nat)
    requires Chronological(db.codes)
    requires ConsumeCode(db, email, codeHash, now).1.Ok?
    requires ConsumeCode(db, email, codeHash, now).1.value < later < |db.codes| && db.codes[later].email == NormalizeEmail(email)
    ensures db.codes[later].consumedAt.Some?
  {}

  // ----- Runs -----

  datatype Event = Issue(email: string, codeHash: string, now: int) | Try(email: string, codeHash: string, now: int)

  function Apply(db: Db, e: Event, lifetime: int): Db {
    match e
    case Issue(email, codeHash, now) => SaveCode(db, email, codeHash, now + lifetime, now)
    case Try(email, codeHash, now) => ConsumeCode(db, email, codeHash, now).0
  }

  function Run(db: Db, events: seq<Event>, lifetime: int): Db
    decreases |events|
  {
    if events == [] then db else Run(Apply(db, events[0], lifetime), events[1..], lifetime)
  }

  /** The clock never goes back and no two codes are created at the same instant. */
  ghost predicate Clocked(events: seq<Event>) {
    forall i, j :: 0 <= i < j < |events|
                   ==> events[i].now <= events[j].now && (events[i].Issue? && events[j].Issue? ==> events[i].now < events[j].now)
  }

  /** What an event does to the open codes of one address when these are a plain stack. */
  function StackStep(stack: seq<CodeRow>, email: string, e: Event, lifetime: int): seq<CodeRow> {
    var top := |stack| - 1;
    if NormalizeEmail(e.email) != email then stack
    else if e.Issue? then stack + [CodeRow(email, e.codeHash, e.now + lifetime, e.now, None)]
    else if stack != [] && stack[top].codeHash == e.codeHash && e.now < stack[top].expiresAt then stack[..top]
    else stack
  }

  function StackRun(stack: seq<CodeRow>, email: string, events: seq<Event>, lifetime: int): seq<CodeRow>
    decreases |events|
  {
    if events == [] then stack
    else StackRun(StackStep(stack, email, events[0], lifetime), email, events[1..], lifetime)
  }

  ghost predicate CreatedBefore(codes: seq<CodeRow>, events: seq<Event>, lifetime: int) {
    forall i, j :: 0 <= i < |codes| && 0 <= j < |events| && events[j].Issue?
                   ==> codes[i].createdAt < events[j].now && codes[i].expiresAt <= events[j].now + lifetime
  }

  lemma IssueKeepsOrder(codes: seq<CodeRow>, row: CodeRow, e: Event, rest: seq<Event>, lifetime: int)
    requires e.Issue? && row.createdAt == e.now && row.expiresAt == e.now + lifetime
    requires Chronological(codes) && CreatedBefore(codes, [e] + rest, lifetime)
    requires forall j :: 0 <= j < |rest| && rest[j].Issue? ==> e.now < rest[j].now
    ensures Chronological(codes + [row]) && CreatedBefore(codes + [row], rest, lifetime)
  {
    var all := [e] + rest;
    assert all[0] == e && all[0].Issue?;
    assert forall j :: 0 <= j < |rest| ==> all[j + 1] == rest[j];
  }

  lemma SameTimesKeepOrder(codes: seq<CodeRow>, codes': seq<CodeRow>, e: Event, rest: seq<Event>, lifetime: int)
    requires |codes| == |codes'|
    requires forall i :: 0 <= i < |codes| ==> codes[i].createdAt == codes'[i].createdAt && codes[i].expiresAt == codes'[i].expiresAt
    requires Chronological(codes) && CreatedBefore(codes, [e] + rest, lifetime)
    ensures Chronological(codes') && CreatedBefore(codes', rest, lifetime)
  {
    var all := [e] + rest;
    assert forall j :: 0 <= j < |rest| ==> all[j + 1] == rest[j];
  }

  lemma ApplyKeepsOrder(db: Db, events: seq<Event>, lifetime: int)
    requires events != [] && Clocked(events)
    requires Chronological(db.codes) && CreatedBefore(db.codes, events, lifetime)
    ensures var db' := Apply(db, events[0], lifetime);
            Chronological(db'.codes) && CreatedBefore(db'.codes, events[1..], lifetime)
  {
    var e, rest := events[0], events[1..];
    assert events == [e] + rest;
    var db' := Apply(db, e, lifetime);
    if e.Issue? {
      forall j | 0 <= j < |rest| && rest[j].Issue? ensures e.now < rest[j].now {
        assert rest[j] == events[j + 1];
      }
      IssueKeepsOrder(db.codes, db'.codes[|db.codes|], e, rest, lifetime);
    } else {
      SameTimesKeepOrder(db.codes, db'.codes, e, rest, lifetime);
    }
  }

  lemma StepSimulatesStack(db: Db, e: Event, lifetime: int, email: string)
    requires Chronological(db.codes)
    ensures Stack(Apply(db, e, lifetime).codes, email) == StackStep(Stack(db.codes, email), email, e, lifetime)
  {
    match e
    case Issue(address, codeHash, now) =>
      SavePushes(db, address, codeHash, now + lifetime, now, email);
      assert Stack(db.codes, email) + [] == Stack(db.codes, email);
    case Try(address, codeHash, now) =>
      ConsumePops(db, address, codeHash, now, email);
  }

  /** Over any run the table of codes simulates one stack per address. */
  lemma {:induction false} CodesAreStacks(db: Db, events: seq<Event>, lifetime: int, email: string)
    requires Clocked(events) && Chronological(db.codes) && CreatedBefore(db.codes, events, lifetime)
    ensures Chronological(Run(db, events, lifetime).codes)
    ensures Stack(Run(db, events, lifetime).codes, email) == StackRun(Stack(db.codes, email), email, events, lifetime)
    decreases |events|
  {
    if events != [] {
      var e := events[0];
      ApplyKeepsOrder(db, events, lifetime);
      StepSimulatesStack(db, e, lifetime, email);
      CodesAreStacks(Apply(db, e, lifetime), events[1..], lifetime, email);
    }
  }
}
