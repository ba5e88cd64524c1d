/** The directory catalog and the SQLite catalog do the same: from empty stores, over any edits whose editors echo a pair
    they loaded, both accept the same saves and then show the same feeds and histories. */
module Bisimulation {
  import opened Wrappers
  import opened Updates
  import opened DirectoryUpdates
  import opened DirectoryReads
  import opened SaveCrashes
  import opened SqliteLaws
  import Sql = SqliteUpdates
  import Files = DirectoryRuns
  import Migration

  // ----- When the two stores hold the same feed -----

  /** Revisions count up from one, and every recorded manifest can be written and read again. */
  ghost predicate Numbered(c: Codec, history: seq<UpdateFeed>) {
    forall i :: 0 <= i < |history| ==>
      history[i].revision == i + 1 && history[i].manifest.Some?
      && Valid(c, history[i].manifest.value) && Fits(c, history[i].manifest.value)
  }

  /** The document that a revision stands for. */
  function DocumentAt(c: Codec, history: seq<UpdateFeed>, revision: nat): Option<(string, bool)>
    requires revision <= |history| && forall i :: 0 <= i < |history| ==> history[i].manifest.Some?
  {
    if revision == 0 then None
    else
      var feed := history[revision - 1];
      Some((SavedText(c, feed.manifest.value), feed.enabled))
  }

  /** The pair that a load at a revision gives. */
  function EchoAt(c: Codec, history: seq<UpdateFeed>, revision: nat): (int, ETag)
    requires revision <= |history| && forall i :: 0 <= i < |history| ==> history[i].manifest.Some?
  {
    var document := DocumentAt(c, history, revision);
    if document.None? then (0, NoTag) else (revision, Tag(c.digest(document.value.0), document.value.1, revision))
  }

  ghost predicate SqlHolds(c: Codec, db: Sql.Db, name: string, history: seq<UpdateFeed>) {
    && Sql.FeedsOf(c, name, Sql.RowsOf(db, name)) == Ok(history)
    && (name in db.feeds <==> history != []) && (name in db.feeds ==> db.feeds[name] == |history|)
  }

  ghost predicate DirectoryHolds(c: Codec, d: Dir, name: string, history: seq<UpdateFeed>) {
    && Numbered(c, history)
    && FullHistory(c, d, name) == Ok(history)
    && Visible(d, name) == DocumentAt(c, history, |history|)
  }

  /** One history in both stores, its end current, and its last document visible. */
  ghost predicate Holds(c: Codec, db: Sql.Db, d: Dir, name: string, history: seq<UpdateFeed>) {
    && Numbered(c, history) && (history != [] ==> ValidName(name))
    && SqlHolds(c, db, name, history) && DirectoryHolds(c, d, name, history)
  }

  // ----- Reading -----

  lemma NumberedRows(c: Codec, name: string, rows: seq<Sql.Row>, history: seq<UpdateFeed>)
    requires Numbered(c, history) && Sql.FeedsOf(c, name, rows) == Ok(history)
    ensures |rows| == |history| && forall i :: 0 <= i < |rows| ==> rows[i].revision == i + 1
    ensures Ordered(rows) && Sql.MaxRevision(rows) == |rows|
  {}

  lemma SqlReads(c: Codec, db: Sql.Db, d: Dir, name: string, history: seq<UpdateFeed>)
    requires Holds(c, db, d, name, history)
    ensures Sql.Get(c, db, name) == if history == [] then Err(NotFound) else Ok(history[|history| - 1])
    ensures history != [] ==>
              Sql.Public(c, db, name) == if history[|history| - 1].enabled then Ok(history[|history| - 1].manifest.value)
                                         else Err(NotFound)
    ensures history == [] ==> Sql.Public(c, db, name) == Err(NotFound)
  {}

  lemma DirectoryShows(c: Codec, db: Sql.Db, d: Dir, name: string, history: seq<UpdateFeed>)
    requires Lawful(c) && Holds(c, db, d, name, history)
    ensures EchoOf(Get(c, d, name)) == EchoAt(c, history, |history|)
    ensures history == [] ==> Get(c, d, name) == Err(NotFound)
    ensures history != [] ==>
              && Get(c, d, name).Ok?
              && var feed, last := Get(c, d, name).value, history[|history| - 1];
                 feed == UpdateFeed(feed.etag, name, last.description, last.enabled, |history|, feed.updatedAt, last.updatedBy,
                                    last.manifest)
  {}

  lemma PublicReads(c: Codec, db: Sql.Db, d: Dir, name: string, history: seq<UpdateFeed>)
    requires Lawful(c) && Holds(c, db, d, name, history)
    ensures Public(c, d, name) == if history != [] && history[|history| - 1].enabled
                                  then Ok(history[|history| - 1].manifest.value) else Err(NotFound)
  {}

  /** Equal in everything an Admin or the public sees of a feed but the tag and the time. */
  predicate SameFeed(a: Result<UpdateFeed, Error>, b: Result<UpdateFeed, Error>) {
    if a.Ok? then b.Ok? && b.value == a.value.(etag := b.value.etag, updatedAt := b.value.updatedAt) else a == b
  }

  /** Stores that hold the same feed answer every question about it the same way, but that the directory shows an empty
      history where SQLite finds no feed. */
  lemma ReadsAgree(c: Codec, db: Sql.Db, d: Dir, name: string, history: seq<UpdateFeed>)
    requires Lawful(c) && Holds(c, db, d, name, history)
    ensures SameFeed(Sql.Get(c, db, name), Get(c, d, name))
    ensures Public(c, d, name) == Sql.Public(c, db, name)
    ensures History(c, d, name) == Sql.History(c, db, name) <==> history != [] || !ValidName(name)
    ensures history == [] && ValidName(name) ==> History(c, d, name) == Ok([]) && Sql.History(c, db, name) == Err(NotFound)
  {
    SqlReads(c, db, d, name, history);
    DirectoryShows(c, db, d, name, history);
    PublicReads(c, db, d, name, history);
    if history != [] {
      assert Sql.FeedsOf(c, name, Sql.RowsOf(db, name)).value[|history| - 1].name == name by {
        LastNamed(c, name, Sql.RowsOf(db, name));
      }
      Migration.NewestFeedsFirst(c, name, Sql.RowsOf(db, name), HISTORY_SHOWN);
    }
  }

  lemma LastNamed(c: Codec, name: string, rows: seq<Sql.Row>)
    requires rows != [] && Sql.FeedsOf(c, name, rows).Ok?
    ensures Sql.FeedsOf(c, name, rows).value[|rows| - 1].name == name
  {}

  // ----- Saving -----

  /** For stores that hold the same feed: the directory admits a save exactly when SQLite accepts it, the tag is that of
      the shown document, and the history still fits. */
  lemma AdmitsExactlyWhen(c: Codec, db: Sql.Db, d: Dir, name: string, history: seq<UpdateFeed>, input: Input, actor: int, now: int)
    requires Lawful(c) && Holds(c, db, d, name, history)
    ensures Admit(c, d, name, input, actor, now)
            == if !ProperRequest(name, input, actor) || !Valid(c, input.manifest) then Err(Invalid)
               else if !Accepts(c, db, name, input, actor) || input.etag != EchoAt(c, history, |history|).1 then Err(Conflict)
               else if HistoryFits(c, Next(name, input, history, actor, now)) then Ok(Next(name, input, history, actor, now))
               else Err(TooLarge)
  {}

  lemma RowReadsBack(c: Codec, name: string, input: Input, revision: int, actor: int, now: int)
    requires Lawful(c) && input.enabled.Some? && Valid(c, input.manifest)
    ensures Sql.FeedOf(c, name, Sql.NewRow(c, input, revision, actor, now))
            == Ok(UpdateFeed(NoTag, name, input.description, input.enabled.value, revision, now, actor, Some(input.manifest)))
  {}

  lemma SqlKeepsHolding(c: Codec, db: Sql.Db, name: string, history: seq<UpdateFeed>, input: Input, actor: int, now: int)
    requires Lawful(c) && Numbered(c, history) && SqlHolds(c, db, name, history) && Accepts(c, db, name, input, actor)
    ensures SqlHolds(c, Sql.Save(c, db, name, input, actor, now).0, name, Next(name, input, history, actor, now))
  {
    var rows := Sql.RowsOf(db, name);
    NumberedRows(c, name, rows, history);
    var row := Sql.NewRow(c, input, |history| + 1, actor, now);
    SaveAppends(c, db, name, input, actor, now);
    RowReadsBack(c, name, input, |history| + 1, actor, now);
    Sql.FeedsOfAppend(c, name, rows, row);
    AppendedReads(db, name, row);
    assert Sql.Save(c, db, name, input, actor, now).0 == Appended(db, name, row);
  }

  lemma DirectoryKeepsHolding(c: Codec, d: Dir, name: string, history: seq<UpdateFeed>, input: Input, actor: int, now: int)
    requires Lawful(c) && Numbered(c, history) && DirectoryHolds(c, d, name, history)
    requires Fits(c, input.manifest) && Admit(c, d, name, input, actor, now).Ok?
    ensures var recorded := Next(name, input, history, actor, now);
            Numbered(c, recorded) && DirectoryHolds(c, AfterSteps(c, d, name, input, recorded, now, 3), name, recorded)
  {
    var recorded := Next(name, input, history, actor, now);
    AdmittedFacts(c, d, name, input, actor, now);
    SaveIsAtomic(c, d, name, input, recorded, now, 3);
    HistoryAfter(c, d, name, input, recorded, now, 3);
    NumberedNext(c, name, input, history, actor, now);
  }

  /** A save that both accept gives both the same longer history. */
  lemma SaveKeepsHolding(c: Codec, db: Sql.Db, d: Dir, name: string, history: seq<UpdateFeed>, input: Input, actor: int, now: int)
    requires Lawful(c) && Holds(c, db, d, name, history) && Accepts(c, db, name, input, actor)
    requires Fits(c, input.manifest) && Admit(c, d, name, input, actor, now).Ok?
    ensures var recorded := Next(name, input, history, actor, now);
            Holds(c, Sql.Save(c, db, name, input, actor, now).0, AfterSteps(c, d, name, input, recorded, now, 3), name, recorded)
  {
    SqlKeepsHolding(c, db, name, history, input, actor, now);
    DirectoryKeepsHolding(c, d, name, history, input, actor, now);
  }

  lemma NumberedNext(c: Codec, name: string, input: Input, history: seq<UpdateFeed>, actor: int, now: int)
    requires Numbered(c, history) && input.enabled.Some? && Valid(c, input.manifest) && Fits(c, input.manifest)
    ensures Numbered(c, Next(name, input, history, actor, now))
    ensures LastRevision(history) == |history|
  {}

  /** Saves to another feed leave it as it is in both stores. */
  lemma OtherKeepsHolding(c: Codec, db: Sql.Db, d: Dir, name: string, other: string, history: seq<UpdateFeed>, input: Input,
                          recorded: seq<UpdateFeed>, actor: int, now: int)
    requires Holds(c, db, d, other, history) && other != name && input.enabled.Some?
    ensures Holds(c, Sql.Save(c, db, name, input, actor, now).0, AfterSteps(c, d, name, input, recorded, now, 3), other, history)
  {
    SaveAppends(c, db, name, input, actor, now);
    OthersUntouched(c, d, name, input, recorded, now, 3, other);
  }

  // ----- Runs -----

  datatype Edit = Edit(name: string, input: Input, actor: int, now: int)

  function Answer(c: Codec, d: Dir, e: Edit): Result<seq<UpdateFeed>, Error> {
    Admit(c, d, e.name, e.input, e.actor, e.now)
  }

  /** The directory after saves that are never cut off, and nothing else. */
  function DirectoryRun(c: Codec, edits: seq<Edit>): Dir {
    Files.Run(c, EMPTY_DIR, seq(|edits|, i requires 0 <= i < |edits| =>
      Files.SaveFeed(edits[i].name, edits[i].input, edits[i].actor, edits[i].now, 3)))
  }

  /** The database after the same saves, without older tables. */
  function SqlRun(c: Codec, edits: seq<Edit>): Sql.Db {
    Reached(c, None, seq(|edits|, i requires 0 <= i < |edits| =>
      SaveFeed(edits[i].name, edits[i].input, edits[i].actor, edits[i].now)))
  }

  /** The editor of edit k echoes the pair of a load before edit j. */
  ghost predicate LoadedBy(c: Codec, edits: seq<Edit>, j: nat, k: nat)
    requires j <= k < |edits|
  {
    (edits[k].input.revision, edits[k].input.etag) == EchoOf(Get(c, DirectoryRun(c, edits[..j]), edits[k].name))
  }

  /** Every editor echoes a pair loaded some time before. */
  ghost predicate Echoed(c: Codec, edits: seq<Edit>) {
    forall k :: 0 <= k < |edits| ==> EchoesALoad(c, edits, k)
  }

  ghost predicate EchoesALoad(c: Codec, edits: seq<Edit>, k: nat)
    requires k < |edits|
  {
    exists j: nat :: j <= k && LoadedBy(c, edits, j, k)
  }

  /** The indented manifest and the history stay within their file limits. */
  ghost predicate InLimitsAt(c: Codec, edits: seq<Edit>, k: nat)
    requires k < |edits|
  {
    && (Valid(c, edits[k].input.manifest) ==> Fits(c, edits[k].input.manifest))
    && Answer(c, DirectoryRun(c, edits[..k]), edits[k]) != Err(TooLarge)
  }

  ghost predicate HoldsAt(c: Codec, edits: seq<Edit>, k: nat, name: string)
    requires k <= |edits|
  {
    var d := DirectoryRun(c, edits[..k]);
    FullHistory(c, d, name).Ok? && Holds(c, SqlRun(c, edits[..k]), d, name, FullHistory(c, d, name).value)
  }

  /** What was recorded before edit j is still there, first, before edit k. */
  ghost predicate Recalls(c: Codec, edits: seq<Edit>, j: nat, k: nat, name: string)
    requires j <= k <= |edits|
  {
    var old', new' := FullHistory(c, DirectoryRun(c, edits[..j]), name), FullHistory(c, DirectoryRun(c, edits[..k]), name);
    old'.Ok? && new'.Ok? && old'.value <= new'.value
  }

  /** Both catalogs accept edit k and then show the same feed, or both refuse it for the same reason. */
  ghost predicate SameAnswer(c: Codec, edits: seq<Edit>, k: nat)
    requires k < |edits|
  {
    var e := edits[k];
    var answer := Answer(c, DirectoryRun(c, edits[..k]), e);
    var reply := Sql.Save(c, SqlRun(c, edits[..k]), e.name, e.input, e.actor, e.now).1;
    if answer.Ok? then SameFeed(reply, Get(c, DirectoryRun(c, edits[..k + 1]), e.name)) else reply == Err(answer.error)
  }

  /** A revision names one document for good: an echoed pair with the current revision has the right tag. */
  lemma RevisionNamesDocument(c: Codec, edits: seq<Edit>, j: nat, k: nat)
    requires Lawful(c) && j <= k < |edits| && LoadedBy(c, edits, j, k)
    requires HoldsAt(c, edits, j, edits[k].name) && HoldsAt(c, edits, k, edits[k].name) && Recalls(c, edits, j, k, edits[k].name)
    ensures var e, history := edits[k], FullHistory(c, DirectoryRun(c, edits[..k]), edits[k].name).value;
            Accepts(c, SqlRun(c, edits[..k]), e.name, e.input, e.actor) ==> e.input.etag == EchoAt(c, history, |history|).1
  {
    var name := edits[k].name;
    var before := FullHistory(c, DirectoryRun(c, edits[..j]), name).value;
    var history := FullHistory(c, DirectoryRun(c, edits[..k]), name).value;
    DirectoryShows(c, SqlRun(c, edits[..j]), DirectoryRun(c, edits[..j]), name, before);
    if |before| == |history| {
      assert before == history;
    }
  }

  lemma RunsNext(c: Codec, edits: seq<Edit>, k: nat)
    requires k < |edits|
    ensures var d, e := DirectoryRun(c, edits[..k]), edits[k];
            && SqlRun(c, edits[..k + 1]) == Sql.Save(c, SqlRun(c, edits[..k]), e.name, e.input, e.actor, e.now).0
            && DirectoryRun(c, edits[..k + 1])
               == if Answer(c, d, e).Err? then d else AfterSteps(c, d, e.name, e.input, Answer(c, d, e).value, e.now, 3)
  {
    var e := edits[k];
    var files := seq(k, i requires 0 <= i < k => Files.SaveFeed(edits[i].name, edits[i].input, edits[i].actor, edits[i].now, 3));
    var rows := seq(k, i requires 0 <= i < k => SaveFeed(edits[i].name, edits[i].input, edits[i].actor, edits[i].now));
    RunsAre(c, edits, k, files, rows);
    RunsAre(c, edits, k + 1, files + [Files.SaveFeed(e.name, e.input, e.actor, e.now, 3)],
            rows + [SaveFeed(e.name, e.input, e.actor, e.now)]);
    Files.RunNext(c, EMPTY_DIR, files, Files.SaveFeed(e.name, e.input, e.actor, e.now, 3));
    RunNext(c, Sql.EnsureSchema(NewDb(None)), rows, SaveFeed(e.name, e.input, e.actor, e.now));
  }

  lemma RunsAre(c: Codec, edits: seq<Edit>, k: nat, files: seq<Files.Event>, rows: seq<Event>)
    requires |files| == |rows| == k <= |edits|
    requires forall i :: 0 <= i < k ==> files[i] == Files.SaveFeed(edits[i].name, edits[i].input, edits[i].actor, edits[i].now, 3)
    requires forall i :: 0 <= i < k ==> rows[i] == SaveFeed(edits[i].name, edits[i].input, edits[i].actor, edits[i].now)
    ensures DirectoryRun(c, edits[..k]) == Files.Run(c, EMPTY_DIR, files) && SqlRun(c, edits[..k]) == Reached(c, None, rows)
  {
    var part := edits[..k];
    assert files == seq(|part|, i requires 0 <= i < |part| =>
      Files.SaveFeed(part[i].name, part[i].input, part[i].actor, part[i].now, 3));
    assert rows == seq(|part|, i requires 0 <= i < |part| => SaveFeed(part[i].name, part[i].input, part[i].actor, part[i].now));
  }

  /** The directory admits edit k exactly when SQLite accepts it. */
  lemma AnswersAgree(c: Codec, edits: seq<Edit>, j: nat, k: nat)
    requires Lawful(c) && j <= k < |edits| && LoadedBy(c, edits, j, k) && InLimitsAt(c, edits, k)
    requires HoldsAt(c, edits, j, edits[k].name) && HoldsAt(c, edits, k, edits[k].name) && Recalls(c, edits, j, k, edits[k].name)
    ensures var d, db, e := DirectoryRun(c, edits[..k]), SqlRun(c, edits[..k]), edits[k];
            var history := FullHistory(c, d, e.name).value;
            && (Answer(c, d, e).Ok? <==> Accepts(c, db, e.name, e.input, e.actor))
            && (Answer(c, d, e).Ok? ==> Answer(c, d, e).value == Next(e.name, e.input, history, e.actor, e.now))
            && (Answer(c, d, e).Err? ==> Sql.Save(c, db, e.name, e.input, e.actor, e.now) == (db, Err(Answer(c, d, e).error)))
  {
    var d, db, e := DirectoryRun(c, edits[..k]), SqlRun(c, edits[..k]), edits[k];
    RevisionNamesDocument(c, edits, j, k);
    AdmitsExactlyWhen(c, db, d, e.name, FullHistory(c, d, e.name).value, e.input, e.actor, e.now);
  }

  lemma StepAgrees(c: Codec, edits: seq<Edit>, j: nat, k: nat, name: string)
    requires Lawful(c) && j <= k < |edits| && LoadedBy(c, edits, j, k) && InLimitsAt(c, edits, k)
    requires HoldsAt(c, edits, j, edits[k].name) && HoldsAt(c, edits, k, edits[k].name) && Recalls(c, edits, j, k, edits[k].name)
    requires HoldsAt(c, edits, k, name)
    ensures HoldsAt(c, edits, k + 1, name) && Recalls(c, edits, k, k + 1, name)
  {
    var d, db, e := DirectoryRun(c, edits[..k]), SqlRun(c, edits[..k]), edits[k];
    var history := FullHistory(c, d, name).value;
    RunsNext(c, edits, k);
    AnswersAgree(c, edits, j, k);
    if Answer(c, d, e).Ok? {
      AdmittedFacts(c, d, e.name, e.input, e.actor, e.now);
      if name == e.name {
        SaveKeepsHolding(c, db, d, name, history, e.input, e.actor, e.now);
      } else {
        OtherKeepsHolding(c, db, d, e.name, name, history, e.input, Answer(c, d, e).value, e.actor, e.now);
      }
    }
  }

  lemma AnswerShown(c: Codec, edits: seq<Edit>, j: nat, k: nat)
    requires Lawful(c) && j <= k < |edits| && LoadedBy(c, edits, j, k) && InLimitsAt(c, edits, k)
    requires HoldsAt(c, edits, j, edits[k].name) && HoldsAt(c, edits, k, edits[k].name) && Recalls(c, edits, j, k, edits[k].name)
    ensures SameAnswer(c, edits, k)
  {
    var d, db, e := DirectoryRun(c, edits[..k]), SqlRun(c, edits[..k]), edits[k];
    var history := FullHistory(c, d, e.name).value;
    RunsNext(c, edits, k);
    AnswersAgree(c, edits, j, k);
    if Answer(c, d, e).Ok? {
      AdmittedFacts(c, d, e.name, e.input, e.actor, e.now);
      SaveKeepsHolding(c, db, d, e.name, history, e.input, e.actor, e.now);
      DirectoryShows(c, SqlRun(c, edits[..k + 1]), DirectoryRun(c, edits[..k + 1]), e.name,
                     Next(e.name, e.input, history, e.actor, e.now));
      SaveAppends(c, db, e.name, e.input, e.actor, e.now);
      NumberedRows(c, e.name, Sql.RowsOf(db, e.name), history);
    }
  }

  lemma RecallsOn(c: Codec, edits: seq<Edit>, i: nat, k: nat, name: string)
    requires i <= k < |edits| && Recalls(c, edits, i, k, name) && Recalls(c, edits, k, k + 1, name)
    ensures Recalls(c, edits, i, k + 1, name) && Recalls(c, edits, k + 1, k + 1, name)
  {}

  lemma EmptyStoresHold(c: Codec, edits: seq<Edit>, name: string)
    ensures HoldsAt(c, edits, 0, name)
  {}

  /** Before any edit j and any later edit k the stores hold the same feeds, and at k nothing recorded by j is lost. */
  lemma {:induction false} RunsAgree(c: Codec, edits: seq<Edit>, j: nat, k: nat, name: string)
    requires Lawful(c) && Echoed(c, edits) && j <= k <= |edits|
    requires forall i :: 0 <= i < |edits| ==> InLimitsAt(c, edits, i)
    ensures HoldsAt(c, edits, j, name) && HoldsAt(c, edits, k, name) && Recalls(c, edits, j, k, name)
    decreases k
  {
    if k == 0 {
      EmptyStoresHold(c, edits, name);
    } else {
      var last := k - 1;
      RunsAgree(c, edits, if j < k then j else last, last, name);
      assert EchoesALoad(c, edits, last);
      var load: nat :| load <= last && LoadedBy(c, edits, load, last);
      RunsAgree(c, edits, load, last, edits[last].name);
      StepAgrees(c, edits, load, last, name);
      RecallsOn(c, edits, if j < k then j else last, last, name);
    }
  }

  lemma AllAnswersAgree(c: Codec, edits: seq<Edit>, k: nat)
    requires Lawful(c) && Echoed(c, edits) && k < |edits|
    requires forall i :: 0 <= i < |edits| ==> InLimitsAt(c, edits, i)
    ensures SameAnswer(c, edits, k)
  {
    assert EchoesALoad(c, edits, k);
    var load: nat :| load <= k && LoadedBy(c, edits, load, k);
    RunsAgree(c, edits, load, k, edits[k].name);
    AnswerShown(c, edits, load, k);
  }

  /** From empty stores, over any run of edits that echo loaded pairs and stay within the file limits: both catalogs give
      every edit the same answer, and at the end show the same feeds, public documents and histories. */
  lemma CatalogsAgree(c: Codec, edits: seq<Edit>)
    requires Lawful(c) && Echoed(c, edits)
    requires forall i :: 0 <= i < |edits| ==> InLimitsAt(c, edits, i)
    ensures forall i :: 0 <= i < |edits| ==> SameAnswer(c, edits, i)
    ensures var db, d := SqlRun(c, edits), DirectoryRun(c, edits);
            forall name ::
              && SameFeed(Sql.Get(c, db, name), Get(c, d, name))
              && Public(c, d, name) == Sql.Public(c, db, name)
              && (name in db.feeds ==> History(c, d, name) == Sql.History(c, db, name))
  {
    forall k | 0 <= k < |edits| ensures SameAnswer(c, edits, k) {
      AllAnswersAgree(c, edits, k);
    }
    assert edits[..|edits|] == edits;
    var db, d := SqlRun(c, edits), DirectoryRun(c, edits);
    forall name
      ensures SameFeed(Sql.Get(c, db, name), Get(c, d, name))
      ensures Public(c, d, name) == Sql.Public(c, db, name)
      ensures name in db.feeds ==> History(c, d, name) == Sql.History(c, db, name)
    {
      RunsAgree(c, edits, |edits|, |edits|, name);
      ReadsAgree(c, db, d, name, FullHistory(c, d, name).value);
    }
  }
}
