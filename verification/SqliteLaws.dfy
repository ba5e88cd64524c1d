/** What holds of the SQLite catalog over any sequence of restarts and saves. */
module SqliteLaws {
  import opened Wrappers
  import opened Updates
  import opened SqliteUpdates

  datatype Event = Restart | SaveFeed(name: string, input: Input, actor: int, now: int)

  function Step(c: Codec, db: Db, e: Event): Db {
    match e
    case Restart => EnsureSchema(db)
    case SaveFeed(name, input, actor, now) => Save(c, db, name, input, actor, now).0
  }

  function Run(c: Codec, db: Db, events: seq<Event>): Db
    decreases |events|
  {
    if events == [] then db else Run(c, Step(c, db, events[0]), events[1..])
  }

  lemma {:induction false} RunNext(c: Codec, db: Db, events: seq<Event>, e: Event)
    ensures Run(c, db, events + [e]) == Step(c, Run(c, db, events), e)
    decreases |events|
  {
    var all := events + [e];
    if events == [] {
      assert all[1..] == [];
    } else {
      assert all[1..] == events[1..] + [e];
      RunNext(c, Step(c, db, events[0]), events[1..], e);
    }
  }

  /** A new database file beside whatever older tables there are. */
  function NewDb(legacy: Option<Legacy>): Db { Db(map[], map[], false, legacy) }

  /** The service creates the schema before anything else. */
  function Reached(c: Codec, legacy: Option<Legacy>, events: seq<Event>): Db {
    Run(c, EnsureSchema(NewDb(legacy)), events)
  }

  /** The older tables: distinct ids in order, and a current id that is one of them. */
  predicate SoundLegacy(legacy: Option<Legacy>) {
    legacy.Some? ==>
      && (forall i, j :: 0 <= i < j < |legacy.value.releases| ==> legacy.value.releases[i].id < legacy.value.releases[j].id)
      && (legacy.value.current.Some? ==>
            exists i :: 0 <= i < |legacy.value.releases| && legacy.value.releases[i].id == legacy.value.current.value)
  }

  // ----- Rows of one feed -----

  ghost predicate Ordered(rows: seq<Row>) {
    forall i, j :: 0 <= i < j < |rows| ==> rows[i].revision < rows[j].revision
  }

  /** A row as the migration wrote it. */
  predicate IsLegacyRow(row: Row) { row.description == "" && row.enabled && row.updatedBy == 0 }

  predicate AllLegacy(rows: seq<Row>) {
    forall i :: 0 <= i < |rows| ==> IsLegacyRow(rows[i])
  }

  /** A row as a save wrote it. */
  ghost predicate IsSavedRow(c: Codec, row: Row) {
    row.updatedBy > 0 && exists m :: Valid(c, m) && row.manifest == c.compact(m)
  }

  ghost predicate KnownRows(c: Codec, name: string, rows: seq<Row>) {
    forall i :: 0 <= i < |rows| ==> IsSavedRow(c, rows[i]) || (name == LEGACY_NAME && IsLegacyRow(rows[i]))
  }

  /** The current revision is stored, and is the newest one unless the feed has been left as migrated. */
  ghost predicate GoodCurrent(db: Db, name: string) {
    name in db.feeds ==>
      && ValidName(name)
      && FindRow(RowsOf(db, name), db.feeds[name]).Some?
      && (db.feeds[name] == MaxRevision(RowsOf(db, name)) || (name == LEGACY_NAME && AllLegacy(RowsOf(db, name))))
  }

  ghost predicate FeedInv(c: Codec, db: Db, name: string) {
    Ordered(RowsOf(db, name)) && KnownRows(c, name, RowsOf(db, name)) && GoodCurrent(db, name)
  }

  ghost predicate Inv(c: Codec, db: Db) {
    && SoundLegacy(db.legacy)
    && (!db.migrated ==> db.feeds == map[] && db.rows == map[])
    && forall name :: FeedInv(c, db, name)
  }

  lemma InsertLast(rows: seq<Row>, row: Row)
    requires rows != [] ==> rows[|rows| - 1].revision < row.revision
    ensures InsertRow(rows, row) == Some(rows + [row])
  {
    assert rows == [] ==> [row] == rows + [row];
  }

  /** A row with a fresh top revision goes to the end and is found there. */
  lemma InsertAtEnd(rows: seq<Row>, row: Row)
    requires row.revision == MaxRevision(rows) + 1
    ensures InsertRow(rows, row) == Some(rows + [row])
    ensures FindRow(rows, row.revision).None? && FindRow(rows + [row], row.revision) == Some(row)
    ensures Ordered(rows) ==> Ordered(rows + [row])
    ensures MaxRevision(rows + [row]) == row.revision
  {
    InsertLast(rows, row);
    assert (rows + [row])[..|rows|] == rows;
    assert (rows + [row])[|rows|] == row;
  }

  /** The primary key: a row goes to its place in the order, unless a row with its revision is already there. */
  lemma {:induction false} InsertsExactly(rows: seq<Row>, row: Row) returns (i: nat)
    requires Ordered(rows)
    ensures i <= |rows|
    ensures forall k :: 0 <= k < i ==> rows[k].revision < row.revision
    ensures forall k :: i <= k < |rows| ==> rows[k].revision >= row.revision
    ensures InsertRow(rows, row) == if i < |rows| && rows[i].revision == row.revision then None
                                    else Some(rows[..i] + [row] + rows[i..])
  {
    var n := |rows| - 1;
    if rows == [] || rows[n].revision < row.revision {
      i := |rows|;
      assert rows[..i] == rows && rows[i..] == [];
      assert rows + [row] == rows[..i] + [row] + rows[i..];
      assert rows == [] ==> [row] == rows + [row];
    } else if rows[n].revision == row.revision {
      i := n;
    } else {
      i := InsertsExactly(rows[..n], row);
      PlaceBefore(rows, row, i);
    }
  }

  lemma PlaceBefore(rows: seq<Row>, row: Row, i: nat)
    requires i < |rows|
    ensures var n := |rows| - 1; rows[..n][..i] + [row] + rows[..n][i..] + [rows[n]] == rows[..i] + [row] + rows[i..]
  {}

  function LegacyRows(releases: seq<LegacyRelease>): (rows: seq<Row>)
    ensures |rows| == |releases| && forall i :: 0 <= i < |rows| ==> rows[i] == LegacyRow(releases[i])
  {
    seq(|releases|, i requires 0 <= i < |releases| => LegacyRow(releases[i]))
  }

  lemma {:induction false} LegacyInserts(releases: seq<LegacyRelease>)
    requires forall i, j :: 0 <= i < j < |releases| ==> releases[i].id < releases[j].id
    ensures InsertAll([], releases) == Some(LegacyRows(releases))
  {
    if releases != [] {
      var n := |releases| - 1;
      LegacyInserts(releases[..n]);
      var before := LegacyRows(releases[..n]);
      assert n > 0 ==> before[n - 1].revision < releases[n].id;
      InsertLast(before, LegacyRow(releases[n]));
      assert before + [LegacyRow(releases[n])] == LegacyRows(releases);
    } else {
      assert LegacyRows(releases) == [];
    }
  }

  // ----- One event -----

  lemma MigrationKeepsInv(c: Codec, db: Db)
    requires Inv(c, db)
    ensures Inv(c, EnsureSchema(db)) && EnsureSchema(db).migrated && EnsureSchema(db).legacy == db.legacy
    ensures forall name :: RowsOf(db, name) <= RowsOf(EnsureSchema(db), name)
  {
    var db' := EnsureSchema(db);
    assert ValidName(LEGACY_NAME);
    if !db.migrated && db.legacy.Some? {
      var source := db.legacy.value;
      LegacyInserts(source.releases);
      assert db'.rows == map[LEGACY_NAME := LegacyRows(source.releases)];
      if source.current.Some? {
        var i :| 0 <= i < |source.releases| && source.releases[i].id == source.current.value;
        assert LegacyRows(source.releases)[i].revision == source.current.value;
      }
      forall name ensures FeedInv(c, db', name) {
        assert FeedInv(c, db, name);
      }
    } else {
      forall name ensures FeedInv(c, db', name) {
        assert FeedInv(c, db, name);
        assert RowsOf(db', name) == RowsOf(db, name);
      }
    }
  }

  /** The first start puts every older release, in order, under the existing public name and shows the current one. */
  lemma MigrationKeepsReleases(c: Codec, legacy: Legacy, i: nat)
    requires SoundLegacy(Some(legacy)) && i < |legacy.releases| && legacy.current == Some(legacy.releases[i].id)
    ensures var db := EnsureSchema(NewDb(Some(legacy)));
            var rows := RowsOf(db, LEGACY_NAME);
            && |rows| == |legacy.releases|
            && (forall k :: 0 <= k < |rows| ==>
                  rows[k].revision == legacy.releases[k].id && rows[k].manifest == legacy.releases[k].manifest
                  && rows[k].updatedAt == legacy.releases[k].createdAt)
            && Public(c, db, LEGACY_NAME) == Decode(c, legacy.releases[i].manifest)
  {
    FirstStart(legacy);
    assert ValidName(LEGACY_NAME);
    CurrentIsShown(c, EnsureSchema(NewDb(Some(legacy))), LEGACY_NAME, LegacyRows(legacy.releases), i);
  }

  lemma FirstStart(legacy: Legacy)
    requires SoundLegacy(Some(legacy))
    ensures var db := EnsureSchema(NewDb(Some(legacy)));
            && RowsOf(db, LEGACY_NAME) == LegacyRows(legacy.releases) && Ordered(RowsOf(db, LEGACY_NAME))
            && (if legacy.current.Some? then LEGACY_NAME in db.feeds && db.feeds[LEGACY_NAME] == legacy.current.value
                else db.feeds == map[])
  {
    LegacyInserts(legacy.releases);
  }

  lemma CurrentIsShown(c: Codec, db: Db, name: string, rows: seq<Row>, i: nat)
    requires ValidName(name) && RowsOf(db, name) == rows && Ordered(rows) && i < |rows|
    requires name in db.feeds && db.feeds[name] == rows[i].revision
    ensures Public(c, db, name) == if rows[i].enabled then Decode(c, rows[i].manifest) else Err(NotFound)
  {
    FindsInOrder(rows, i);
  }

  lemma {:induction false} FindsInOrder(rows: seq<Row>, i: nat)
    requires Ordered(rows) && i < |rows|
    ensures FindRow(rows, rows[i].revision) == Some(rows[i])
    decreases |rows|
  {
    if i < |rows| - 1 {
      FindsInOrder(rows[..|rows| - 1], i);
    }
  }

  /** A row appended to a feed is its last and its current one. */
  lemma AppendedReads(db: Db, name: string, row: Row)
    ensures var db' := Appended(db, name, row);
            && RowsOf(db', name) == RowsOf(db, name) + [row]
            && name in db'.feeds && db'.feeds[name] == row.revision
  {}

  function NextRevision(db: Db, name: string): int { MaxRevision(RowsOf(db, name)) + 1 }

  predicate Accepts(c: Codec, db: Db, name: string, input: Input, actor: int) {
    && ProperRequest(name, input, actor) && Valid(c, input.manifest)
    && (if name in db.feeds then db.feeds[name] else 0) == input.revision
  }

  /** The database with one more row in this feed as its current one. */
  function Appended(db: Db, name: string, row: Row): Db {
    db.(rows := db.rows[name := RowsOf(db, name) + [row]], feeds := db.feeds[name := row.revision])
  }

  /** A proper save on a matching revision always goes through: it appends one row with a fresh revision to its feed,
      points at it, and leaves the other feeds alone. Any other save changes nothing. */
  lemma SaveAppends(c: Codec, db: Db, name: string, input: Input, actor: int, now: int)
    ensures var (db', r) := Save(c, db, name, input, actor, now);
            && (r.Ok? <==> Accepts(c, db, name, input, actor))
            && (r.Err? ==> db' == db)
            && (r.Ok? ==>
                  && r.value.revision == NextRevision(db, name)
                  && FindRow(RowsOf(db, name), r.value.revision).None?
                  && db' == Appended(db, name, NewRow(c, input, r.value.revision, actor, now)))
  {
    if Accepts(c, db, name, input, actor) {
      InsertAtEnd(RowsOf(db, name), NewRow(c, input, NextRevision(db, name), actor, now));
    }
  }

  /** What is read of a feed in a sound database: nothing of one that is improper or unknown; otherwise the current row, and
      to the public only an enabled one. */
  lemma ReadsExactly(c: Codec, db: Db, name: string)
    requires GoodCurrent(db, name)
    ensures !ValidName(name) || name !in db.feeds ==>
              Get(c, db, name) == Err(NotFound) && Public(c, db, name) == Err(NotFound) && History(c, db, name) == Err(NotFound)
    ensures ValidName(name) && name in db.feeds ==>
              && FindRow(RowsOf(db, name), db.feeds[name]).Some?
              && var row := FindRow(RowsOf(db, name), db.feeds[name]).value;
                 var m := Decode(c, row.manifest);
                 && Public(c, db, name) == (if row.enabled then m else Err(NotFound))
                 && Get(c, db, name) == (if m.Err? then Err(m.error)
                                         else Ok(UpdateFeed(NoTag, name, row.description, row.enabled, db.feeds[name],
                                                            row.updatedAt, row.updatedBy, Some(m.value))))
  {}

  /** What a save takes: a proper name, a switch, a known author, at most 500 characters of description, a valid manifest of
      at most 256 KiB, and the current revision, or zero for a new feed. */
  lemma SaveAcceptsExactly(c: Codec, db: Db, name: string, input: Input, actor: int, now: int)
    ensures var proper := && ValidName(name) && input.enabled.Some? && actor > 0 && input.revision >= 0
                          && |input.description| <= 500
                          && c.wellFormed(input.manifest) && |c.compact(input.manifest)| <= 256 * 1024;
            var current := if name in db.feeds then db.feeds[name] else 0;
            var r := Save(c, db, name, input, actor, now).1;
            && (r.Ok? <==> proper && input.revision == current)
            && (r == Err(Invalid) <==> !proper)
            && (r == Err(Conflict) <==> proper && input.revision != current)
  {
    SaveAppends(c, db, name, input, actor, now);
  }

  lemma SameFeed(c: Codec, db: Db, db': Db, name: string)
    requires FeedInv(c, db, name) && RowsOf(db', name) == RowsOf(db, name)
    requires (name in db'.feeds <==> name in db.feeds) && (name in db.feeds ==> db'.feeds[name] == db.feeds[name])
    ensures FeedInv(c, db', name)
  {}

  lemma AppendedFeed(c: Codec, db: Db, name: string, row: Row)
    requires FeedInv(c, db, name) && ValidName(name)
    requires row.revision == NextRevision(db, name) && IsSavedRow(c, row)
    ensures FeedInv(c, Appended(db, name, row), name)
  {}

  lemma AppendKeepsInv(c: Codec, db: Db, name: string, row: Row)
    requires Inv(c, db) && db.migrated && ValidName(name)
    requires row.revision == NextRevision(db, name) && IsSavedRow(c, row)
    ensures Inv(c, Appended(db, name, row)) && forall n :: RowsOf(db, n) <= RowsOf(Appended(db, name, row), n)
  {
    forall n ensures FeedInv(c, Appended(db, name, row), n) {
      assert FeedInv(c, db, n);
      if n == name {
        AppendedFeed(c, db, name, row);
      } else {
        SameFeed(c, db, Appended(db, name, row), n);
      }
    }
  }

  lemma SaveKeepsInv(c: Codec, db: Db, name: string, input: Input, actor: int, now: int)
    requires Inv(c, db) && db.migrated
    ensures var db' := Save(c, db, name, input, actor, now).0;
            Inv(c, db') && db'.migrated && db'.legacy == db.legacy && forall n :: RowsOf(db, n) <= RowsOf(db', n)
  {
    SaveAppends(c, db, name, input, actor, now);
    if Accepts(c, db, name, input, actor) {
      AppendKeepsInv(c, db, name, NewRow(c, input, NextRevision(db, name), actor, now));
    }
  }

  // ----- Whole runs -----

  lemma {:induction false} RunKeepsInv(c: Codec, db: Db, events: seq<Event>)
    requires Inv(c, db) && db.migrated
    ensures Inv(c, Run(c, db, events)) && Run(c, db, events).migrated && Run(c, db, events).legacy == db.legacy
    ensures forall name :: RowsOf(db, name) <= RowsOf(Run(c, db, events), name)
    decreases |events|
  {
    if events != [] {
      var db' := Step(c, db, events[0]);
      match events[0] {
        case Restart =>
        case SaveFeed(name, input, actor, now) => SaveKeepsInv(c, db, name, input, actor, now);
      }
      RunKeepsInv(c, db', events[1..]);
      forall name ensures RowsOf(db, name) <= RowsOf(Run(c, db, events), name) {
        assert RowsOf(db, name) <= RowsOf(db', name) <= RowsOf(Run(c, db', events[1..]), name);
      }
    }
  }

  /** From any sound older database, after any restarts and saves: the current revision of every feed is stored, the next
      revision is free, another restart changes nothing, and what was stored before stays stored as it was. */
  lemma RevisionIntegrity(c: Codec, legacy: Option<Legacy>, events: seq<Event>, later: seq<Event>, name: string)
    requires SoundLegacy(legacy)
    ensures var db := Reached(c, legacy, events);
            && (name in db.feeds ==> FindRow(RowsOf(db, name), db.feeds[name]).Some?)
            && FindRow(RowsOf(db, name), MaxRevision(RowsOf(db, name)) + 1).None?
            && EnsureSchema(db) == db
            && RowsOf(db, name) <= RowsOf(Run(c, db, later), name)
  {
    ReachedInv(c, legacy, events);
    var db := Reached(c, legacy, events);
    assert FeedInv(c, db, name);
    RunKeepsInv(c, db, later);
  }

  lemma ReachedInv(c: Codec, legacy: Option<Legacy>, events: seq<Event>)
    requires SoundLegacy(legacy)
    ensures Inv(c, Reached(c, legacy, events)) && Reached(c, legacy, events).migrated
  {
    forall name ensures FeedInv(c, NewDb(legacy), name) {}
    MigrationKeepsInv(c, NewDb(legacy));
    RunKeepsInv(c, EnsureSchema(NewDb(legacy)), events);
  }
}
