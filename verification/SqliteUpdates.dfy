/** The SQLite update catalog: a table of immutable revisions, a current revision per feed, and the one-time migration of the
    older single-feed tables. Each method is one transaction. */
module SqliteUpdates {
  import opened Wrappers
  import opened Updates

  const LEGACY_NAME := "desktop-latest.json"

  datatype Row = Row(revision: int, description: string, enabled: bool, manifest: string, updatedAt: int, updatedBy: int)
  datatype LegacyRelease = LegacyRelease(id: int, manifest: string, createdAt: int)

  /** The older tables: releases in primary-key order and the current id. */
  datatype Legacy = Legacy(releases: seq<LegacyRelease>, current: Option<int>)

  /** `rows` holds the revision table by feed, each part in primary-key order. */
  datatype Db = Db(feeds: map<string, int>, rows: map<string, seq<Row>>, migrated: bool, legacy: Option<Legacy>)

  // ----- Queries -----

  function RowsOf(db: Db, name: string): seq<Row> {
    if name in db.rows then db.rows[name] else []
  }

  /** COALESCE(MAX(revision), 0) */
  function MaxRevision(rows: seq<Row>): (max: int)
    ensures rows == [] ==> max == 0
    ensures rows != [] ==> exists i :: 0 <= i < |rows| && rows[i].revision == max
    ensures forall i :: 0 <= i < |rows| ==> rows[i].revision <= max
  {
    if rows == [] then 0
    else
      var n := |rows| - 1;
      var before := MaxRevision(rows[..n]);
      if n == 0 || rows[n].revision > before then rows[n].revision else before
  }

  /** The row with this revision. */
  function FindRow(rows: seq<Row>, revision: int): (r: Option<Row>)
    ensures r.Some? ==> r.value in rows && r.value.revision == revision
    ensures r.None? ==> forall i :: 0 <= i < |rows| ==> rows[i].revision != revision
  {
    if rows == [] then None
    else if rows[|rows| - 1].revision == revision then Some(rows[|rows| - 1])
    else FindRow(rows[..|rows| - 1], revision)
  }

  /** Insert in primary-key order; a second row with the same key is refused. */
  function InsertRow(rows: seq<Row>, row: Row): Option<seq<Row>> {
    if rows == [] then Some([row])
    else
      var n := |rows| - 1;
      if rows[n].revision < row.revision then Some(rows + [row])
      else if rows[n].revision == row.revision then None
      else
        var before := InsertRow(rows[..n], row);
        if before.None? then None else Some(before.value + [rows[n]])
  }

  function FeedOf(c: Codec, name: string, row: Row): Result<UpdateFeed, Error> {
    var m := Decode(c, row.manifest);
    if m.Err? then Err(m.error)
    else Ok(UpdateFeed(NoTag, name, row.description, row.enabled, row.revision, row.updatedAt, row.updatedBy, Some(m.value)))
  }

  /** All rows as feeds, or the first failure. */
  function FeedsOf(c: Codec, name: string, rows: seq<Row>): (r: Result<seq<UpdateFeed>, Error>)
    ensures r.Ok? <==> forall i :: 0 <= i < |rows| ==> FeedOf(c, name, rows[i]).Ok?
    ensures r.Ok? ==> |r.value| == |rows| && forall i :: 0 <= i < |rows| ==> FeedOf(c, name, rows[i]) == Ok(r.value[i])
  {
    if rows == [] then Ok([])
    else
      var first := FeedOf(c, name, rows[0]);
      if first.Err? then Err(first.error)
      else
        var rest := FeedsOf(c, name, rows[1..]);
        if rest.Err? then rest else Ok([first.value] + rest.value)
  }

  /** The row of a feed's current revision. */
  function CurrentRow(db: Db, name: string): Result<Row, Error> {
    if name !in db.feeds then Err(NotFound)
    else
      var row := FindRow(RowsOf(db, name), db.feeds[name]);
      if row.None? then Err(Corrupt) else Ok(row.value)
  }

  function Get(c: Codec, db: Db, name: string): Result<UpdateFeed, Error> {
    if !ValidName(name) then Err(NotFound)
    else
      var row := CurrentRow(db, name);
      if row.Err? then Err(row.error) else FeedOf(c, name, row.value)
  }

  /** What the public sees. */
  function Public(c: Codec, db: Db, name: string): Result<Manifest, Error> {
    if !ValidName(name) then Err(NotFound)
    else
      var row := CurrentRow(db, name);
      if row.Err? then Err(row.error)
      else if !row.value.enabled then Err(NotFound)
      else Decode(c, row.value.manifest)
  }

  function History(c: Codec, db: Db, name: string): Result<seq<UpdateFeed>, Error> {
    var current := Get(c, db, name);
    if current.Err? then Err(current.error) else FeedsOf(c, name, NewestFirst(RowsOf(db, name), HISTORY_SHOWN))
  }

  // ----- Transactions -----

  function NewRow(c: Codec, input: Input, revision: int, actor: int, now: int): Row
    requires input.enabled.Some?
  {
    Row(revision, input.description, input.enabled.value, c.compact(input.manifest), now, actor)
  }

  function Save(c: Codec, db: Db, name: string, input: Input, actor: int, now: int): (Db, Result<UpdateFeed, Error>) {
    if !ProperRequest(name, input, actor) || !Valid(c, input.manifest) then
      (db, Err(Invalid))
    else if (if name in db.feeds then db.feeds[name] else 0) != input.revision then
      (db, Err(Conflict))
    else
      var next := MaxRevision(RowsOf(db, name)) + 1;
      match InsertRow(RowsOf(db, name), NewRow(c, input, next, actor, now))
      case None => (db, Err(DuplicateRow))
      case Some(rows) =>
        (db.(rows := db.rows[name := rows], feeds := db.feeds[name := next]),
         Ok(UpdateFeed(NoTag, name, input.description, input.enabled.value, next, now, actor, Some(input.manifest))))
  }

  function LegacyRow(release: LegacyRelease): Row {
    Row(release.id, "", true, release.manifest, release.createdAt, 0)
  }

  function InsertAll(rows: seq<Row>, releases: seq<LegacyRelease>): Option<seq<Row>> {
    if releases == [] then Some(rows)
    else
      var n := |releases| - 1;
      var before := InsertAll(rows, releases[..n]);
      if before.None? then None else InsertRow(before.value, LegacyRow(releases[n]))
  }

  /** Schema creation and migration; a refused insert rolls everything back. */
  function EnsureSchema(db: Db): Db {
    if db.migrated then db
    else
      match db.legacy
      case None => db.(migrated := true)
      case Some(source) =>
        var rows := InsertAll(RowsOf(db, LEGACY_NAME), source.releases);
        if rows.None? || (source.current.Some? && LEGACY_NAME in db.feeds) then db
        else db.(rows := db.rows[LEGACY_NAME := rows.value],
                 feeds := if source.current.Some? then db.feeds[LEGACY_NAME := source.current.value] else db.feeds,
                 migrated := true)
  }

  // ----- The catalog -----

  class SQLiteCatalog {
    const codec: Codec
    const legacy: Option<Legacy>
    var feeds: map<string, int>
    var rows: map<string, seq<Row>>
    var migrated: bool

    ghost function View(): Db
      reads this
    {
      Db(feeds, rows, migrated, legacy)
    }

    constructor (codec: Codec, legacy: Option<Legacy>)
      ensures View() == Db(map[], map[], false, legacy) && this.codec == codec
    {
      this.codec, this.legacy := codec, legacy;
      feeds, rows, migrated := map[], map[], false;
    }

    method EnsureDesktopUpdateSchema()
      modifies this
      ensures View() == EnsureSchema(old(View()))
    {
      if migrated {
        return;
      }
      if legacy.Some? {
        var inserted := if LEGACY_NAME in rows then rows[LEGACY_NAME] else [];
        var releases := legacy.value.releases;
        ghost var start := inserted;
        for i := 0 to |releases|
          invariant View() == old(View())
          invariant InsertAll(start, releases[..i]) == Some(inserted)
        {
          var more := InsertRow(inserted, LegacyRow(releases[i]));
          assert releases[..i + 1][..i] == releases[..i];
          if more.None? {
            StaysRefused(start, releases, i + 1);
            return;
          }
          inserted := more.value;
        }
        assert releases[..|releases|] == releases;
        var current := legacy.value.current;
        if current.Some? && LEGACY_NAME in feeds {
          return;
        }
        rows := rows[LEGACY_NAME := inserted];
        if current.Some? {
          feeds := feeds[LEGACY_NAME := current.value];
        }
      }
      migrated := true;
    }

    method GetUpdateFeed(name: string) returns (r: Result<UpdateFeed, Error>)
      ensures r == Get(codec, View(), name)
    {
      if !ValidName(name) || name !in feeds {
        return Err(NotFound);
      }
      var row := FindRow(if name in rows then rows[name] else [], feeds[name]);
      if row.None? {
        return Err(Corrupt);
      }
      return FeedOf(codec, name, row.value);
    }

    method GetPublicUpdate(name: string) returns (r: Result<Manifest, Error>)
      ensures r == Public(codec, View(), name)
    {
      if !ValidName(name) || name !in feeds {
        return Err(NotFound);
      }
      var row := FindRow(if name in rows then rows[name] else [], feeds[name]);
      if row.None? {
        return Err(Corrupt);
      }
      if !row.value.enabled {
        return Err(NotFound);
      }
      return Decode(codec, row.value.manifest);
    }

    method UpdateFeedHistory(name: string) returns (r: Result<seq<UpdateFeed>, Error>)
      ensures r == History(codec, View(), name)
    {
      var current := GetUpdateFeed(name);
      if current.Err? {
        return Err(current.error);
      }
      var shown := NewestFirst(if name in rows then rows[name] else [], 20);
      r := ScanFeeds(name, shown);
    }

    /** One pass over the rows of a query result. */
    method ScanFeeds(name: string, shown: seq<Row>) returns (r: Result<seq<UpdateFeed>, Error>)
      ensures r == FeedsOf(codec, name, shown)
    {
      var items := [];
      for i := 0 to |shown|
        invariant FeedsOf(codec, name, shown[..i]) == Ok(items)
      {
        var item := FeedOf(codec, name, shown[i]);
        assert shown[..i + 1] == shown[..i] + [shown[i]];
        if item.Err? {
          FeedsOfFails(codec, name, shown, i);
          return Err(item.error);
        }
        FeedsOfAppend(codec, name, shown[..i], shown[i]);
        items := items + [item.value];
      }
      assert shown[..|shown|] == shown;
      return Ok(items);
    }

    method SaveUpdateFeed(name: string, input: Input, actor: int, now: int) returns (r: Result<UpdateFeed, Error>)
      modifies this
      ensures (View(), r) == Save(codec, old(View()), name, input, actor, now)
    {
      if !ProperRequest(name, input, actor) {
        return Err(Invalid);
      }
      if !Valid(codec, input.manifest) {
        return Err(Invalid);
      }
      var current := 0;
      if name in feeds {
        current := feeds[name];
      }
      if current != input.revision {
        return Err(Conflict);
      }
      var known := if name in rows then rows[name] else [];
      var next := MaxRevision(known) + 1;
      var item := UpdateFeed(NoTag, name, input.description, input.enabled.value, next, now, actor, Some(input.manifest));
      var inserted := InsertRow(known, NewRow(codec, input, next, actor, now));
      if inserted.None? {
        return Err(DuplicateRow);
      }
      rows := rows[name := inserted.value];
      feeds := feeds[name := next];
      return Ok(item);
    }
  }

  lemma {:induction false} StaysRefused(rows: seq<Row>, releases: seq<LegacyRelease>, i: nat)
    requires i <= |releases| && InsertAll(rows, releases[..i]).None?
    ensures InsertAll(rows, releases).None?
    decreases |releases| - i
  {
    if i < |releases| {
      assert releases[..i + 1][..i] == releases[..i];
      StaysRefused(rows, releases, i + 1);
    } else {
      assert releases[..i] == releases;
    }
  }

  lemma FeedsOfAppend(c: Codec, name: string, rows: seq<Row>, row: Row)
    requires FeedsOf(c, name, rows).Ok? && FeedOf(c, name, row).Ok?
    ensures FeedsOf(c, name, rows + [row]) == Ok(FeedsOf(c, name, rows).value + [FeedOf(c, name, row).value])
  {
    var all, items := rows + [row], FeedsOf(c, name, rows).value + [FeedOf(c, name, row).value];
    forall i | 0 <= i < |all| ensures FeedOf(c, name, all[i]) == Ok(items[i]) {
      assert i < |rows| ==> all[i] == rows[i];
    }
    assert FeedsOf(c, name, all).Ok?;
    assert FeedsOf(c, name, all).value == items;
  }

  /** The first row that cannot be read decides the error. */
  lemma {:induction false} FeedsOfFails(c: Codec, name: string, rows: seq<Row>, i: nat)
    requires i < |rows| && FeedOf(c, name, rows[i]).Err? && FeedsOf(c, name, rows[..i]).Ok?
    ensures FeedsOf(c, name, rows) == Err(FeedOf(c, name, rows[i]).error)
    decreases i
  {
    if i > 0 {
      assert rows[..i][0] == rows[0] && rows[..i][1..] == rows[1..][..i - 1];
      FeedsOfFails(c, name, rows[1..], i - 1);
    }
  }
}
