/** What an import into an empty directory preserves of a SQLite catalog that any restarts and saves can have made. */
module Migration {
  import opened Wrappers
  import opened Updates
  import opened DirectoryUpdates
  import opened DirectoryReads
  import opened SaveCrashes
  import opened ImportLaws
  import opened SqliteLaws
  import Sql = SqliteUpdates

  // ----- What the database holds -----

  /** Every feed that has only been saved to can be read; only rows from the older tables may not decode. */
  lemma SavedFeedsRead(c: Codec, db: Sql.Db, name: string)
    requires Lawful(c) && FeedInv(c, db, name) && Sql.CurrentRow(db, name).Ok? && name != Sql.LEGACY_NAME
    ensures Readable(c, db, name)
  {}

  /** The newest row speaks for the current one in description and author, whichever row is current. */
  lemma NewestSpeaks(c: Codec, db: Sql.Db, name: string)
    requires FeedInv(c, db, name) && name in db.feeds
    ensures Sql.CurrentRow(db, name).Ok? && Sql.RowsOf(db, name) != []
    ensures var rows, row := Sql.RowsOf(db, name), Sql.CurrentRow(db, name).value;
            var newest := rows[|rows| - 1];
            && newest.revision == Sql.MaxRevision(rows)
            && newest.description == row.description && newest.updatedBy == row.updatedBy
  {}

  lemma NewestFeedsFirst(c: Codec, name: string, rows: seq<Sql.Row>, n: nat)
    requires Sql.FeedsOf(c, name, rows).Ok?
    ensures Sql.FeedsOf(c, name, NewestFirst(rows, n)) == Ok(NewestFirst(Sql.FeedsOf(c, name, rows).value, n))
  {
    var feeds := Sql.FeedsOf(c, name, rows).value;
    var shown, first := NewestFirst(rows, n), NewestFirst(feeds, n);
    forall i | 0 <= i < |shown| ensures Sql.FeedOf(c, name, shown[i]) == Ok(first[i]) {
      NewestAt(rows, n, i);
      NewestAt(feeds, n, i);
      FeedAt(c, name, rows, |rows| - 1 - i);
    }
    FeedsAre(c, name, shown, first);
  }

  lemma NewestAt<T>(items: seq<T>, n: nat, i: nat)
    requires i < |NewestFirst(items, n)|
    ensures |items| - 1 - i >= 0 && NewestFirst(items, n)[i] == items[|items| - 1 - i]
  {}

  lemma FeedAt(c: Codec, name: string, rows: seq<Sql.Row>, i: nat)
    requires Sql.FeedsOf(c, name, rows).Ok? && i < |rows|
    ensures Sql.FeedOf(c, name, rows[i]) == Ok(Sql.FeedsOf(c, name, rows).value[i])
  {}

  lemma FeedsAre(c: Codec, name: string, rows: seq<Sql.Row>, feeds: seq<UpdateFeed>)
    requires |rows| == |feeds| && forall i :: 0 <= i < |rows| ==> Sql.FeedOf(c, name, rows[i]) == Ok(feeds[i])
    ensures Sql.FeedsOf(c, name, rows) == Ok(feeds)
  {
    var r := Sql.FeedsOf(c, name, rows);
    assert r.Ok?;
    forall i | 0 <= i < |rows| ensures r.value[i] == feeds[i] {
      assert Sql.FeedOf(c, name, rows[i]) == Ok(r.value[i]);
    }
    assert r.value == feeds;
  }

  // ----- One feed after the import -----

  /** The directory holds this feed as an import of a readable feed into nothing leaves it. */
  ghost predicate Imported(c: Codec, db: Sql.Db, d: Dir, name: string) {
    && ValidName(name) && Readable(c, db, name)
    && SlotOf(d, name) == Fill(c, db, name, Slot(None, None, None))
  }

  /** The public result stays the same exactly when the feed is disabled or its indented text fits. */
  lemma PublicPreserved(c: Codec, db: Sql.Db, d: Dir, name: string)
    requires Lawful(c) && Imported(c, db, d, name)
    ensures var feed := Sql.Get(c, db, name).value;
            && feed.manifest.Some?
            && Public(c, d, name) == (if feed.enabled && |c.indent(feed.manifest.value)| > MAX_MANIFEST_BYTES then Err(Invalid)
                                      else Sql.Public(c, db, name))
            && (Public(c, d, name) == Sql.Public(c, db, name)
                <==> !feed.enabled || |c.indent(feed.manifest.value)| <= MAX_MANIFEST_BYTES)
  {
    var feed := Sql.Get(c, db, name).value;
    DecodesBack(c, feed.manifest.value);
  }

  /** The Admin view keeps manifest, enabled, description and author; the revision it reports is the greatest one. It can
      be read exactly when the indented text and the history fit. */
  lemma AdminPreserved(c: Codec, db: Sql.Db, d: Dir, name: string)
    requires Lawful(c) && Imported(c, db, d, name) && FeedInv(c, db, name)
    ensures var feed := Sql.Get(c, db, name).value;
            var all := Sql.FeedsOf(c, name, Sql.RowsOf(db, name)).value;
            && feed.manifest.Some?
            && (Get(c, d, name).Ok? <==> |c.indent(feed.manifest.value)| <= MAX_MANIFEST_BYTES && HistoryFits(c, all))
            && (Get(c, d, name).Ok? ==>
                  var imported := Get(c, d, name).value;
                  && imported.revision == Sql.MaxRevision(Sql.RowsOf(db, name))
                  && imported.etag == Tag(c.digest(c.indent(feed.manifest.value)), feed.enabled, imported.revision)
                  && imported == feed.(etag := imported.etag, revision := imported.revision, updatedAt := imported.updatedAt))
  {
    var feed := Sql.Get(c, db, name).value;
    DecodesBack(c, feed.manifest.value);
    NewestSpeaks(c, db, name);
    var rows := Sql.RowsOf(db, name);
    assert Sql.FeedOf(c, name, rows[|rows| - 1]).Ok?;
    ImportedHistory(c, db, d, name);
    ImportedVisible(c, db, d, name);
    GetReadsVisible(c, d, name);
  }

  lemma ImportedVisible(c: Codec, db: Sql.Db, d: Dir, name: string)
    requires Imported(c, db, d, name)
    ensures var feed := Sql.Get(c, db, name).value;
            feed.manifest.Some? && Visible(d, name) == Some((c.indent(feed.manifest.value), feed.enabled))
  {}

  /** The whole history is kept, and so the part of it that is shown. */
  lemma ImportedHistory(c: Codec, db: Sql.Db, d: Dir, name: string)
    requires Lawful(c) && Imported(c, db, d, name)
    ensures var all := Sql.FeedsOf(c, name, Sql.RowsOf(db, name)).value;
            && FullHistory(c, d, name) == (if HistoryFits(c, all) then Ok(all) else Err(Invalid))
            && (HistoryFits(c, all) ==> History(c, d, name) == Sql.History(c, db, name))
  {
    NewestFeedsFirst(c, name, Sql.RowsOf(db, name), HISTORY_SHOWN);
  }

  // ----- The whole catalog -----

  lemma ImportedEverywhere(c: Codec, db: Sql.Db, a: Attempt, name: string)
    requires Lawful(c) && Inv(c, db) && Listing(db, a.names) && Complete(c, EMPTY_DIR, db, a)
    requires Sql.CurrentRow(db, Sql.LEGACY_NAME).Ok? ==> Readable(c, db, Sql.LEGACY_NAME)
    ensures var d := Start(c, EMPTY_DIR, db, a);
            && (name in db.feeds ==> Imported(c, db, d, name))
            && (name !in db.feeds ==> SlotOf(d, name) == Slot(None, None, None))
  {
    forall n | Sql.CurrentRow(db, n).Ok? ensures Readable(c, db, n) {
      if n != Sql.LEGACY_NAME {
        assert FeedInv(c, db, n);
        SavedFeedsRead(c, db, n);
      }
    }
    CompleteFills(c, EMPTY_DIR, db, a);
    assert FeedInv(c, db, name);
    assert SlotOf(EMPTY_DIR, name) == Slot(None, None, None);
  }

  /** After any restarts and saves, import into an empty directory: every feed has the same public result unless its
      indented text is too long, and the Admin sees the same manifest, switch, description, author and history. */
  lemma MigrationPreservesMeaning(c: Codec, legacy: Option<Sql.Legacy>, events: seq<Event>, a: Attempt, name: string)
    requires Lawful(c) && SoundLegacy(legacy)
    requires var db := Reached(c, legacy, events);
             && Listing(db, a.names) && Complete(c, EMPTY_DIR, db, a)
             && (Sql.CurrentRow(db, Sql.LEGACY_NAME).Ok? ==> Readable(c, db, Sql.LEGACY_NAME))
    ensures var db := Reached(c, legacy, events);
            var d := Start(c, EMPTY_DIR, db, a);
            if name !in db.feeds then
              Public(c, d, name) == Sql.Public(c, db, name) && Get(c, d, name) == Sql.Get(c, db, name) == Err(NotFound)
            else
              var feed, all := Sql.Get(c, db, name), Sql.FeedsOf(c, name, Sql.RowsOf(db, name));
              && feed.Ok? && feed.value.manifest.Some? && all.Ok?
              && var fits := |c.indent(feed.value.manifest.value)| <= MAX_MANIFEST_BYTES;
              && (Public(c, d, name) == Sql.Public(c, db, name) <==> !feed.value.enabled || fits)
              && (Get(c, d, name).Ok? <==> fits && HistoryFits(c, all.value))
              && (HistoryFits(c, all.value) ==> History(c, d, name) == Sql.History(c, db, name))
              && (Get(c, d, name).Ok? ==>
                    var imported := Get(c, d, name).value;
                    && imported.revision == Sql.MaxRevision(Sql.RowsOf(db, name))
                    && imported.manifest == feed.value.manifest && imported.enabled == feed.value.enabled
                    && imported.description == feed.value.description && imported.updatedBy == feed.value.updatedBy)
  {
    ReachedInv(c, legacy, events);
    var db := Reached(c, legacy, events);
    var d := Start(c, EMPTY_DIR, db, a);
    assert FeedInv(c, db, name);
    ImportedEverywhere(c, db, a, name);
    if name in db.feeds {
      PublicPreserved(c, db, d, name);
      AdminPreserved(c, db, d, name);
      ImportedHistory(c, db, d, name);
    }
  }
}
