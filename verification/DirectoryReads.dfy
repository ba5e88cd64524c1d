/** What the directory catalog answers, in terms of the files that are there. */
module DirectoryReads {
  import opened Wrappers
  import opened Updates
  import opened DirectoryUpdates

  /** The visible bytes of a feed and whether they are public. */
  function Visible(d: Dir, name: string): Option<(string, bool)> {
    if name in d.published then Some((d.published[name].data, true))
    else if name in d.disabled then Some((d.disabled[name].data, false))
    else None
  }

  /** When the visible file was written. */
  function VisibleTime(d: Dir, name: string): int
    requires Visible(d, name).Some?
  {
    if Visible(d, name).value.1 then d.published[name].mtime else d.disabled[name].mtime
  }

  /** A feed as Admin should see it: switch, manifest and time of the visible file, and description, author and revision
      of the last record, or none of these before the first. */
  predicate Shows(c: Codec, feed: UpdateFeed, name: string, document: (string, bool), mtime: int, history: seq<UpdateFeed>) {
    && feed.name == name && feed.enabled == document.1 && feed.updatedAt == mtime
    && feed.manifest.Some? && c.parse(document.0) == feed.manifest && Valid(c, feed.manifest.value)
    && feed.etag == Tag(c.digest(document.0), document.1, feed.revision)
    && if history == [] then feed.description == "" && feed.revision == 0 && feed.updatedBy == 0
       else
         var last := history[|history| - 1];
         feed.description == last.description && feed.revision == last.revision && feed.updatedBy == last.updatedBy
  }

  /** The text is small enough and holds a valid manifest. */
  predicate GoodText(c: Codec, data: string) {
    |data| <= 256 * 1024 && c.isJson(data) && c.parse(data).Some? && Valid(c, c.parse(data).value)
  }

  /** For every directory: when a feed reads, and what is then shown of it. */
  lemma GetReadsVisible(c: Codec, d: Dir, name: string)
    ensures Get(c, d, name).Ok? <==>
              ValidName(name) && Visible(d, name).Some? && GoodText(c, Visible(d, name).value.0) && FullHistory(c, d, name).Ok?
    ensures Get(c, d, name).Ok? ==>
              Shows(c, Get(c, d, name).value, name, Visible(d, name).value, VisibleTime(d, name), FullHistory(c, d, name).value)
    ensures Get(c, d, name) == Err(NotFound) <==> !ValidName(name) || Visible(d, name).None?
    ensures Get(c, d, name).Err? && Get(c, d, name).error != NotFound ==>
              Get(c, d, name).error == if GoodText(c, Visible(d, name).value.0) then FullHistory(c, d, name).error else Invalid
  {}

  /** The public gets the bytes of a public file, and exactly of one that has a proper name, is JSON and fits; a file that
      is not public is not found, whatever else there is of the feed. */
  lemma PublicJsonExactly(c: Codec, d: Dir, name: string)
    ensures PublicJson(c, d, name).Ok? <==>
              ValidName(name) && name in d.published && c.isJson(d.published[name].data)
              && |d.published[name].data| <= 256 * 1024
    ensures PublicJson(c, d, name).Ok? ==> PublicJson(c, d, name).value == d.published[name].data
    ensures PublicJson(c, d, name) == Err(NotFound) <==> !ValidName(name) || name !in d.published
    ensures PublicJson(c, d, name).Err? ==> PublicJson(c, d, name).error in {NotFound, Invalid}
  {}

  /** The public manifest is the valid one in the public file, or there is none. */
  lemma PublicExactly(c: Codec, d: Dir, name: string, m: Manifest)
    ensures Public(c, d, name) == Ok(m) <==>
              ValidName(name) && name in d.published && GoodText(c, d.published[name].data)
              && c.parse(d.published[name].data) == Some(m)
  {}

  /** A history is read exactly from no sidecar or from one that fits and decodes; the shown part is its newest twenty. */
  lemma HistoryExactly(c: Codec, d: Dir, name: string, items: seq<UpdateFeed>)
    ensures FullHistory(c, d, name) == Ok(items) <==>
              if name !in d.sidecars then items == []
              else |d.sidecars[name]| <= 64 * 1024 * 1024 && c.isJson(d.sidecars[name])
                   && c.decodeHistory(d.sidecars[name]) == Some(items)
    ensures FullHistory(c, d, name).Err? ==>
              FullHistory(c, d, name).error == if |d.sidecars[name]| <= 64 * 1024 * 1024 && c.isJson(d.sidecars[name]) then Corrupt
                                               else Invalid
    ensures !ValidName(name) ==> History(c, d, name) == Err(NotFound)
    ensures FullHistory(c, d, name) == Ok(items) && ValidName(name) ==>
              && History(c, d, name).Ok?
              && var shown := History(c, d, name).value;
                 && |shown| == (if |items| < 20 then |items| else 20)
                 && forall i :: 0 <= i < |shown| ==> shown[i] == items[|items| - 1 - i]
  {}
}
