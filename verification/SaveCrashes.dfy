/** A directory save that stops after any of its three file steps: what is visible meanwhile, and what a retry does. */
module SaveCrashes {
  import opened Wrappers
  import opened Updates
  import opened DirectoryUpdates
  import opened DirectoryReads

  predicate SameAt<T(==)>(a: map<string, T>, b: map<string, T>, name: string) {
    (name in b <==> name in a) && (name in a ==> b[name] == a[name])
  }

  ghost predicate SameFiles(d: Dir, d': Dir, name: string) {
    SameAt(d.published, d'.published, name) && SameAt(d.disabled, d'.disabled, name) && SameAt(d.sidecars, d'.sidecars, name)
  }

  /** The step at which the visible document changes: removing the public file when a public feed is disabled, and the
      first write otherwise. */
  function FlipStep(d: Dir, name: string, enabled: bool): nat {
    if !enabled && name in d.published then 2 else 1
  }

  // ----- The directory after each step -----

  function AfterFile(d: Dir, name: string, enabled: bool, file: File): Dir {
    if enabled then d.(published := d.published[name := file]) else d.(disabled := d.disabled[name := file])
  }

  function AfterRemoval(d: Dir, name: string, enabled: bool, file: File): Dir {
    if enabled then d.(published := d.published[name := file], disabled := d.disabled - {name})
    else d.(disabled := d.disabled[name := file], published := d.published - {name})
  }

  function AfterAll(c: Codec, d: Dir, name: string, enabled: bool, file: File, recorded: seq<UpdateFeed>): Dir {
    AfterRemoval(d, name, enabled, file).(sidecars := d.sidecars[name := c.encodeHistory(recorded)])
  }

  lemma StepsAre(c: Codec, d: Dir, name: string, input: Input, recorded: seq<UpdateFeed>, now: int)
    requires input.enabled.Some?
    ensures var file := File(SavedText(c, input.manifest), now);
            && AfterSteps(c, d, name, input, recorded, now, 0) == d
            && AfterSteps(c, d, name, input, recorded, now, 1) == AfterFile(d, name, input.enabled.value, file)
            && AfterSteps(c, d, name, input, recorded, now, 2) == AfterRemoval(d, name, input.enabled.value, file)
            && AfterSteps(c, d, name, input, recorded, now, 3) == AfterAll(c, d, name, input.enabled.value, file, recorded)
  {
    var plan := PlanOf(c, name, input, recorded, now);
    assert plan[..0] == [];
    ReplayNext(d, plan, 0);
    ReplayNext(d, plan, 1);
    ReplayNext(d, plan, 2);
  }

  // ----- Atomic visibility -----

  /** At every crash point the visible document is wholly the old one or wholly the new one, it changes at exactly one
      step, the sidecar changes only with the last step, and no other feed is touched. */
  lemma SaveIsAtomic(c: Codec, d: Dir, name: string, input: Input, recorded: seq<UpdateFeed>, now: int, k: nat)
    requires input.enabled.Some? && k <= 3
    ensures var d' := AfterSteps(c, d, name, input, recorded, now, k);
            && Visible(d', name) == (if k < FlipStep(d, name, input.enabled.value) then Visible(d, name)
                                     else Some((c.indent(input.manifest) + "\n", input.enabled.value)))
            && d'.sidecars == (if k < 3 then d.sidecars else d.sidecars[name := c.encodeHistory(recorded)])
            && d'.marker == d.marker
            && forall other :: other != name ==> SameFiles(d, d', other)
  {
    StepsAre(c, d, name, input, recorded, now);
    forall other | other != name ensures SameFiles(d, AfterSteps(c, d, name, input, recorded, now, k), other) {
      OthersUntouched(c, d, name, input, recorded, now, k, other);
    }
  }

  lemma OthersUntouched(c: Codec, d: Dir, name: string, input: Input, recorded: seq<UpdateFeed>, now: int, k: nat, other: string)
    requires input.enabled.Some? && k <= 3 && other != name
    ensures SameFiles(d, AfterSteps(c, d, name, input, recorded, now, k), other)
  {
    ReplayElsewhere(d, PlanOf(c, name, input, recorded, now)[..k], other);
  }

  /** What the public is served at every crash point: the old answer before the flip, the new one from it on; never a
      gap while a public feed stays public. */
  lemma PublicIsAtomic(c: Codec, d: Dir, name: string, input: Input, recorded: seq<UpdateFeed>, now: int, k: nat)
    requires Lawful(c) && ValidName(name) && input.enabled.Some? && Valid(c, input.manifest) && k <= 3
    ensures var after := PublicJson(c, AfterSteps(c, d, name, input, recorded, now, k), name);
            && after == (if k < FlipStep(d, name, input.enabled.value) then PublicJson(c, d, name)
                         else if !input.enabled.value then Err(NotFound)
                         else if |c.indent(input.manifest)| < 256 * 1024 then Ok(c.indent(input.manifest) + "\n")
                         else Err(Invalid))
            && (PublicJson(c, d, name) != Err(NotFound) && input.enabled.value ==> after != Err(NotFound))
  {
    StepsAre(c, d, name, input, recorded, now);
    DecodesBack(c, input.manifest);
  }

  // ----- Reading a saved feed back -----

  /** Reading after k steps: the old feed before the flip. From the flip on, if the indented text fits, the saved document
      with its switch and its time, beside the last record there is at that point; and nothing at all if it does not fit. */
  lemma GetAfter(c: Codec, d: Dir, name: string, input: Input, recorded: seq<UpdateFeed>, now: int, k: nat)
    requires Lawful(c) && ValidName(name) && input.enabled.Some? && Valid(c, input.manifest)
    requires FullHistory(c, d, name).Ok? && HistoryFits(c, recorded) && k <= 3
    ensures var d', enabled := AfterSteps(c, d, name, input, recorded, now, k), input.enabled.value;
            var history := if k < 3 then FullHistory(c, d, name).value else recorded;
            && FullHistory(c, d', name) == Ok(history)
            && (k < FlipStep(d, name, enabled) ==> Get(c, d', name) == Get(c, d, name))
            && (k >= FlipStep(d, name, enabled) ==>
                  if Fits(c, input.manifest) then
                    && Get(c, d', name).Ok?
                    && Shows(c, Get(c, d', name).value, name, (SavedText(c, input.manifest), enabled), now, history)
                    && Get(c, d', name).value.manifest == Some(input.manifest)
                  else Get(c, d', name) == Err(Invalid))
  {
    HistoryAfter(c, d, name, input, recorded, now, k);
    if k < FlipStep(d, name, input.enabled.value) {
      GetBeforeFlip(c, d, name, input, recorded, now, k);
    } else {
      StepsAre(c, d, name, input, recorded, now);
      GetSaved(c, AfterSteps(c, d, name, input, recorded, now, k), name, input, now);
    }
  }

  lemma HistoryAfter(c: Codec, d: Dir, name: string, input: Input, recorded: seq<UpdateFeed>, now: int, k: nat)
    requires HistoryReadsBack(c) && input.enabled.Some? && HistoryFits(c, recorded) && k <= 3
    ensures FullHistory(c, AfterSteps(c, d, name, input, recorded, now, k), name)
            == if k < 3 then FullHistory(c, d, name) else Ok(recorded)
  {
    SaveIsAtomic(c, d, name, input, recorded, now, k);
  }

  lemma GetBeforeFlip(c: Codec, d: Dir, name: string, input: Input, recorded: seq<UpdateFeed>, now: int, k: nat)
    requires input.enabled.Some? && k < FlipStep(d, name, input.enabled.value)
    ensures Get(c, AfterSteps(c, d, name, input, recorded, now, k), name) == Get(c, d, name)
  {
    StepsAre(c, d, name, input, recorded, now);
  }

  /** Reading a feed whose visible file is one that a save wrote. */
  lemma GetSaved(c: Codec, d: Dir, name: string, input: Input, now: int)
    requires Lawful(c) && ValidName(name) && input.enabled.Some? && Valid(c, input.manifest) && FullHistory(c, d, name).Ok?
    requires var file := File(SavedText(c, input.manifest), now);
             if input.enabled.value then name in d.published && d.published[name] == file
             else name !in d.published && name in d.disabled && d.disabled[name] == file
    ensures if Fits(c, input.manifest) then
              && Get(c, d, name).Ok?
              && Shows(c, Get(c, d, name).value, name, (SavedText(c, input.manifest), input.enabled.value), now,
                       FullHistory(c, d, name).value)
              && Get(c, d, name).value.manifest == Some(input.manifest)
            else Get(c, d, name) == Err(Invalid)
  {
    DecodesBack(c, input.manifest);
    GetReadsVisible(c, d, name);
  }

  // ----- Crash recovery -----

  /** The same input with the pair of a fresh load. */
  function Reload(c: Codec, d: Dir, name: string, input: Input): Input {
    var echo := EchoOf(Get(c, d, name));
    input.(revision := echo.0, etag := echo.1)
  }

  /** The history a retry finds, and the one it wants to record. */
  function Next(name: string, input: Input, history: seq<UpdateFeed>, actor: int, now: int): seq<UpdateFeed>
    requires input.enabled.Some?
  {
    history + [NewItem(name, input, history, actor, now)]
  }

  /** What a save takes: as in the database, but for the loaded pair and the 64 MiB that the history may have. */
  lemma AdmitsExactly(c: Codec, d: Dir, name: string, input: Input, actor: int, now: int)
    ensures var proper := && ValidName(name) && input.enabled.Some? && actor > 0 && input.revision >= 0
                          && |input.description| <= 500
                          && c.wellFormed(input.manifest) && |c.compact(input.manifest)| <= 256 * 1024;
            var current, history := Get(c, d, name), FullHistory(c, d, name);
            var admitted := Admit(c, d, name, input, actor, now);
            && (admitted.Ok? <==>
                  && proper && history.Ok?
                  && (if current.Ok? then (input.revision, input.etag) == (current.value.revision, current.value.etag)
                      else current.error == NotFound && (input.revision, input.etag) == (0, NoTag))
                  && |c.encodeHistory(Next(name, input, history.value, actor, now))| <= 64 * 1024 * 1024)
            && (admitted.Ok? ==> admitted.value == Next(name, input, history.value, actor, now))
            && (admitted.Err? ==>
                  admitted.error ==
                  if !proper then Invalid
                  else if current.Err? && current.error != NotFound then current.error
                  else if (input.revision, input.etag) != (if current.Ok? then (current.value.revision, current.value.etag)
                                                           else (0, NoTag)) then Conflict
                  else if history.Err? then history.error
                  else TooLarge)
  {}

  lemma AdmittedFacts(c: Codec, d: Dir, name: string, input: Input, actor: int, now: int)
    requires Admit(c, d, name, input, actor, now).Ok?
    ensures ProperRequest(name, input, actor) && Valid(c, input.manifest)
    ensures FullHistory(c, d, name).Ok? && EchoOf(Get(c, d, name)) == (input.revision, input.etag)
    ensures Get(c, d, name).Ok? || Get(c, d, name) == Err(NotFound)
    ensures Admit(c, d, name, input, actor, now).value == Next(name, input, FullHistory(c, d, name).value, actor, now)
    ensures HistoryFits(c, Admit(c, d, name, input, actor, now).value)
  {}

  /** A save on a fresh load is refused only for the feed not reading, or the history not fitting. */
  lemma ReloadAdmits(c: Codec, d: Dir, name: string, input: Input, actor: int, now: int)
    requires ProperRequest(name, input, actor) && Valid(c, input.manifest)
    requires FullHistory(c, d, name).Ok? && LastRevision(FullHistory(c, d, name).value) >= 0
    ensures Admit(c, d, name, Reload(c, d, name, input), actor, now)
            == (var current := Get(c, d, name);
                var next := Next(name, input, FullHistory(c, d, name).value, actor, now);
                if current.Err? && current.error != NotFound then Err(current.error)
                else if HistoryFits(c, next) then Ok(next) else Err(TooLarge))
  {}

  /** After an admitted save has stopped at any step, reload and save the same input: exactly when this is admitted. */
  lemma RetryIsAdmitted(c: Codec, d: Dir, name: string, input: Input, actor: int, now: int, k: nat, later: int)
    requires Lawful(c) && k <= 3 && Admit(c, d, name, input, actor, now).Ok?
    requires LastRevision(FullHistory(c, d, name).value) >= 0
    ensures var recorded := Admit(c, d, name, input, actor, now).value;
            var stopped := AfterSteps(c, d, name, input, recorded, now, k);
            var next := Next(name, input, if k < 3 then FullHistory(c, d, name).value else recorded, actor, later);
            Admit(c, stopped, name, Reload(c, stopped, name, input), actor, later)
            == if k >= FlipStep(d, name, input.enabled.value) && !Fits(c, input.manifest) then Err(Invalid)
               else if HistoryFits(c, next) then Ok(next)
               else Err(TooLarge)
  {
    AdmittedFacts(c, d, name, input, actor, now);
    var recorded := Admit(c, d, name, input, actor, now).value;
    GetAfter(c, d, name, input, recorded, now, k);
    ReloadAdmits(c, AfterSteps(c, d, name, input, recorded, now, k), name, input, actor, later);
  }

  /** The retry ends in exactly the directory that an uninterrupted save at its own time makes of the original one, with
      the next revision once and one file left, if and only if the first attempt stopped before its sidecar. */
  lemma RetryConverges(c: Codec, d: Dir, name: string, input: Input, actor: int, now: int, k: nat, later: int)
    requires Lawful(c) && k <= 3 && Admit(c, d, name, input, actor, now).Ok?
    requires LastRevision(FullHistory(c, d, name).value) >= 0
    requires var recorded := Admit(c, d, name, input, actor, now).value;
             var stopped := AfterSteps(c, d, name, input, recorded, now, k);
             Admit(c, stopped, name, Reload(c, stopped, name, input), actor, later).Ok?
    ensures var recorded := Admit(c, d, name, input, actor, now).value;
            var stopped := AfterSteps(c, d, name, input, recorded, now, k);
            var retried := Admit(c, stopped, name, Reload(c, stopped, name, input), actor, later).value;
            var end := AfterSteps(c, stopped, name, Reload(c, stopped, name, input), retried, later, 3);
            var direct := Next(name, input, FullHistory(c, d, name).value, actor, later);
            && (k < 3 <==> end == AfterSteps(c, d, name, input, direct, later, 3))
            && (k < 3 ==> Admit(c, d, name, input, actor, later) == Ok(direct) && retried == direct)
            && LastRevision(retried) == LastRevision(FullHistory(c, d, name).value) + (if k < 3 then 1 else 2)
            && (name in end.published <==> input.enabled.value) && (name in end.disabled <==> !input.enabled.value)
  {
    RetryIsAdmitted(c, d, name, input, actor, now, k, later);
    AdmittedFacts(c, d, name, input, actor, now);
    var recorded := Admit(c, d, name, input, actor, now).value;
    var stopped := AfterSteps(c, d, name, input, recorded, now, k);
    var direct := Next(name, input, FullHistory(c, d, name).value, actor, later);
    var retried := if k < 3 then direct else Next(name, input, recorded, actor, later);
    OverwritesStopped(c, d, name, input, recorded, now, k, Reload(c, stopped, name, input), retried, later);
    if k < 3 {
      assert Admit(c, d, name, input, actor, later) == Ok(direct);
    } else {
      assert |retried| != |direct|;
      DifferentSidecars(c, d, name, input, retried, direct, later);
    }
  }

  /** A complete save leaves nothing of an earlier stopped one behind. */
  lemma OverwritesStopped(c: Codec, d: Dir, name: string, input: Input, recorded: seq<UpdateFeed>, now: int, k: nat,
                          again: Input, retried: seq<UpdateFeed>, later: int)
    requires input.enabled.Some? && k <= 3 && again == input.(revision := again.revision, etag := again.etag)
    ensures var end := AfterSteps(c, AfterSteps(c, d, name, input, recorded, now, k), name, again, retried, later, 3);
            && end == AfterSteps(c, d, name, input, retried, later, 3)
            && (name in end.published <==> input.enabled.value) && (name in end.disabled <==> !input.enabled.value)
  {
    var stopped := AfterSteps(c, d, name, input, recorded, now, k);
    SaveIsAtomic(c, d, name, input, recorded, now, k);
    StepsAre(c, d, name, input, retried, later);
    StepsAre(c, stopped, name, again, retried, later);
    OverwritesFeed(c, d, stopped, name, input.enabled.value, File(SavedText(c, input.manifest), later), retried);
  }

  lemma OverwritesFeed(c: Codec, d: Dir, d': Dir, name: string, enabled: bool, file: File, recorded: seq<UpdateFeed>)
    requires d'.marker == d.marker && forall other :: other != name ==> SameFiles(d, d', other)
    ensures AfterAll(c, d', name, enabled, file, recorded) == AfterAll(c, d, name, enabled, file, recorded)
  {
    forall other | other != name
      ensures SameAt(d.published, d'.published, other) && SameAt(d.disabled, d'.disabled, other)
              && SameAt(d.sidecars, d'.sidecars, other)
    {
      assert SameFiles(d, d', other);
    }
    var data := c.encodeHistory(recorded);
    SameElsewhere(d.published, d'.published, name, file);
    SameElsewhere(d.disabled, d'.disabled, name, file);
    SameElsewhere(d.sidecars, d'.sidecars, name, data);
  }

  lemma SameElsewhere<T>(a: map<string, T>, b: map<string, T>, name: string, value: T)
    requires forall other :: other != name ==> SameAt(a, b, other)
    ensures a[name := value] == b[name := value] && a - {name} == b - {name}
  {
    forall other | other != name ensures (other in b <==> other in a) && (other in a ==> b[other] == a[other]) {
      assert SameAt(a, b, other);
    }
  }

  lemma DifferentSidecars(c: Codec, d: Dir, name: string, input: Input, a: seq<UpdateFeed>, b: seq<UpdateFeed>, now: int)
    requires HistoryReadsBack(c) && input.enabled.Some? && a != b
    ensures AfterSteps(c, d, name, input, a, now, 3) != AfterSteps(c, d, name, input, b, now, 3)
  {
    StepsAre(c, d, name, input, a, now);
    StepsAre(c, d, name, input, b, now);
    assert c.decodeHistory(c.encodeHistory(a)) == Some(a) && c.decodeHistory(c.encodeHistory(b)) == Some(b);
    assert AfterSteps(c, d, name, input, a, now, 3).sidecars[name] == c.encodeHistory(a);
    assert AfterSteps(c, d, name, input, b, now, 3).sidecars[name] == c.encodeHistory(b);
  }

  // ----- The indented text and the size limit -----

  /** A complete save shows what was saved if and only if the indented text fits; otherwise the feed no longer reads,
      the public gets an error instead of the document, and no later save is admitted. */
  lemma SaveShowsItself(c: Codec, d: Dir, name: string, input: Input, actor: int, now: int)
    requires Lawful(c) && Admit(c, d, name, input, actor, now).Ok?
    ensures var recorded := Admit(c, d, name, input, actor, now).value;
            var end := AfterSteps(c, d, name, input, recorded, now, 3);
            && (Get(c, end, name).Ok? <==> Fits(c, input.manifest))
            && (Fits(c, input.manifest) ==>
                  && var feed := Get(c, end, name).value;
                  && feed.manifest == Some(input.manifest) && feed.enabled == input.enabled.value
                  && feed.description == input.description && feed.updatedBy == actor
                  && feed.revision == LastRevision(FullHistory(c, d, name).value) + 1
                  && Public(c, end, name) == (if input.enabled.value then Ok(input.manifest) else Err(NotFound)))
            && (!Fits(c, input.manifest) ==>
                  && Public(c, end, name) == (if input.enabled.value then Err(Invalid) else Err(NotFound))
                  && forall next, who, later :: Admit(c, end, name, next, who, later).Err?)
  {
    AdmittedFacts(c, d, name, input, actor, now);
    var recorded := Admit(c, d, name, input, actor, now).value;
    GetAfter(c, d, name, input, recorded, now, 3);
    PublicAfterSave(c, d, name, input, recorded, now);
  }

  lemma PublicAfterSave(c: Codec, d: Dir, name: string, input: Input, recorded: seq<UpdateFeed>, now: int)
    requires Lawful(c) && ValidName(name) && input.enabled.Some? && Valid(c, input.manifest)
    ensures Public(c, AfterSteps(c, d, name, input, recorded, now, 3), name)
            == if !input.enabled.value then Err(NotFound)
               else if Fits(c, input.manifest) then Ok(input.manifest) else Err(Invalid)
  {
    StepsAre(c, d, name, input, recorded, now);
    DecodesBack(c, input.manifest);
  }

  /** A codec with one well-formed manifest, whose compact text is short and whose indented text just fills the limit. */
  function WideCodec(c: Codec, m: Manifest): Codec {
    var wide := seq(MAX_MANIFEST_BYTES, _ => ' ');
    c.(wellFormed := x => x == m, compact := _ => "{}", indent := _ => wide,
       parse := data => if data == "{}" || data == wide || data == wide + "\n" then Some(m) else None,
       isJson := _ => true)
  }

  /** The codec laws do not make the indented text fit: from any lawful codec comes one under which the first save of a
      valid manifest is admitted, completes, and leaves a feed that cannot be read. */
  lemma ValidManifestMayNotShow(c: Codec, input: Input, actor: int, now: int)
    requires Lawful(c) && ProperRequest("a.json", input, actor) && input.revision == 0 && input.etag == NoTag
    requires HistoryFits(c, Next("a.json", input, [], actor, now))
    ensures var w := WideCodec(c, input.manifest);
            && Lawful(w) && Valid(w, input.manifest)
            && var recorded := Admit(w, EMPTY_DIR, "a.json", input, actor, now);
            && recorded.Ok?
            && Get(w, AfterSteps(w, EMPTY_DIR, "a.json", input, recorded.value, now, 3), "a.json") == Err(Invalid)
  {
    var w := WideCodec(c, input.manifest);
    assert Lawful(w) by {
      assert ReadsBack(w) && ParsedIsJson(w);
      assert HistoryReadsBack(w) && DigestTells(w);
    }
    assert Get(w, EMPTY_DIR, "a.json") == Err(NotFound);
    assert FullHistory(w, EMPTY_DIR, "a.json") == Ok([]);
    assert Admit(w, EMPTY_DIR, "a.json", input, actor, now) == Ok(Next("a.json", input, [], actor, now));
    SaveShowsItself(w, EMPTY_DIR, "a.json", input, actor, now);
    GetAfter(w, EMPTY_DIR, "a.json", input, Next("a.json", input, [], actor, now), now, 3);
  }
}
