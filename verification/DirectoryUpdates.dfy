/** The directory update catalog: public files, disabled files and history sidecars, changed one atomic file step at a
    time. A save or an import is a plan of such steps, and a failure or a crash leaves a prefix of the plan done. */
module DirectoryUpdates {
  import opened Wrappers
  import opened Updates
  import Sql = SqliteUpdates

  datatype File = File(data: string, mtime: int)

  /** The directory: public files, .disabled, the sidecars in .admin, and the marker of a finished import. */
  datatype Dir = Dir(published: map<string, File>, disabled: map<string, File>, sidecars: map<string, string>, marker: bool)

  const EMPTY_DIR := Dir(map[], map[], map[], false)

  /** One atomic write (a rename over the target) or removal. */
  datatype FileStep =
    | WritePublic(name: string, file: File)
    | WriteDisabled(name: string, file: File)
    | RemovePublic(name: string)
    | RemoveDisabled(name: string)
    | WriteSidecar(name: string, data: string)
    | WriteMarker

  function Apply(d: Dir, step: FileStep): Dir {
    match step
    case WritePublic(name, file) => d.(published := d.published[name := file])
    case WriteDisabled(name, file) => d.(disabled := d.disabled[name := file])
    case RemovePublic(name) => d.(published := d.published - {name})
    case RemoveDisabled(name) => d.(disabled := d.disabled - {name})
    case WriteSidecar(name, data) => d.(sidecars := d.sidecars[name := data])
    case WriteMarker => d.(marker := true)
  }

  function Replay(d: Dir, steps: seq<FileStep>): Dir {
    if steps == [] then d else Apply(Replay(d, steps[..|steps| - 1]), steps[|steps| - 1])
  }

  // ----- Reading -----

  function Read(c: Codec, files: map<string, File>, name: string): Result<File, Error> {
    if name !in files then Err(NotFound)
    else if |files[name].data| > MAX_MANIFEST_BYTES || !c.isJson(files[name].data) then Err(Invalid)
    else Ok(files[name])
  }

  /** What the public gets, byte for byte. */
  function PublicJson(c: Codec, d: Dir, name: string): Result<string, Error> {
    if !ValidName(name) then Err(NotFound)
    else
      var file := Read(c, d.published, name);
      if file.Err? then Err(file.error) else Ok(file.value.data)
  }

  function Public(c: Codec, d: Dir, name: string): Result<Manifest, Error> {
    var data := PublicJson(c, d, name);
    if data.Err? then Err(data.error) else Decode(c, data.value)
  }

  function FullHistory(c: Codec, d: Dir, name: string): Result<seq<UpdateFeed>, Error> {
    if name !in d.sidecars then Ok([])
    else
      var data := d.sidecars[name];
      if |data| > MAX_HISTORY_BYTES || !c.isJson(data) then Err(Invalid)
      else
        var items := c.decodeHistory(data);
        if items.None? then Err(Corrupt) else Ok(items.value)
  }

  function History(c: Codec, d: Dir, name: string): Result<seq<UpdateFeed>, Error> {
    if !ValidName(name) then Err(NotFound)
    else
      var items := FullHistory(c, d, name);
      if items.Err? then items else Ok(NewestFirst(items.value, HISTORY_SHOWN))
  }

  /** The file Admin shows: the public one, or else the disabled one. */
  function ReadVisible(c: Codec, d: Dir, name: string): Result<(File, bool), Error> {
    var pub := Read(c, d.published, name);
    if pub.Ok? then Ok((pub.value, true))
    else if pub.error != NotFound then Err(pub.error)
    else
      var off := Read(c, d.disabled, name);
      if off.Ok? then Ok((off.value, false)) else Err(off.error)
  }

  function LastRevision(history: seq<UpdateFeed>): int {
    if history == [] then 0 else history[|history| - 1].revision
  }

  /** A feed from its visible file, the manifest in it, and its history. */
  function FeedFrom(c: Codec, name: string, file: File, enabled: bool, m: Manifest, history: seq<UpdateFeed>): UpdateFeed {
    var tag := Tag(c.digest(file.data), enabled, LastRevision(history));
    if history == [] then UpdateFeed(tag, name, "", enabled, 0, file.mtime, 0, Some(m))
    else
      var last := history[|history| - 1];
      UpdateFeed(tag, name, last.description, enabled, last.revision, file.mtime, last.updatedBy, Some(m))
  }

  function Get(c: Codec, d: Dir, name: string): Result<UpdateFeed, Error> {
    if !ValidName(name) then Err(NotFound)
    else
      var visible := ReadVisible(c, d, name);
      if visible.Err? then Err(visible.error)
      else
        var m := Decode(c, visible.value.0.data);
        if m.Err? then Err(m.error)
        else
          var history := FullHistory(c, d, name);
          if history.Err? then Err(history.error)
          else Ok(FeedFrom(c, name, visible.value.0, visible.value.1, m.value, history.value))
  }

  // ----- Saving -----

  /** What an editor must echo: the loaded revision and tag, or zero and none for a feed that does not exist. */
  function EchoOf(loaded: Result<UpdateFeed, Error>): (int, ETag) {
    if loaded.Ok? then (loaded.value.revision, loaded.value.etag) else (0, NoTag)
  }

  function NewItem(name: string, input: Input, history: seq<UpdateFeed>, actor: int, now: int): UpdateFeed
    requires input.enabled.Some?
  {
    UpdateFeed(NoTag, name, input.description, input.enabled.value, LastRevision(history) + 1, now, actor, Some(input.manifest))
  }

  /** The history an accepted save will record, or why the save is refused. */
  function Admit(c: Codec, d: Dir, name: string, input: Input, actor: int, now: int): Result<seq<UpdateFeed>, Error> {
    if !ProperRequest(name, input, actor) || !Valid(c, input.manifest) then Err(Invalid)
    else
      var current := Get(c, d, name);
      if current.Err? && current.error != NotFound then Err(current.error)
      else if EchoOf(current) != (input.revision, input.etag) then Err(Conflict)
      else
        var history := FullHistory(c, d, name);
        if history.Err? then history
        else
          var recorded := history.value + [NewItem(name, input, history.value, actor, now)];
          if HistoryFits(c, recorded) then Ok(recorded) else Err(TooLarge)
  }

  /** Write the file on its side, remove it from the other side, record the history. */
  function SavePlan(c: Codec, name: string, enabled: bool, file: File, recorded: seq<UpdateFeed>): (steps: seq<FileStep>)
    ensures |steps| == 3
  {
    if enabled then [WritePublic(name, file), RemoveDisabled(name), WriteSidecar(name, c.encodeHistory(recorded))]
    else [WriteDisabled(name, file), RemovePublic(name), WriteSidecar(name, c.encodeHistory(recorded))]
  }

  function PlanOf(c: Codec, name: string, input: Input, recorded: seq<UpdateFeed>, now: int): (steps: seq<FileStep>)
    requires input.enabled.Some?
    ensures |steps| == 3
  {
    SavePlan(c, name, input.enabled.value, File(SavedText(c, input.manifest), now), recorded)
  }

  /** The directory after the first k steps of an admitted save. */
  function AfterSteps(c: Codec, d: Dir, name: string, input: Input, recorded: seq<UpdateFeed>, now: int, k: nat): Dir
    requires input.enabled.Some? && k <= 3
  {
    Replay(d, PlanOf(c, name, input, recorded, now)[..k])
  }

  // ----- Importing -----

  /** The steps for one feed: never over an existing sidecar, and no file if either side already has one. */
  function ItemSteps(c: Codec, d: Dir, db: Sql.Db, name: string, now: int): Result<seq<FileStep>, Error> {
    var current, history := Sql.Get(c, db, name), Sql.FeedsOf(c, name, Sql.RowsOf(db, name));
    if current.Err? then Err(current.error)
    else if history.Err? then Err(history.error)
    else if current.value.manifest.None? then Err(Corrupt)
    else
      var file := File(c.indent(current.value.manifest.value), now);
      Ok((if name in d.sidecars then [] else [WriteSidecar(name, c.encodeHistory(history.value))])
         + (if name in d.published || name in d.disabled then []
            else if current.value.enabled then [WritePublic(name, file)] else [WriteDisabled(name, file)]))
  }

  datatype ImportPlan = ImportPlan(steps: seq<FileStep>, error: Option<Error>)

  /** The steps for the listed feeds up to the first one that cannot be read. */
  function ItemsPlan(c: Codec, d: Dir, db: Sql.Db, names: seq<string>, now: int): ImportPlan {
    if names == [] then ImportPlan([], None)
    else
      var n := |names| - 1;
      var before := ItemsPlan(c, d, db, names[..n], now);
      if before.error.Some? then before
      else
        match ItemSteps(c, d, db, names[n], now)
        case Err(e) => ImportPlan(before.steps, Some(e))
        case Ok(steps) => ImportPlan(before.steps + steps, None)
  }

  /** A whole import: nothing once the marker is there, and the marker last. */
  function Import(c: Codec, d: Dir, db: Sql.Db, names: seq<string>, now: int): ImportPlan {
    if d.marker then ImportPlan([], None)
    else
      var items := ItemsPlan(c, d, db, names, now);
      if items.error.Some? then items else ImportPlan(items.steps + [WriteMarker], None)
  }

  /** The feeds of the old catalog, each once, in whatever order. */
  ghost predicate Listing(db: Sql.Db, names: seq<string>) {
    && Distinct(names)
    && (forall n :: n in names <==> Sql.CurrentRow(db, n).Ok?)
  }

  // ----- Replaying -----

  lemma ReplayNext(d: Dir, steps: seq<FileStep>, k: nat)
    requires k < |steps|
    ensures Replay(d, steps[..k + 1]) == Apply(Replay(d, steps[..k]), steps[k])
  {
    assert steps[..k + 1][..k] == steps[..k];
  }

  lemma {:induction false} ReplayConcat(d: Dir, a: seq<FileStep>, b: seq<FileStep>)
    ensures Replay(d, a + b) == Replay(Replay(d, a), b)
  {
    if b == [] {
      assert a + b == a;
    } else {
      ReplayConcat(d, a, b[..|b| - 1]);
      assert (a + b)[..|a + b| - 1] == a + b[..|b| - 1];
    }
  }

  predicate Touches(step: FileStep, name: string) {
    step.WriteMarker? || step.name == name
  }

  /** Steps for other feeds leave a feed's files alone. */
  lemma {:induction false} ReplayElsewhere(d: Dir, steps: seq<FileStep>, name: string)
    requires forall i :: 0 <= i < |steps| ==> !Touches(steps[i], name)
    ensures var d' := Replay(d, steps);
            && (name in d'.published <==> name in d.published) && (name in d.published ==> d'.published[name] == d.published[name])
            && (name in d'.disabled <==> name in d.disabled) && (name in d.disabled ==> d'.disabled[name] == d.disabled[name])
            && (name in d'.sidecars <==> name in d.sidecars) && (name in d.sidecars ==> d'.sidecars[name] == d.sidecars[name])
            && d'.marker == d.marker
  {
    if steps != [] {
      ReplayElsewhere(d, steps[..|steps| - 1], name);
    }
  }

  ghost predicate OnlyFor(steps: seq<FileStep>, names: seq<string>) {
    forall i :: 0 <= i < |steps| ==> !steps[i].WriteMarker? && steps[i].name in names
  }

  lemma ItemStepsName(c: Codec, d: Dir, db: Sql.Db, name: string, now: int)
    requires ItemSteps(c, d, db, name, now).Ok?
    ensures OnlyFor(ItemSteps(c, d, db, name, now).value, [name])
  {}

  lemma {:induction false} ItemsPlanNames(c: Codec, d: Dir, db: Sql.Db, names: seq<string>, now: int)
    ensures OnlyFor(ItemsPlan(c, d, db, names, now).steps, names)
  {
    if names != [] {
      var n := |names| - 1;
      ItemsPlanNames(c, d, db, names[..n], now);
      assert forall x :: x in names[..n] ==> x in names;
      if ItemSteps(c, d, db, names[n], now).Ok? {
        ItemStepsName(c, d, db, names[n], now);
      }
    }
  }

  // ----- The catalog -----

  /** `stepsLeft` is how many more file steps will succeed before one fails or the process dies. */
  class DirectoryUpdateCatalog {
    const codec: Codec
    var published: map<string, File>
    var disabled: map<string, File>
    var sidecars: map<string, string>
    var marker: bool
    var stepsLeft: nat

    ghost function View(): Dir
      reads this
    {
      Dir(published, disabled, sidecars, marker)
    }

    constructor (codec: Codec, d: Dir, stepsLeft: nat)
      ensures View() == d && this.stepsLeft == stepsLeft && this.codec == codec
    {
      this.codec, this.stepsLeft := codec, stepsLeft;
      published, disabled, sidecars, marker := d.published, d.disabled, d.sidecars, d.marker;
    }

    /** One atomic write or removal: it happens entirely or not at all. */
    method Take(step: FileStep) returns (ok: bool)
      modifies this
      ensures ok <==> old(stepsLeft) > 0
      ensures ok ==> View() == Apply(old(View()), step) && stepsLeft == old(stepsLeft) - 1
      ensures !ok ==> View() == old(View()) && stepsLeft == 0
    {
      if stepsLeft == 0 {
        return false;
      }
      stepsLeft := stepsLeft - 1;
      match step {
        case WritePublic(name, file) => published := published[name := file];
        case WriteDisabled(name, file) => disabled := disabled[name := file];
        case RemovePublic(name) => published := published - {name};
        case RemoveDisabled(name) => disabled := disabled - {name};
        case WriteSidecar(name, data) => sidecars := sidecars[name := data];
        case WriteMarker => marker := true;
      }
      return true;
    }

    method GetUpdateFeed(name: string) returns (r: Result<UpdateFeed, Error>)
      ensures r == Get(codec, View(), name)
    {
      if !ValidName(name) {
        return Err(NotFound);
      }
      var enabled := true;
      var file := Read(codec, published, name);
      if file.Err? && file.error == NotFound {
        enabled := false;
        file := Read(codec, disabled, name);
      }
      if file.Err? {
        return Err(file.error);
      }
      var m := Decode(codec, file.value.data);
      if m.Err? {
        return Err(m.error);
      }
      var history := FullHistory(codec, Dir(published, disabled, sidecars, marker), name);
      if history.Err? {
        return Err(history.error);
      }
      return Ok(FeedFrom(codec, name, file.value, enabled, m.value, history.value));
    }

    method GetPublicJson(name: string) returns (r: Result<string, Error>)
      ensures r == PublicJson(codec, View(), name)
    {
      if !ValidName(name) {
        return Err(NotFound);
      }
      var file := Read(codec, published, name);
      if file.Err? {
        return Err(file.error);
      }
      return Ok(file.value.data);
    }

    method GetPublicUpdate(name: string) returns (r: Result<Manifest, Error>)
      ensures r == Public(codec, View(), name)
    {
      var data := GetPublicJson(name);
      if data.Err? {
        return Err(data.error);
      }
      return Decode(codec, data.value);
    }

    method UpdateFeedHistory(name: string) returns (r: Result<seq<UpdateFeed>, Error>)
      ensures r == History(codec, View(), name)
    {
      if !ValidName(name) {
        return Err(NotFound);
      }
      var items := FullHistory(codec, Dir(published, disabled, sidecars, marker), name);
      if items.Err? {
        return items;
      }
      var all, result := items.value, [];
      var i := |all|;
      while i > 0 && |result| < 20
        invariant 0 <= i <= |all| && |result| == |all| - i <= 20
        invariant forall j :: 0 <= j < |result| ==> result[j] == all[|all| - 1 - j]
        decreases i
      {
        i := i - 1;
        result := result + [all[i]];
      }
      assert result == NewestFirst(all, HISTORY_SHOWN);
      return Ok(result);
    }

    /** A refused save changes nothing. An admitted one carries out its three steps in order as far as the file system
        lets it; when all three are done it reports the feed as it then reads. */
    method SaveUpdateFeed(name: string, input: Input, actor: int, now: int) returns (r: Result<UpdateFeed, Error>)
      modifies this
      ensures var admitted := Admit(codec, old(View()), name, input, actor, now);
              && (admitted.Err? ==> View() == old(View()) && r == Err(admitted.error))
              && (admitted.Ok? ==>
                    && input.enabled.Some?
                    && var k := if old(stepsLeft) < 3 then old(stepsLeft) else 3;
                       && View() == AfterSteps(codec, old(View()), name, input, admitted.value, now, k)
                       && r == if k < 3 then Err(StepFailed) else Get(codec, View(), name))
    {
      if !ProperRequest(name, input, actor) || !Valid(codec, input.manifest) {
        return Err(Invalid);
      }
      var current := GetUpdateFeed(name);
      if current.Err? && current.error != NotFound {
        return Err(current.error);
      }
      if EchoOf(current) != (input.revision, input.etag) {
        return Err(Conflict);
      }
      var history := FullHistory(codec, Dir(published, disabled, sidecars, marker), name);
      if history.Err? {
        return Err(history.error);
      }
      var item := NewItem(name, input, history.value, actor, now);
      var recorded := history.value + [item];
      var metadata := codec.encodeHistory(recorded);
      if |metadata| > 64 * 1024 * 1024 {
        return Err(TooLarge);
      }
      var file := File(SavedText(codec, input.manifest), now);
      ghost var start, plan := View(), PlanOf(codec, name, input, recorded, now);
      assert plan[..0] == [];
      ReplayNext(start, plan, 0);
      ReplayNext(start, plan, 1);
      ReplayNext(start, plan, 2);
      var ok := Take(if item.enabled then WritePublic(name, file) else WriteDisabled(name, file));
      if !ok {
        return Err(StepFailed);
      }
      ok := Take(if item.enabled then RemoveDisabled(name) else RemovePublic(name));
      if !ok {
        return Err(StepFailed);
      }
      ok := Take(WriteSidecar(name, metadata));
      if !ok {
        return Err(StepFailed);
      }
      r := GetUpdateFeed(name);
    }

    /** One feed of an import: its sidecar if there is none, then its file if neither side has one. */
    method ImportItem(source: Sql.Db, name: string, now: int) returns (error: Option<Error>)
      modifies this
      ensures CarriedOut(old(View()), ItemPlan(codec, old(View()), source, name, now), old(stepsLeft), View(), stepsLeft, error)
    {
      var current := Sql.Get(codec, source, name);
      if current.Err? {
        return Some(current.error);
      }
      var history := Sql.FeedsOf(codec, name, Sql.RowsOf(source, name));
      if history.Err? {
        return Some(history.error);
      }
      if current.value.manifest.None? {
        return Some(Corrupt);
      }
      ghost var start, steps := View(), ItemSteps(codec, View(), source, name, now).value;
      ReplayTwo(start, steps);
      var ok: bool;
      if name !in sidecars {
        ok := Take(WriteSidecar(name, codec.encodeHistory(history.value)));
        if !ok {
          return Some(StepFailed);
        }
      }
      if name !in published && name !in disabled {
        var file := File(codec.indent(current.value.manifest.value), now);
        ok := Take(if current.value.enabled then WritePublic(name, file) else WriteDisabled(name, file));
        if !ok {
          return Some(StepFailed);
        }
      }
      return None;
    }

    /** The import looks at each feed's own files when its turn comes; what it does is the plan made from the directory
        at the start, as far as the file system lets it. */
    method ImportItems(source: Sql.Db, names: seq<string>, now: int) returns (error: Option<Error>)
      requires Distinct(names)
      modifies this
      ensures CarriedOut(old(View()), ItemsPlan(codec, old(View()), source, names, now), old(stepsLeft), View(), stepsLeft, error)
    {
      ghost var start := View();
      error := None;
      assert names[..0] == [];
      for i := 0 to |names|
        invariant error.None?
        invariant CarriedOut(start, ItemsPlan(codec, start, source, names[..i], now), old(stepsLeft), View(), stepsLeft, None)
      {
        ghost var mid, left := View(), stepsLeft;
        error := ImportItem(source, names[i], now);
        OneMoreItem(codec, start, source, names, i, now, old(stepsLeft), mid, left, View(), stepsLeft, error);
        if error.Some? {
          return;
        }
      }
      assert names[..|names|] == names;
    }

    /** Nothing once the marker is there; otherwise every listed feed and then the marker. */
    method ImportLegacy(legacy: Sql.SQLiteCatalog, names: seq<string>, now: int) returns (error: Option<Error>)
      requires legacy.codec == codec && Listing(legacy.View(), names)
      modifies this
      ensures CarriedOut(old(View()), Import(codec, old(View()), legacy.View(), names, now), old(stepsLeft),
                         View(), stepsLeft, error)
    {
      if marker {
        return None;
      }
      ghost var start := View();
      var source := Sql.Db(legacy.feeds, legacy.rows, legacy.migrated, legacy.legacy);
      error := ImportItems(source, names, now);
      if error.Some? {
        StoppedEarly(codec, start, source, names, now, old(stepsLeft), View(), stepsLeft, error);
        return;
      }
      ghost var items, left := View(), stepsLeft;
      var ok := Take(WriteMarker);
      LastStep(codec, start, source, names, now, old(stepsLeft), items, left);
      if !ok {
        error := Some(StepFailed);
      }
    }
  }

  lemma ReplayTwo(d: Dir, steps: seq<FileStep>)
    requires |steps| <= 2
    ensures Replay(d, steps[..0]) == d
    ensures |steps| >= 1 ==> Replay(d, steps[..1]) == Apply(d, steps[0])
    ensures |steps| == 2 ==> Replay(d, steps[..2]) == Apply(Apply(d, steps[0]), steps[1])
  {}

  // ----- Carrying out a plan -----

  /** Some budget of steps was spent on a plan: all of it done, or as many steps as the budget had. */
  ghost predicate CarriedOut(start: Dir, plan: ImportPlan, budget: nat, end: Dir, left: int, error: Option<Error>) {
    var k := if budget < |plan.steps| then budget else |plan.steps|;
    && end == Replay(start, plan.steps[..k])
    && left == budget - k
    && error == if k < |plan.steps| then Some(StepFailed) else plan.error
  }

  function ItemPlan(c: Codec, d: Dir, db: Sql.Db, name: string, now: int): ImportPlan {
    match ItemSteps(c, d, db, name, now)
    case Err(e) => ImportPlan([], Some(e))
    case Ok(steps) => ImportPlan(steps, None)
  }

  predicate Distinct(names: seq<string>) {
    forall i, j :: 0 <= i < j < |names| ==> names[i] != names[j]
  }

  /** Two plans carried out one after the other are their concatenation carried out. */
  lemma CarriedOutBoth(start: Dir, a: ImportPlan, b: ImportPlan, budget: nat, mid: Dir, left: nat, end: Dir, left': nat,
                       error: Option<Error>)
    requires CarriedOut(start, a, budget, mid, left, None) && CarriedOut(mid, b, left, end, left', error)
    ensures CarriedOut(start, ImportPlan(a.steps + b.steps, b.error), budget, end, left', error)
  {
    var k := if left < |b.steps| then left else |b.steps|;
    assert a.steps[..|a.steps|] == a.steps;
    assert (a.steps + b.steps)[..|a.steps| + k] == a.steps + b.steps[..k];
    ReplayConcat(start, a.steps, b.steps[..k]);
  }

  /** A plan that stops inside its first part or fails with it is that part. */
  lemma CarriedOutPart(start: Dir, a: ImportPlan, b: ImportPlan, budget: nat, end: Dir, left: nat, error: Option<Error>)
    requires CarriedOut(start, a, budget, end, left, error) && error.Some?
    requires a.steps <= b.steps && (a.error.Some? ==> a == b)
    ensures CarriedOut(start, b, budget, end, left, error)
  {
    if a != b {
      assert budget < |a.steps|;
      assert b.steps[..budget] == a.steps[..budget];
    }
  }

  lemma OneMoreItem(c: Codec, start: Dir, db: Sql.Db, names: seq<string>, i: nat, now: int, budget: nat,
                    mid: Dir, left: nat, end: Dir, left': nat, error: Option<Error>)
    requires i < |names| && Distinct(names)
    requires CarriedOut(start, ItemsPlan(c, start, db, names[..i], now), budget, mid, left, None)
    requires CarriedOut(mid, ItemPlan(c, mid, db, names[i], now), left, end, left', error)
    ensures CarriedOut(start, ItemsPlan(c, start, db, names[..i + 1], now), budget, end, left', error)
    ensures error.Some? ==> CarriedOut(start, ItemsPlan(c, start, db, names, now), budget, end, left', error)
  {
    var before, item := ItemsPlan(c, start, db, names[..i], now), ItemPlan(c, mid, db, names[i], now);
    assert before.steps[..|before.steps|] == before.steps;
    ItemUnmoved(c, start, db, names, i, now);
    PlanGoesOn(c, start, db, names, i, now);
    CarriedOutBoth(start, before, item, budget, mid, left, end, left', error);
    var more := ItemsPlan(c, start, db, names[..i + 1], now);
    assert more == ImportPlan(before.steps + item.steps, item.error);
    if error.Some? {
      PlanPrefix(c, start, db, names, i + 1, now);
      if more.error.Some? {
        ItemsPlanStops(c, start, db, names, i, now);
      }
      CarriedOutPart(start, more, ItemsPlan(c, start, db, names, now), budget, end, left', error);
    }
  }

  lemma StoppedEarly(c: Codec, start: Dir, db: Sql.Db, names: seq<string>, now: int, budget: nat, end: Dir, left: nat,
                     error: Option<Error>)
    requires !start.marker && error.Some?
    requires CarriedOut(start, ItemsPlan(c, start, db, names, now), budget, end, left, error)
    ensures CarriedOut(start, Import(c, start, db, names, now), budget, end, left, error)
  {
    CarriedOutPart(start, ItemsPlan(c, start, db, names, now), Import(c, start, db, names, now), budget, end, left, error);
  }

  lemma LastStep(c: Codec, start: Dir, db: Sql.Db, names: seq<string>, now: int, budget: nat, mid: Dir, left: nat)
    requires !start.marker && CarriedOut(start, ItemsPlan(c, start, db, names, now), budget, mid, left, None)
    ensures left > 0 ==> CarriedOut(start, Import(c, start, db, names, now), budget, Apply(mid, WriteMarker), left - 1, None)
    ensures left == 0 ==> CarriedOut(start, Import(c, start, db, names, now), budget, mid, 0, Some(StepFailed))
  {
    var last := ImportPlan([WriteMarker], None);
    var items := ItemsPlan(c, start, db, names, now);
    assert items.error.None?;
    ReplayNext(mid, last.steps, 0);
    assert last.steps[..0] == [];
    if left > 0 {
      CarriedOutBoth(start, items, last, budget, mid, left, Apply(mid, WriteMarker), left - 1, None);
    } else {
      CarriedOutBoth(start, items, last, budget, mid, left, mid, 0, Some(StepFailed));
    }
  }

  /** The steps planned before a feed's turn do not change what its own import will find. */
  lemma ItemUnmoved(c: Codec, start: Dir, db: Sql.Db, names: seq<string>, i: nat, now: int)
    requires i < |names| && Distinct(names)
    ensures var before := ItemsPlan(c, start, db, names[..i], now).steps;
            ItemSteps(c, Replay(start, before), db, names[i], now) == ItemSteps(c, start, db, names[i], now)
  {
    var before := ItemsPlan(c, start, db, names[..i], now).steps;
    ItemsPlanNames(c, start, db, names[..i], now);
    assert names[i] !in names[..i];
    ReplayElsewhere(start, before, names[i]);
    SameItem(c, start, Replay(start, before), db, names[i], now);
  }

  lemma SameItem(c: Codec, d: Dir, d': Dir, db: Sql.Db, name: string, now: int)
    requires (name in d'.published <==> name in d.published) && (name in d'.disabled <==> name in d.disabled)
    requires name in d'.sidecars <==> name in d.sidecars
    ensures ItemSteps(c, d', db, name, now) == ItemSteps(c, d, db, name, now)
  {}

  lemma PlanGoesOn(c: Codec, d: Dir, db: Sql.Db, names: seq<string>, i: nat, now: int)
    requires i < |names| && ItemsPlan(c, d, db, names[..i], now).error.None?
    ensures var steps := ItemSteps(c, d, db, names[i], now);
            var before := ItemsPlan(c, d, db, names[..i], now).steps;
            ItemsPlan(c, d, db, names[..i + 1], now)
            == if steps.Err? then ImportPlan(before, Some(steps.error)) else ImportPlan(before + steps.value, None)
  {
    assert names[..i + 1][..i] == names[..i];
  }

  /** After a feed that cannot be read nothing more is planned. */
  lemma {:induction false} ItemsPlanStops(c: Codec, d: Dir, db: Sql.Db, names: seq<string>, i: nat, now: int)
    requires i < |names| && ItemsPlan(c, d, db, names[..i + 1], now).error.Some?
    ensures ItemsPlan(c, d, db, names, now) == ItemsPlan(c, d, db, names[..i + 1], now)
    decreases |names| - i
  {
    if i + 1 < |names| {
      assert names[..i + 2][..i + 1] == names[..i + 1];
      ItemsPlanStops(c, d, db, names, i + 1, now);
    } else {
      assert names[..i + 1] == names;
    }
  }

  /** Plans for fewer feeds are prefixes of plans for more. */
  lemma {:induction false} PlanPrefix(c: Codec, d: Dir, db: Sql.Db, names: seq<string>, i: nat, now: int)
    requires i <= |names|
    ensures ItemsPlan(c, d, db, names[..i], now).steps <= ItemsPlan(c, d, db, names, now).steps
    decreases |names| - i
  {
    if i < |names| {
      assert names[..i + 1][..i] == names[..i];
      PlanPrefix(c, d, db, names, i + 1, now);
    } else {
      assert names[..i] == names;
    }
  }
}
