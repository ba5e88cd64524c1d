/** The one-time import of a SQLite catalog into a directory: cut off anywhere and started again any number of times, it
    ends where one uninterrupted import ends, and it never changes what was there before. */
module ImportLaws {
  import opened Wrappers
  import opened Updates
  import opened DirectoryUpdates
  import opened SaveCrashes
  import Sql = SqliteUpdates

  /** The texts of one feed in the directory, without file times. */
  datatype Slot = Slot(published: Option<string>, disabled: Option<string>, sidecar: Option<string>)

  function TextOf(files: map<string, File>, name: string): Option<string> {
    if name in files then Some(files[name].data) else None
  }

  function SlotOf(d: Dir, name: string): Slot {
    Slot(TextOf(d.published, name), TextOf(d.disabled, name), if name in d.sidecars then Some(d.sidecars[name]) else None)
  }

  /** Every feed has the same texts on both sides; the marker is there in both or in neither. */
  ghost predicate SameTexts(d: Dir, d': Dir) {
    d.marker == d'.marker && forall name :: SlotOf(d, name) == SlotOf(d', name)
  }

  // ----- What an import is meant to do -----

  /** The feed's current row and all its rows decode. */
  predicate Readable(c: Codec, db: Sql.Db, name: string) {
    Sql.Get(c, db, name).Ok? && Sql.FeedsOf(c, name, Sql.RowsOf(db, name)).Ok?
  }

  function WithSidecar(c: Codec, db: Sql.Db, name: string, s: Slot): Slot
    requires Readable(c, db, name)
  {
    if s.sidecar.Some? then s
    else s.(sidecar := Some(c.encodeHistory(Sql.FeedsOf(c, name, Sql.RowsOf(db, name)).value)))
  }

  function WithFile(c: Codec, db: Sql.Db, name: string, s: Slot): Slot
    requires Readable(c, db, name)
  {
    var feed := Sql.Get(c, db, name).value;
    if s.published.Some? || s.disabled.Some? || feed.manifest.None? then s
    else if feed.enabled then s.(published := Some(c.indent(feed.manifest.value)))
    else s.(disabled := Some(c.indent(feed.manifest.value)))
  }

  /** The feed filled in from the database: what is missing is added, what is there stays. */
  function Fill(c: Codec, db: Sql.Db, name: string, s: Slot): Slot {
    if Readable(c, db, name) then WithFile(c, db, name, WithSidecar(c, db, name, s)) else s
  }

  /** Untouched, given its sidecar, or filled in: the states an import passes through. */
  predicate Between(c: Codec, db: Sql.Db, name: string, s: Slot, mid: Slot) {
    mid == s || (Readable(c, db, name) && (mid == WithSidecar(c, db, name, s) || mid == Fill(c, db, name, s)))
  }

  lemma BetweenLaws(c: Codec, db: Sql.Db, name: string, s: Slot, mid: Slot, end: Slot)
    requires Between(c, db, name, s, mid)
    ensures Fill(c, db, name, mid) == Fill(c, db, name, s)
    ensures Between(c, db, name, mid, end) ==> Between(c, db, name, s, end)
  {}

  // ----- One import, wholly or partly done -----

  lemma ItemStepsReadable(c: Codec, d: Dir, db: Sql.Db, name: string, now: int)
    ensures ItemSteps(c, d, db, name, now).Ok? <==> Readable(c, db, name)
    ensures ItemSteps(c, d, db, name, now).Ok? ==> |ItemSteps(c, d, db, name, now).value| <= 2
    ensures ItemSteps(c, d, db, name, now).Err? ==>
              Err(ItemSteps(c, d, db, name, now).error) == if Sql.Get(c, db, name).Err? then Sql.Get(c, db, name)
                                                           else Err(Sql.FeedsOf(c, name, Sql.RowsOf(db, name)).error)
  {}

  /** What one step does to one feed. */
  function SlotAfter(s: Slot, step: FileStep, name: string): Slot {
    if step.WriteMarker? || step.name != name then s
    else
      match step
      case WritePublic(_, file) => s.(published := Some(file.data))
      case WriteDisabled(_, file) => s.(disabled := Some(file.data))
      case RemovePublic(_) => s.(published := None)
      case RemoveDisabled(_) => s.(disabled := None)
      case WriteSidecar(_, data) => s.(sidecar := Some(data))
  }

  lemma SlotApply(d: Dir, step: FileStep, name: string)
    ensures SlotOf(Apply(d, step), name) == SlotAfter(SlotOf(d, name), step, name)
  {}

  /** The steps for a feed take it through these states and fill it in. */
  lemma ItemFills(c: Codec, d: Dir, db: Sql.Db, name: string, now: int, k: nat)
    requires ItemSteps(c, d, db, name, now).Ok? && k <= |ItemSteps(c, d, db, name, now).value|
    ensures var steps := ItemSteps(c, d, db, name, now).value;
            && Between(c, db, name, SlotOf(d, name), SlotOf(Replay(d, steps[..k]), name))
            && (k == |steps| ==> SlotOf(Replay(d, steps[..k]), name) == Fill(c, db, name, SlotOf(d, name)))
  {
    ItemStepsReadable(c, d, db, name, now);
    var steps := ItemSteps(c, d, db, name, now).value;
    ReplayTwo(d, steps);
    if k > 0 {
      SlotApply(d, steps[0], name);
      FirstFills(c, d, db, name, now);
    } else if steps == [] {
      NothingToFill(c, d, db, name, now);
    }
    if k > 1 {
      SlotApply(Apply(d, steps[0]), steps[1], name);
      BothFill(c, d, db, name, now);
    }
  }

  lemma NothingToFill(c: Codec, d: Dir, db: Sql.Db, name: string, now: int)
    requires ItemSteps(c, d, db, name, now) == Ok([])
    ensures Fill(c, db, name, SlotOf(d, name)) == SlotOf(d, name)
  {}

  /** The first step gives the sidecar if there is none; if it is the only step, the feed is then filled in. */
  lemma FirstFills(c: Codec, d: Dir, db: Sql.Db, name: string, now: int)
    requires ItemSteps(c, d, db, name, now).Ok? && ItemSteps(c, d, db, name, now).value != [] && Readable(c, db, name)
    ensures var steps, s := ItemSteps(c, d, db, name, now).value, SlotOf(d, name);
            SlotAfter(s, steps[0], name) == if |steps| == 1 then Fill(c, db, name, s) else WithSidecar(c, db, name, s)
  {}

  lemma BothFill(c: Codec, d: Dir, db: Sql.Db, name: string, now: int)
    requires ItemSteps(c, d, db, name, now).Ok? && |ItemSteps(c, d, db, name, now).value| == 2 && Readable(c, db, name)
    ensures var steps, s := ItemSteps(c, d, db, name, now).value, SlotOf(d, name);
            SlotAfter(SlotAfter(s, steps[0], name), steps[1], name) == Fill(c, db, name, s)
  {}

  lemma SlotElsewhere(d: Dir, steps: seq<FileStep>, name: string)
    requires forall i :: 0 <= i < |steps| ==> !Touches(steps[i], name)
    ensures SlotOf(Replay(d, steps), name) == SlotOf(d, name) && Replay(d, steps).marker == d.marker
  {}

  /** After k steps of the items plan. */
  function After(c: Codec, d: Dir, db: Sql.Db, names: seq<string>, now: int, k: nat): Dir
    requires k <= |ItemsPlan(c, d, db, names, now).steps|
  {
    Replay(d, ItemsPlan(c, d, db, names, now).steps[..k])
  }

  lemma NotListed(c: Codec, d: Dir, db: Sql.Db, names: seq<string>, now: int, k: nat, name: string)
    requires name !in names && k <= |ItemsPlan(c, d, db, names, now).steps|
    ensures SlotOf(After(c, d, db, names, now, k), name) == SlotOf(d, name)
  {
    ItemsPlanNames(c, d, db, names, now);
    SlotElsewhere(d, ItemsPlan(c, d, db, names, now).steps[..k], name);
  }

  /** A stop before the last feed's turn is a stop in the plan for the other feeds. */
  lemma StopsBeforeLast(c: Codec, d: Dir, db: Sql.Db, names: seq<string>, now: int, k: nat)
    requires names != [] && k <= |ItemsPlan(c, d, db, names[..|names| - 1], now).steps|
    ensures k <= |ItemsPlan(c, d, db, names, now).steps|
    ensures After(c, d, db, names, now, k) == After(c, d, db, names[..|names| - 1], now, k)
  {
    var n := |names| - 1;
    var before, last := ItemsPlan(c, d, db, names[..n], now), ItemSteps(c, d, db, names[n], now);
    if before.error.None? && last.Ok? {
      TakeOf(before.steps, last.value, k);
    }
  }

  /** A stop in the last feed's turn is a stop in that feed's own steps, on top of all the others. */
  lemma StopsInLast(c: Codec, d: Dir, db: Sql.Db, names: seq<string>, now: int, k: nat)
    requires names != [] && Distinct(names)
    requires |ItemsPlan(c, d, db, names[..|names| - 1], now).steps| < k <= |ItemsPlan(c, d, db, names, now).steps|
    ensures var n := |names| - 1;
            var before, last := ItemsPlan(c, d, db, names[..n], now), ItemSteps(c, d, db, names[n], now);
            var mid, j := Replay(d, before.steps), k - |before.steps|;
            && before.error.None? && last.Ok? && ItemSteps(c, mid, db, names[n], now) == last
            && ItemsPlan(c, d, db, names, now).steps == before.steps + last.value
            && After(c, d, db, names, now, k) == Replay(mid, last.value[..j])
  {
    var n := |names| - 1;
    var before, last := ItemsPlan(c, d, db, names[..n], now), ItemSteps(c, d, db, names[n], now);
    TakeOf(before.steps, last.value, k);
    ReplayConcat(d, before.steps, last.value[..k - |before.steps|]);
    ItemUnmoved(c, d, db, names, n, now);
  }

  lemma TakeOf<T>(a: seq<T>, b: seq<T>, k: nat)
    requires k <= |a| + |b|
    ensures (a + b)[..k] == if k <= |a| then a[..k] else a + b[..k - |a|]
  {}

  lemma {:induction false} SlotFollows(d: Dir, d': Dir, steps: seq<FileStep>, name: string)
    requires SlotOf(d, name) == SlotOf(d', name)
    ensures SlotOf(Replay(d, steps), name) == SlotOf(Replay(d', steps), name)
  {
    if steps != [] {
      var n := |steps| - 1;
      SlotFollows(d, d', steps[..n], name);
      SlotApply(Replay(d, steps[..n]), steps[n], name);
      SlotApply(Replay(d', steps[..n]), steps[n], name);
    }
  }

  /** Stopping inside the plan is, for one feed, stopping j steps into that feed's own steps. */
  ghost predicate StopsAt(c: Codec, d: Dir, db: Sql.Db, name: string, now: int, j: nat, end: Dir) {
    var own := ItemSteps(c, d, db, name, now);
    && (own.Err? ==> j == 0 && SlotOf(end, name) == SlotOf(d, name))
    && (own.Ok? ==> j <= |own.value| && SlotOf(end, name) == SlotOf(Replay(d, own.value[..j]), name))
  }

  /** After the last of its own steps if the plan is done. */
  lemma {:induction false} OwnSteps(c: Codec, d: Dir, db: Sql.Db, names: seq<string>, now: int, k: nat, name: string) returns (j: nat)
    requires Distinct(names) && name in names && k <= |ItemsPlan(c, d, db, names, now).steps|
    ensures StopsAt(c, d, db, name, now, j, After(c, d, db, names, now, k))
    ensures var own, plan := ItemSteps(c, d, db, name, now), ItemsPlan(c, d, db, names, now);
            k == |plan.steps| && plan.error.None? ==> own.Ok? && j == |own.value|
  {
    var n := |names| - 1;
    if name == names[n] {
      j := OwnStepsLast(c, d, db, names, now, k);
    } else {
      assert name in names[..n];
      var before := |ItemsPlan(c, d, db, names[..n], now).steps|;
      j := OwnSteps(c, d, db, names[..n], now, if k <= before then k else before, name);
      OwnStepsEarlier(c, d, db, names, now, k, name);
    }
  }

  lemma OwnStepsLast(c: Codec, d: Dir, db: Sql.Db, names: seq<string>, now: int, k: nat) returns (j: nat)
    requires names != [] && Distinct(names) && k <= |ItemsPlan(c, d, db, names, now).steps|
    ensures var name := names[|names| - 1];
            && StopsAt(c, d, db, name, now, j, After(c, d, db, names, now, k))
            && var own, plan := ItemSteps(c, d, db, name, now), ItemsPlan(c, d, db, names, now);
               k == |plan.steps| && plan.error.None? ==> own.Ok? && j == |own.value|
  {
    var n := |names| - 1;
    var before := ItemsPlan(c, d, db, names[..n], now);
    NotListed(c, d, db, names[..n], now, if k < |before.steps| then k else |before.steps|, names[n]);
    assert before.steps[..|before.steps|] == before.steps;
    if k <= |before.steps| {
      StopsBeforeLast(c, d, db, names, now, k);
      j := 0;
      var own := ItemSteps(c, d, db, names[n], now);
      assert own.Ok? ==> own.value[..0] == [];
    } else {
      StopsInLast(c, d, db, names, now, k);
      j := k - |before.steps|;
      SlotFollows(d, Replay(d, before.steps), ItemSteps(c, d, db, names[n], now).value[..j], names[n]);
    }
  }

  lemma OwnStepsEarlier(c: Codec, d: Dir, db: Sql.Db, names: seq<string>, now: int, k: nat, name: string)
    requires Distinct(names) && name in names && name != names[|names| - 1] && k <= |ItemsPlan(c, d, db, names, now).steps|
    ensures var n := |names| - 1;
            var before := |ItemsPlan(c, d, db, names[..n], now).steps|;
            SlotOf(After(c, d, db, names, now, k), name)
            == SlotOf(After(c, d, db, names[..n], now, if k <= before then k else before), name)
  {
    var n := |names| - 1;
    var before := ItemsPlan(c, d, db, names[..n], now).steps;
    if k <= |before| {
      StopsBeforeLast(c, d, db, names, now, k);
    } else {
      StopsInLast(c, d, db, names, now, k);
      assert before[..|before|] == before;
      ItemStepsName(c, Replay(d, before), db, names[n], now);
      SlotElsewhere(Replay(d, before), ItemSteps(c, Replay(d, before), db, names[n], now).value[..k - |before|], name);
    }
  }

  /** Wherever an import stops, every feed is in one of its three states; a finished import has filled in each listed one. */
  lemma StopsBetween(c: Codec, d: Dir, db: Sql.Db, names: seq<string>, now: int, k: nat, name: string)
    requires Distinct(names) && k <= |ItemsPlan(c, d, db, names, now).steps|
    ensures var end, plan := After(c, d, db, names, now, k), ItemsPlan(c, d, db, names, now);
            && Between(c, db, name, SlotOf(d, name), SlotOf(end, name))
            && (k == |plan.steps| && plan.error.None? ==>
                  SlotOf(end, name) == if name in names then Fill(c, db, name, SlotOf(d, name)) else SlotOf(d, name))
  {
    if name in names {
      var j := OwnSteps(c, d, db, names, now, k, name);
      if ItemSteps(c, d, db, name, now).Ok? {
        ItemFills(c, d, db, name, now, j);
      }
    } else {
      NotListed(c, d, db, names, now, k, name);
    }
  }

  // ----- Starting the service again and again -----

  /** One start of the service; `steps` is how many file steps of its import happen. */
  datatype Attempt = Attempt(names: seq<string>, now: int, steps: nat)

  function Start(c: Codec, d: Dir, db: Sql.Db, a: Attempt): Dir {
    var plan := Import(c, d, db, a.names, a.now).steps;
    Replay(d, plan[..if a.steps < |plan| then a.steps else |plan|])
  }

  function Starts(c: Codec, d: Dir, db: Sql.Db, attempts: seq<Attempt>): Dir
    decreases |attempts|
  {
    if attempts == [] then d else Starts(c, Start(c, d, db, attempts[0]), db, attempts[1..])
  }

  ghost predicate AllListings(db: Sql.Db, attempts: seq<Attempt>) {
    forall i :: 0 <= i < |attempts| ==> Listing(db, attempts[i].names)
  }

  /** Every feed has come from d to d' the way an import takes it. */
  ghost predicate OnTheWay(c: Codec, db: Sql.Db, d: Dir, d': Dir) {
    forall name :: Between(c, db, name, SlotOf(d, name), SlotOf(d', name))
  }

  ghost predicate AllFilled(c: Codec, db: Sql.Db, d: Dir, d': Dir) {
    forall name :: SlotOf(d', name) == Fill(c, db, name, SlotOf(d, name))
  }

  lemma UnlistedStay(c: Codec, db: Sql.Db, names: seq<string>, name: string, s: Slot)
    requires Listing(db, names) && name !in names
    ensures Fill(c, db, name, s) == s
  {}

  /** An import can run to its end exactly when every listed feed can be read. */
  lemma {:induction false} CompletesExactlyWhen(c: Codec, d: Dir, db: Sql.Db, names: seq<string>, now: int)
    ensures ItemsPlan(c, d, db, names, now).error.None? <==> forall name :: name in names ==> Readable(c, db, name)
    ensures !d.marker ==> Import(c, d, db, names, now).error == ItemsPlan(c, d, db, names, now).error
  {
    if names != [] {
      var n := |names| - 1;
      CompletesExactlyWhen(c, d, db, names[..n], now);
      ItemStepsReadable(c, d, db, names[n], now);
      AllReadable(c, db, names);
    }
  }

  lemma AllReadable(c: Codec, db: Sql.Db, names: seq<string>)
    requires names != []
    ensures (forall name :: name in names ==> Readable(c, db, name)) <==>
              Readable(c, db, names[|names| - 1]) && forall name :: name in names[..|names| - 1] ==> Readable(c, db, name)
  {
    assert names == names[..|names| - 1] + [names[|names| - 1]];
  }

  /** One start leaves every feed on its way, and sets the marker only with every feed filled in. */
  lemma StartGoesOn(c: Codec, d: Dir, db: Sql.Db, a: Attempt)
    requires !d.marker && Listing(db, a.names)
    ensures var d' := Start(c, d, db, a);
            OnTheWay(c, db, d, d') && (d'.marker ==> AllFilled(c, db, d, d'))
  {
    var d' := Start(c, d, db, a);
    forall name
      ensures Between(c, db, name, SlotOf(d, name), SlotOf(d', name))
      ensures d'.marker ==> SlotOf(d', name) == Fill(c, db, name, SlotOf(d, name))
    {
      FeedGoesOn(c, d, db, a, name);
    }
  }

  lemma StartSlot(c: Codec, d: Dir, db: Sql.Db, a: Attempt, name: string)
    requires !d.marker
    ensures SlotOf(Start(c, d, db, a), name) == SlotOf(After(c, d, db, a.names, a.now, Reach(c, d, db, a)), name)
    ensures var items := ItemsPlan(c, d, db, a.names, a.now);
            Start(c, d, db, a).marker ==> items.error.None? && Reach(c, d, db, a) == |items.steps|
  {
    StartIs(c, d, db, a);
    SlotApply(After(c, d, db, a.names, a.now, Reach(c, d, db, a)), WriteMarker, name);
  }

  lemma FeedGoesOn(c: Codec, d: Dir, db: Sql.Db, a: Attempt, name: string)
    requires !d.marker && Listing(db, a.names)
    ensures var d' := Start(c, d, db, a);
            && Between(c, db, name, SlotOf(d, name), SlotOf(d', name))
            && (d'.marker ==> SlotOf(d', name) == Fill(c, db, name, SlotOf(d, name)))
  {
    StartSlot(c, d, db, a, name);
    StopsBetween(c, d, db, a.names, a.now, Reach(c, d, db, a), name);
    if name !in a.names {
      UnlistedStay(c, db, a.names, name, SlotOf(d, name));
    }
  }

  /** How far into the items plan a start gets. */
  function Reach(c: Codec, d: Dir, db: Sql.Db, a: Attempt): (k: nat)
    ensures k <= |ItemsPlan(c, d, db, a.names, a.now).steps|
  {
    var items := ItemsPlan(c, d, db, a.names, a.now).steps;
    if a.steps < |items| then a.steps else |items|
  }

  /** The marker is the one step after the items plan. */
  lemma StartIs(c: Codec, d: Dir, db: Sql.Db, a: Attempt)
    requires !d.marker
    ensures var items, mid := ItemsPlan(c, d, db, a.names, a.now), After(c, d, db, a.names, a.now, Reach(c, d, db, a));
            && !mid.marker
            && Start(c, d, db, a) == if items.error.None? && a.steps > |items.steps| then Apply(mid, WriteMarker) else mid
  {
    var items, plan := ItemsPlan(c, d, db, a.names, a.now), Import(c, d, db, a.names, a.now).steps;
    var k := Reach(c, d, db, a);
    ItemsPlanNames(c, d, db, a.names, a.now);
    NoMarker(d, items.steps[..k]);
    if items.error.None? {
      TakeOf(items.steps, [WriteMarker], k);
      if a.steps > |items.steps| {
        ReplayNext(d, plan, |items.steps|);
      }
    }
  }

  lemma {:induction false} NoMarker(d: Dir, steps: seq<FileStep>)
    requires forall i :: 0 <= i < |steps| ==> !steps[i].WriteMarker?
    ensures Replay(d, steps).marker == d.marker
  {
    if steps != [] {
      NoMarker(d, steps[..|steps| - 1]);
    }
  }

  /** Once the marker is there no later start changes anything, so what was deleted stays deleted. */
  lemma {:induction false} MarkerEndsImports(c: Codec, d: Dir, db: Sql.Db, attempts: seq<Attempt>)
    requires d.marker
    ensures Starts(c, d, db, attempts) == d
    decreases |attempts|
  {
    if attempts != [] {
      assert Start(c, d, db, attempts[0]) == d;
      MarkerEndsImports(c, d, db, attempts[1..]);
    }
  }

  lemma {:induction false} StartsGoOn(c: Codec, d: Dir, db: Sql.Db, attempts: seq<Attempt>)
    requires !d.marker && AllListings(db, attempts)
    ensures var d' := Starts(c, d, db, attempts);
            OnTheWay(c, db, d, d') && (d'.marker ==> AllFilled(c, db, d, d'))
    decreases |attempts|
  {
    if attempts != [] {
      var mid, end := Start(c, d, db, attempts[0]), Starts(c, d, db, attempts);
      assert Listing(db, attempts[0].names);
      StartGoesOn(c, d, db, attempts[0]);
      if mid.marker {
        MarkerEndsImports(c, mid, db, attempts[1..]);
      } else {
        StartsGoOn(c, mid, db, attempts[1..]);
        WayJoins(c, db, d, mid, end);
      }
    }
  }

  lemma WayJoins(c: Codec, db: Sql.Db, d: Dir, mid: Dir, end: Dir)
    requires OnTheWay(c, db, d, mid)
    ensures OnTheWay(c, db, mid, end) ==> OnTheWay(c, db, d, end)
    ensures AllFilled(c, db, mid, end) ==> AllFilled(c, db, d, end)
  {
    forall name
      ensures Fill(c, db, name, SlotOf(mid, name)) == Fill(c, db, name, SlotOf(d, name))
      ensures Between(c, db, name, SlotOf(mid, name), SlotOf(end, name)) ==> Between(c, db, name, SlotOf(d, name), SlotOf(end, name))
    {
      assert Between(c, db, name, SlotOf(d, name), SlotOf(mid, name));
      BetweenLaws(c, db, name, SlotOf(d, name), SlotOf(mid, name), SlotOf(end, name));
    }
  }

  /** A start that the file system never stops. */
  predicate Complete(c: Codec, d: Dir, db: Sql.Db, a: Attempt) {
    a.steps >= |Import(c, d, db, a.names, a.now).steps|
  }

  /** If every feed of the database can be read, any number of imports, each cut off anywhere, followed by a complete one
      give the texts of a single uninterrupted import: every feed filled in, and the marker set. */
  lemma ImportsConverge(c: Codec, d: Dir, db: Sql.Db, cut: seq<Attempt>, last: Attempt, single: Attempt)
    requires !d.marker && AllListings(db, cut) && Listing(db, last.names) && Listing(db, single.names)
    requires forall name :: Sql.CurrentRow(db, name).Ok? ==> Readable(c, db, name)
    requires Complete(c, Starts(c, d, db, cut), db, last) && Complete(c, d, db, single)
    ensures SameTexts(Start(c, Starts(c, d, db, cut), db, last), Start(c, d, db, single))
    ensures Start(c, d, db, single).marker && AllFilled(c, db, d, Start(c, d, db, single))
  {
    CompleteFills(c, d, db, single);
    var mid := Starts(c, d, db, cut);
    StartsGoOn(c, d, db, cut);
    if mid.marker {
      MarkerEndsImports(c, mid, db, [last]);
    } else {
      CompleteFills(c, mid, db, last);
      WayJoins(c, db, d, mid, Start(c, mid, db, last));
    }
  }

  lemma CompleteFills(c: Codec, d: Dir, db: Sql.Db, a: Attempt)
    requires !d.marker && Listing(db, a.names) && Complete(c, d, db, a)
    requires forall name :: Sql.CurrentRow(db, name).Ok? ==> Readable(c, db, name)
    ensures Start(c, d, db, a).marker && AllFilled(c, db, d, Start(c, d, db, a))
  {
    CompletesExactlyWhen(c, d, db, a.names, a.now);
    StartIs(c, d, db, a);
    StartGoesOn(c, d, db, a);
  }

  // ----- What was there before -----

  /** The step adds something where the directory has nothing. */
  predicate Adds(d: Dir, step: FileStep) {
    match step
    case WritePublic(name, _) => name !in d.published && name !in d.disabled
    case WriteDisabled(name, _) => name !in d.published && name !in d.disabled
    case WriteSidecar(name, _) => name !in d.sidecars
    case WriteMarker => true
    case _ => false
  }

  lemma {:induction false} PlanAdds(c: Codec, d: Dir, db: Sql.Db, names: seq<string>, now: int)
    ensures forall i :: 0 <= i < |ItemsPlan(c, d, db, names, now).steps| ==> Adds(d, ItemsPlan(c, d, db, names, now).steps[i])
  {
    if names != [] {
      PlanAdds(c, d, db, names[..|names| - 1], now);
      ItemAdds(c, d, db, names[|names| - 1], now);
    }
  }

  lemma ItemAdds(c: Codec, d: Dir, db: Sql.Db, name: string, now: int)
    ensures var own := ItemSteps(c, d, db, name, now);
            own.Ok? ==> forall i :: 0 <= i < |own.value| ==> Adds(d, own.value[i])
  {}

  /** Files and sidecars that are there stay, byte for byte and with their times. */
  ghost predicate Keeps(d: Dir, d': Dir) {
    forall name ::
      && (name in d.sidecars ==> SameAt(d.sidecars, d'.sidecars, name))
      && (name in d.published || name in d.disabled ==>
            SameAt(d.published, d'.published, name) && SameAt(d.disabled, d'.disabled, name))
  }

  lemma {:induction false} AddingKeeps(d: Dir, steps: seq<FileStep>)
    requires forall i :: 0 <= i < |steps| ==> Adds(d, steps[i])
    ensures Keeps(d, Replay(d, steps))
  {
    if steps != [] {
      AddingKeeps(d, steps[..|steps| - 1]);
    }
  }

  /** No number of imports, whole or cut off, changes a file or a sidecar that was there before. */
  lemma {:induction false} ImportsKeepWhatIsThere(c: Codec, d: Dir, db: Sql.Db, attempts: seq<Attempt>)
    ensures Keeps(d, Starts(c, d, db, attempts))
    decreases |attempts|
  {
    if attempts != [] {
      var a := attempts[0];
      PlanAdds(c, d, db, a.names, a.now);
      var plan := Import(c, d, db, a.names, a.now).steps;
      AddingKeeps(d, plan[..if a.steps < |plan| then a.steps else |plan|]);
      ImportsKeepWhatIsThere(c, Start(c, d, db, a), db, attempts[1..]);
      KeepsJoins(d, Start(c, d, db, a), Starts(c, d, db, attempts));
    }
  }

  lemma KeepsJoins(d: Dir, mid: Dir, end: Dir)
    requires Keeps(d, mid) && Keeps(mid, end)
    ensures Keeps(d, end)
  {}
}
