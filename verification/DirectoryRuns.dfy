/** Runs of the update directory: saves that may stop after any file step, and in between an outside publisher who may
    create, replace or delete public and disabled files at will. */
module DirectoryRuns {
  import opened Wrappers
  import opened Updates
  import opened DirectoryUpdates
  import opened DirectoryReads
  import opened SaveCrashes

  /** `steps` is how many file steps of the save happen; `Outside` leaves any public and disabled files. */
  datatype Event =
    | SaveFeed(name: string, input: Input, actor: int, now: int, steps: nat)
    | Outside(published: map<string, File>, disabled: map<string, File>)

  function Step(c: Codec, d: Dir, e: Event): Dir {
    match e
    case SaveFeed(name, input, actor, now, steps) =>
      var admitted := Admit(c, d, name, input, actor, now);
      if admitted.Err? then d
      else AfterSteps(c, d, name, input, admitted.value, now, if steps < 3 then steps else 3)
    case Outside(published, disabled) => d.(published := published, disabled := disabled)
  }

  function Run(c: Codec, d: Dir, events: seq<Event>): Dir
    decreases |events|
  {
    if events == [] then d else Run(c, Step(c, d, events[0]), events[1..])
  }

  lemma {:induction false} RunNext(c: Codec, d: Dir, events: seq<Event>, e: Event)
    ensures Run(c, d, events + [e]) == Step(c, Run(c, d, events), e)
    decreases |events|
  {
    var all := events + [e];
    if events == [] {
      assert all[1..] == [];
    } else {
      assert all[1..] == events[1..] + [e];
      RunNext(c, Step(c, d, events[0]), events[1..], e);
    }
  }

  /** Positive and strictly increasing revisions. */
  ghost predicate Rising(history: seq<UpdateFeed>) {
    && (forall i :: 0 <= i < |history| ==> history[i].revision > 0)
    && (forall i, j :: 0 <= i < j < |history| ==> history[i].revision < history[j].revision)
  }

  ghost predicate SoundHistory(c: Codec, d: Dir, name: string) {
    FullHistory(c, d, name).Ok? && Rising(FullHistory(c, d, name).value)
  }

  ghost predicate SoundHistories(c: Codec, d: Dir) {
    forall name :: SoundHistory(c, d, name)
  }

  /** The history of each feed in the second directory continues that in the first. */
  ghost predicate Continues(c: Codec, d: Dir, d': Dir) {
    forall name :: SoundHistory(c, d, name) && SoundHistory(c, d', name)
                   && FullHistory(c, d, name).value <= FullHistory(c, d', name).value
  }

  // ----- Histories only grow -----

  lemma NextRises(name: string, input: Input, history: seq<UpdateFeed>, actor: int, now: int)
    requires input.enabled.Some? && Rising(history)
    ensures Rising(Next(name, input, history, actor, now))
    ensures forall i :: 0 <= i < |history| ==> history[i].revision < LastRevision(history) + 1
  {}

  lemma StepContinues(c: Codec, d: Dir, e: Event)
    requires HistoryReadsBack(c) && SoundHistories(c, d)
    ensures SoundHistories(c, Step(c, d, e)) && Continues(c, d, Step(c, d, e))
  {
    var d' := Step(c, d, e);
    forall name ensures SoundHistory(c, d', name) && FullHistory(c, d, name).value <= FullHistory(c, d', name).value {
      assert SoundHistory(c, d, name);
      if e.SaveFeed? && Admit(c, d, e.name, e.input, e.actor, e.now).Ok? {
        SaveContinues(c, d, e.name, e.input, e.actor, e.now, if e.steps < 3 then e.steps else 3, name);
      }
    }
  }

  lemma SaveContinues(c: Codec, d: Dir, name: string, input: Input, actor: int, now: int, k: nat, other: string)
    requires HistoryReadsBack(c) && SoundHistory(c, d, other) && k <= 3 && Admit(c, d, name, input, actor, now).Ok?
    ensures var d' := AfterSteps(c, d, name, input, Admit(c, d, name, input, actor, now).value, now, k);
            SoundHistory(c, d', other) && FullHistory(c, d, other).value <= FullHistory(c, d', other).value
  {
    AdmittedFacts(c, d, name, input, actor, now);
    var recorded := Admit(c, d, name, input, actor, now).value;
    if other == name {
      HistoryAfter(c, d, name, input, recorded, now, k);
      NextRises(name, input, FullHistory(c, d, name).value, actor, now);
    } else {
      OthersUntouched(c, d, name, input, recorded, now, k, other);
    }
  }

  /** Whatever crashes and outside changes happen, every history stays readable, strictly increasing, and only grows at
      its end. */
  lemma {:induction false} HistoriesOnlyGrow(c: Codec, d: Dir, events: seq<Event>)
    requires HistoryReadsBack(c) && SoundHistories(c, d)
    ensures SoundHistories(c, Run(c, d, events)) && Continues(c, d, Run(c, d, events))
    decreases |events|
  {
    if events != [] {
      var d' := Step(c, d, events[0]);
      var end := Run(c, d', events[1..]);
      StepContinues(c, d, events[0]);
      HistoriesOnlyGrow(c, d', events[1..]);
      forall name ensures SoundHistory(c, d, name) && SoundHistory(c, end, name)
                          && FullHistory(c, d, name).value <= FullHistory(c, end, name).value
      {
        assert FullHistory(c, d, name).value <= FullHistory(c, d', name).value <= FullHistory(c, end, name).value;
      }
    } else {
      forall name ensures SoundHistory(c, d, name) {}
    }
  }

  /** A save after any run takes a revision above every one the feed has ever had, even if its files were deleted and
      made again in between. */
  lemma RevisionsAreNeverReused(c: Codec, d: Dir, events: seq<Event>, name: string, input: Input, actor: int, now: int)
    requires HistoryReadsBack(c) && SoundHistories(c, d)
    requires Admit(c, Run(c, d, events), name, input, actor, now).Ok?
    ensures var recorded := Admit(c, Run(c, d, events), name, input, actor, now).value;
            && Rising(recorded)
            && FullHistory(c, d, name).Ok?
            && |FullHistory(c, d, name).value| < |recorded|
            && FullHistory(c, d, name).value <= recorded
            && forall i :: 0 <= i < |FullHistory(c, d, name).value| ==>
                 FullHistory(c, d, name).value[i].revision < LastRevision(recorded)
  {
    var d' := Run(c, d, events);
    HistoriesOnlyGrow(c, d, events);
    assert SoundHistory(c, d', name) && FullHistory(c, d, name).value <= FullHistory(c, d', name).value;
    AdmittedFacts(c, d', name, input, actor, now);
    NextRises(name, input, FullHistory(c, d', name).value, actor, now);
  }

  // ----- The lock -----

  lemma LongerIsLater(a: seq<UpdateFeed>, b: seq<UpdateFeed>)
    requires Rising(b) && a <= b
    ensures LastRevision(a) == LastRevision(b) <==> a == b
  {}

  /** Load a feed, let anything happen, then save on the loaded pair: if the feed can still be read, the save is refused
      as a conflict exactly when the visible document or the last revision is no longer the loaded one. */
  lemma ConflictExactlyWhenChanged(c: Codec, d: Dir, events: seq<Event>, name: string, input: Input, actor: int, now: int)
    requires Lawful(c) && SoundHistories(c, d) && ProperRequest(name, input, actor) && Valid(c, input.manifest)
    requires Get(c, d, name).Ok? || Get(c, d, name) == Err(NotFound)
    requires (input.revision, input.etag) == EchoOf(Get(c, d, name))
    requires Get(c, Run(c, d, events), name).Ok? || Get(c, Run(c, d, events), name) == Err(NotFound)
    ensures var d' := Run(c, d, events);
            Admit(c, d', name, input, actor, now) != Err(Conflict)
            <==> Visible(d', name) == Visible(d, name)
                 && (Visible(d, name).Some? ==> FullHistory(c, d', name) == FullHistory(c, d, name))
  {
    var d' := Run(c, d, events);
    HistoriesOnlyGrow(c, d, events);
    assert SoundHistory(c, d', name) && FullHistory(c, d, name).value <= FullHistory(c, d', name).value;
    GetReadsVisible(c, d, name);
    GetReadsVisible(c, d', name);
    EchoTells(c, d, d', name);
    LongerIsLater(FullHistory(c, d, name).value, FullHistory(c, d', name).value);
  }

  /** Two loads echo the same pair exactly when they saw the same document and the same last revision. */
  lemma EchoTells(c: Codec, d: Dir, d': Dir, name: string)
    requires Lawful(c) && ValidName(name)
    requires Get(c, d, name).Ok? || Get(c, d, name) == Err(NotFound)
    requires Get(c, d', name).Ok? || Get(c, d', name) == Err(NotFound)
    requires FullHistory(c, d, name).Ok? && FullHistory(c, d', name).Ok?
    ensures EchoOf(Get(c, d, name)) == EchoOf(Get(c, d', name))
            <==> Visible(d', name) == Visible(d, name)
                 && (Visible(d, name).Some? ==>
                       LastRevision(FullHistory(c, d', name).value) == LastRevision(FullHistory(c, d, name).value))
  {
    GetReadsVisible(c, d, name);
    GetReadsVisible(c, d', name);
  }

  /** So an admitted save saw exactly the document its pair names. */
  lemma AdmittedSawItsDocument(c: Codec, d: Dir, events: seq<Event>, name: string, input: Input, actor: int, now: int)
    requires Lawful(c) && SoundHistories(c, d)
    requires Get(c, d, name).Ok? || Get(c, d, name) == Err(NotFound)
    requires (input.revision, input.etag) == EchoOf(Get(c, d, name))
    requires Admit(c, Run(c, d, events), name, input, actor, now).Ok?
    ensures Visible(Run(c, d, events), name) == Visible(d, name)
    ensures Visible(d, name).Some? ==> FullHistory(c, Run(c, d, events), name) == FullHistory(c, d, name)
  {
    AdmittedFacts(c, Run(c, d, events), name, input, actor, now);
    ConflictExactlyWhenChanged(c, d, events, name, input, actor, now);
  }
}
