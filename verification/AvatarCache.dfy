/** The avatar cache: looking, locking, looking again, downloading, replacing. Any number of requests for one user and one
    avatar version run at once; each phase below is one step against the shared directory, lock or clock. */
module AvatarCache {
  import opened Wrappers

  // ----- One request on its own -----

  /** The files of one user's cache directory, by name, with their modification times. */
  class UserDirectory {
    var files: map<string, int>

    /** A temporary file is written and renamed over the target; then every other file goes. */
    method WriteCache(target: string, temporary: string, now: int)
      requires temporary != target && temporary !in files
      modifies this
      ensures files == map[target := now]
    {
      files := files[temporary := now];
      var written := files[temporary];
      files := (files - {temporary})[target := written];
      var entries := files.Keys;
      while entries != {}
        invariant target in files && files[target] == now
        invariant files.Keys <= entries + {target}
        decreases entries
      {
        var entry :| entry in entries;
        if entry != target {
          files := files - {entry};
        }
        entries := entries - {entry};
      }
    }

    /** The extensions are tried in no particular order; if at most one candidate exists, the order does not matter. */
    method FindCachedAvatar(candidates: set<string>) returns (found: Option<string>)
      ensures found.Some? ==> found.value in candidates && found.value in files
      ensures found.None? ==> candidates !! files.Keys
      ensures forall c :: c in candidates && candidates * files.Keys == {c} ==> found == Some(c)
    {
      var todo := candidates;
      while todo != {}
        invariant todo <= candidates && (candidates - todo) !! files.Keys
        decreases todo
      {
        var c :| c in todo;
        if c in files {
          assert c in candidates * files.Keys;
          return Some(c);
        }
        todo := todo - {c};
      }
      return None;
    }
  }

  // ----- Many requests at once -----

  datatype Extension = Gif | Jpg | Png | Webp
  const EXTENSIONS: set<Extension> := {Gif, Jpg, Png, Webp}

  datatype Phase =
    | Looking(todo: set<Extension>)             // first look, without the lock
    | Seen(mtime: int)                          // first look found a file
    | Waiting                                   // wants the lock
    | LockedLooking(todo: set<Extension>)       // second look, holding the lock
    | LockedSeen(mtime: int)
    | Downloading(started: int)
    | Written(started: int, ext: Extension, mtime: int)   // the temporary file is complete
    | Renamed(ext: Extension)                   // the new file is in place
    | Cleaning(ext: Extension, todo: set<Extension>)
    | Done

  predicate Critical(p: Phase) {
    p.LockedLooking? || p.LockedSeen? || p.Downloading? || p.Written? || p.Renamed? || p.Cleaning?
  }

  datatype Download = Download(thread: nat, time: int)

  /** `cached` records the modification times of the successfully cached files, the one present at the start included;
      `starts` records which request began a download and when. */
  datatype State = State(clock: int, files: map<Extension, int>, lock: Option<nat>, threads: map<nat, Phase>,
                         cached: seq<int>, starts: seq<Download>)

  datatype Step =
    | Tick(now: int)
    | Arrive(t: nat)
    | Look(t: nat, ext: Extension)
    | Decide(t: nat)
    | Lock(t: nat)
    | DownloadFails(t: nat)
    | DownloadSucceeds(t: nat, ext: Extension)
    | Rename(t: nat, renamed: bool)
    | List(t: nat)
    | Remove(t: nat, ext: Extension)
    | Finish(t: nat)

  function Go(s: State, t: nat, p: Phase): State { s.(threads := s.threads[t := p]) }

  function Release(s: State, t: nat): State { Go(s, t, Done).(lock := None) }

  /** Whether a file of this age is served without a download. */
  predicate Fresh(s: State, mtime: int, ttl: int) { s.clock - mtime < ttl }

  function StartDownload(s: State, t: nat): State {
    Go(s, t, Downloading(s.clock)).(starts := s.starts + [Download(t, s.clock)])
  }

  function PhaseOf(s: State, t: nat): Phase {
    if t in s.threads then s.threads[t] else Done
  }

  /** A step that is not enabled changes nothing. */
  function Next(s: State, step: Step, ttl: int): State {
    match step
    case Tick(now) => if now < s.clock then s else s.(clock := now)
    case Arrive(t) => if t in s.threads then s else Go(s, t, Looking(EXTENSIONS))
    case Look(t, ext) =>
      (match PhaseOf(s, t)
       case Looking(todo) =>
         if ext !in todo then s
         else if ext in s.files then Go(s, t, Seen(s.files[ext]))
         else Go(s, t, Looking(todo - {ext}))
       case LockedLooking(todo) =>
         if ext !in todo then s
         else if ext in s.files then Go(s, t, LockedSeen(s.files[ext]))
         else Go(s, t, LockedLooking(todo - {ext}))
       case _ => s)
    case Decide(t) =>
      (match PhaseOf(s, t)
       case Seen(mtime) => Go(s, t, if Fresh(s, mtime, ttl) then Done else Waiting)
       case Looking(todo) => if todo == {} then Go(s, t, Waiting) else s
       case LockedSeen(mtime) => if Fresh(s, mtime, ttl) then Release(s, t) else StartDownload(s, t)
       case LockedLooking(todo) => if todo == {} then StartDownload(s, t) else s
       case _ => s)
    case Lock(t) =>
      if PhaseOf(s, t).Waiting? && s.lock.None? then Go(s, t, LockedLooking(EXTENSIONS)).(lock := Some(t)) else s
    case DownloadFails(t) => if PhaseOf(s, t).Downloading? then Release(s, t) else s
    case DownloadSucceeds(t, ext) =>
      (match PhaseOf(s, t)
       case Downloading(started) => Go(s, t, Written(started, ext, s.clock))
       case _ => s)
    case Rename(t, renamed) =>
      (match PhaseOf(s, t)
       case Written(started, ext, mtime) =>
         if !renamed then Release(s, t)
         else Go(s, t, Renamed(ext)).(files := s.files[ext := mtime], cached := s.cached + [mtime])
       case _ => s)
    case List(t) =>
      (match PhaseOf(s, t)
       case Renamed(ext) => Go(s, t, Cleaning(ext, s.files.Keys - {ext}))
       case _ => s)
    case Remove(t, victim) =>
      (match PhaseOf(s, t)
       case Cleaning(ext, todo) =>
         if victim !in todo then s else Go(s, t, Cleaning(ext, todo - {victim})).(files := s.files - {victim})
       case _ => s)
    case Finish(t) =>
      (match PhaseOf(s, t)
       case Cleaning(_, todo) => if todo == {} then Release(s, t) else s
       case _ => s)
  }

  function Run(s: State, steps: seq<Step>, ttl: int): State
    decreases |steps|
  {
    if steps == [] then s else Run(Next(s, steps[0], ttl), steps[1..], ttl)
  }

  /** Nobody is running and the directory holds at most one file of this version. */
  ghost predicate Start(s: State) {
    && s.threads == map[] && s.lock.None? && s.starts == []
    && ((s.files == map[] && s.cached == [])
        || exists e :: e in s.files && s.files.Keys == {e} && s.files[e] <= s.clock && s.cached == [s.files[e]])
  }

  // ----- Invariants -----

  ghost predicate LockGuards(s: State) {
    && (s.lock.Some? ==> s.lock.value in s.threads && Critical(s.threads[s.lock.value]))
    && (forall t :: t in s.threads && Critical(s.threads[t]) ==> s.lock == Some(t))
  }

  /** The directory holds exactly the last cached file. */
  ghost predicate OneFile(s: State) {
    if s.cached == [] then s.files == map[]
    else exists e :: e in s.files && s.files.Keys == {e} && s.files[e] == s.cached[|s.cached|-1]
  }

  ghost predicate NoneYetOrOlder(s: State, time: int, ttl: int) {
    s.cached != [] ==> time - s.cached[|s.cached|-1] >= ttl
  }

  /** What the lock holder may rely on in its phase. */
  ghost predicate HolderKnows(s: State, p: Phase, ttl: int) {
    match p
    case LockedLooking(todo) => OneFile(s) && s.files.Keys <= todo
    case LockedSeen(mtime) => OneFile(s) && s.cached != [] && s.cached[|s.cached|-1] == mtime
    case Downloading(started) => OneFile(s) && NoneYetOrOlder(s, started, ttl) && started <= s.clock
    case Written(started, ext, mtime) => OneFile(s) && NoneYetOrOlder(s, started, ttl) && started <= mtime <= s.clock
    case Renamed(ext) => s.cached != [] && ext in s.files && s.files[ext] == s.cached[|s.cached|-1]
    case Cleaning(ext, todo) => s.cached != [] && ext in s.files && s.files[ext] == s.cached[|s.cached|-1]
                                && s.files.Keys == todo + {ext} && ext !in todo
    case _ => true
  }

  /** Cached files are at least one lifetime apart. */
  ghost predicate Spaced(cached: seq<int>, ttl: int) {
    forall i :: 0 < i < |cached| ==> cached[i] - cached[i-1] >= ttl
  }

  ghost predicate Inv(s: State, ttl: int) {
    && LockGuards(s)
    && (s.lock.None? ==> OneFile(s))
    && (s.lock.Some? ==> HolderKnows(s, s.threads[s.lock.value], ttl))
    && Spaced(s.cached, ttl)
    && (s.cached != [] ==> s.cached[|s.cached|-1] <= s.clock)
  }

  /** A step that begins a download does so at least one lifetime after the last cached file. */
  ghost predicate DownloadIsDue(s: State, s': State, ttl: int) {
    s'.starts != s.starts ==>
      && (exists t :: s'.starts == s.starts + [Download(t, s.clock)])
      && NoneYetOrOlder(s, s.clock, ttl)
  }

  /** A thread outside the lock may move on freely as long as it stays outside. */
  lemma OutsiderMoves(s: State, t: nat, p: Phase, ttl: int)
    requires Inv(s, ttl) && !Critical(PhaseOf(s, t)) && !Critical(p)
    ensures Inv(Go(s, t, p), ttl)
  {}

  /** The holder may move to any phase it knows enough for. */
  lemma HolderMoves(s: State, t: nat, p: Phase, ttl: int)
    requires Inv(s, ttl) && Critical(PhaseOf(s, t)) && Critical(p) && HolderKnows(s, p, ttl)
    ensures Inv(Go(s, t, p), ttl)
  {}

  lemma HolderReleases(s: State, t: nat, ttl: int)
    requires Inv(s, ttl) && Critical(PhaseOf(s, t)) && OneFile(s)
    ensures Inv(Release(s, t), ttl)
  {}

  lemma LookKeepsInv(s: State, t: nat, ext: Extension, ttl: int)
    requires Inv(s, ttl)
    ensures Inv(Next(s, Look(t, ext), ttl), ttl)
  {
    match PhaseOf(s, t)
    case Looking(todo) =>
      OutsiderMoves(s, t, if ext in s.files then Seen(s.files[ext]) else Looking(todo - {ext}), ttl);
    case LockedLooking(todo) =>
      assert s.lock == Some(t);
      if ext in todo {
        HolderMoves(s, t, if ext in s.files then LockedSeen(s.files[ext]) else LockedLooking(todo - {ext}), ttl);
      }
    case _ =>
  }

  lemma HolderStartsDownload(s: State, t: nat, ttl: int)
    requires Inv(s, ttl) && Critical(PhaseOf(s, t)) && OneFile(s) && NoneYetOrOlder(s, s.clock, ttl)
    ensures Inv(StartDownload(s, t), ttl) && DownloadIsDue(s, StartDownload(s, t), ttl)
  {}

  lemma DecideKeepsInv(s: State, t: nat, ttl: int)
    requires Inv(s, ttl)
    ensures Inv(Next(s, Decide(t), ttl), ttl) && DownloadIsDue(s, Next(s, Decide(t), ttl), ttl)
  {
    match PhaseOf(s, t)
    case Seen(mtime) => OutsiderMoves(s, t, if Fresh(s, mtime, ttl) then Done else Waiting, ttl);
    case Looking(todo) => OutsiderMoves(s, t, Waiting, ttl);
    case LockedSeen(mtime) =>
      assert s.lock == Some(t);
      if Fresh(s, mtime, ttl) {
        HolderReleases(s, t, ttl);
      } else {
        HolderStartsDownload(s, t, ttl);
      }
    case LockedLooking(todo) =>
      assert s.lock == Some(t);
      if todo == {} {
        assert s.files.Keys == {};
        HolderStartsDownload(s, t, ttl);
      }
    case _ =>
  }

  lemma LockKeepsInv(s: State, t: nat, ttl: int)
    requires Inv(s, ttl)
    ensures Inv(Next(s, Lock(t), ttl), ttl)
  {
    assert forall e: Extension :: e in EXTENSIONS by {
      forall e: Extension ensures e in EXTENSIONS {
        match e case Gif => case Jpg => case Png => case Webp =>
      }
    }
  }

  lemma RenameKeepsInv(s: State, t: nat, renamed: bool, ttl: int)
    requires Inv(s, ttl)
    ensures Inv(Next(s, Rename(t, renamed), ttl), ttl)
  {}

  lemma CleanKeepsInv(s: State, step: Step, ttl: int)
    requires Inv(s, ttl) && (step.List? || step.Remove? || step.Finish?)
    ensures Inv(Next(s, step, ttl), ttl)
  {}

  lemma NextKeepsInv(s: State, step: Step, ttl: int)
    requires Inv(s, ttl)
    ensures Inv(Next(s, step, ttl), ttl) && DownloadIsDue(s, Next(s, step, ttl), ttl)
  {
    match step
    case Look(t, ext) => LookKeepsInv(s, t, ext, ttl);
    case Lock(t) => LockKeepsInv(s, t, ttl);
    case Decide(t) => DecideKeepsInv(s, t, ttl);
    case Rename(t, renamed) => RenameKeepsInv(s, t, renamed, ttl);
    case List(_) => CleanKeepsInv(s, step, ttl);
    case Remove(_, _) => CleanKeepsInv(s, step, ttl);
    case Finish(_) => CleanKeepsInv(s, step, ttl);
    case _ =>
  }

  lemma {:induction false} RunKeepsInv(s: State, steps: seq<Step>, ttl: int)
    requires Inv(s, ttl)
    ensures Inv(Run(s, steps, ttl), ttl)
    decreases |steps|
  {
    if steps != [] {
      NextKeepsInv(s, steps[0], ttl);
      RunKeepsInv(Next(s, steps[0], ttl), steps[1..], ttl);
    }
  }

  /** After any run: only the holder of the lock is past it, the directory holds at most one file of this version whenever
      the lock is free, and whatever step comes next begins a download only when the last cached file has outlived its
      lifetime. */
  lemma SingleFlight(s: State, steps: seq<Step>, step: Step, ttl: int)
    requires Start(s)
    ensures var s' := Run(s, steps, ttl);
            && (forall t, u :: t in s'.threads && u in s'.threads && Critical(s'.threads[t]) && Critical(s'.threads[u]) ==> t == u)
            && (s'.lock.None? ==> |s'.files| <= 1)
            && DownloadIsDue(s', Next(s', step, ttl), ttl)
  {
    RunKeepsInv(s, steps, ttl);
    NextKeepsInv(Run(s, steps, ttl), step, ttl);
  }

  lemma {:induction false} SpacedFarther(cached: seq<int>, ttl: int, i: nat, j: nat)
    requires Spaced(cached, ttl) && i <= j < |cached|
    ensures cached[j] - cached[i] >= (j - i) * ttl
    decreases j
  {
    if i < j {
      SpacedFarther(cached, ttl, i, j - 1);
      assert (j - 1 - i) * ttl + ttl == (j - i) * ttl;
    }
  }

  /** However many requests there are, n + 1 cached files take at least n lifetimes. */
  lemma FewFetches(s: State, steps: seq<Step>, ttl: int, i: nat, n: nat)
    requires Start(s) && i + n < |Run(s, steps, ttl).cached|
    ensures Run(s, steps, ttl).cached[i + n] - Run(s, steps, ttl).cached[i] >= n * ttl
  {
    RunKeepsInv(s, steps, ttl);
    SpacedFarther(Run(s, steps, ttl).cached, ttl, i, i + n);
  }
}
