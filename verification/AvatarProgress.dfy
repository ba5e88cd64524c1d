/** The other half of the avatar cache: requests are served only what is fresh or what they have fetched, a stale cache
    is refreshed, and every request can come to its end. */
module AvatarProgress {
  import opened Wrappers
  import opened AvatarCache

  ghost predicate Started(s: State, t: nat) {
    exists i :: 0 <= i < |s.starts| && s.starts[i].thread == t
  }

  /** What a request has seen is a cached file, and past the second look it has begun a download of its own. */
  ghost predicate PhaseIsEarned(s: State, t: nat, p: Phase) {
    match p
    case Seen(mtime) => mtime in s.cached
    case LockedSeen(mtime) => mtime in s.cached
    case Downloading(_) => Started(s, t)
    case Written(_, _, _) => Started(s, t)
    case Renamed(_) => Started(s, t)
    case Cleaning(_, _) => Started(s, t)
    case _ => true
  }

  ghost predicate FilesAreCached(s: State) {
    forall e :: e in s.files ==> s.files[e] in s.cached
  }

  ghost predicate PhasesAreEarned(s: State) {
    forall t :: t in s.threads ==> PhaseIsEarned(s, t, s.threads[t])
  }

  ghost predicate Earned(s: State) { FilesAreCached(s) && PhasesAreEarned(s) }

  /** More cached files and downloads, and one request in a phase it has earned. */
  lemma EarnedLater(s: State, s': State, t: nat)
    requires PhasesAreEarned(s) && s.cached <= s'.cached && s.starts <= s'.starts
    requires t in s'.threads && s'.threads == s.threads[t := s'.threads[t]] && PhaseIsEarned(s', t, s'.threads[t])
    ensures PhasesAreEarned(s')
  {
    forall u | u in s'.threads ensures PhaseIsEarned(s', u, s'.threads[u]) {
      if u != t {
        assert PhaseIsEarned(s, u, s.threads[u]);
        StartedLater(s, s'.starts, u);
      }
    }
  }

  lemma StartedLater(s: State, starts: seq<Download>, t: nat)
    requires s.starts <= starts
    ensures Started(s, t) ==> Started(s.(starts := starts), t)
  {
    if i :| 0 <= i < |s.starts| && s.starts[i].thread == t {
      assert starts[i].thread == t;
    }
  }

  lemma NextOnlyAdds(s: State, step: Step, ttl: int)
    ensures var s' := Next(s, step, ttl);
            && s.cached <= s'.cached && s.starts <= s'.starts
            && (s'.threads != s.threads ==> !step.Tick? && step.t in s'.threads && s'.threads == s.threads[step.t := s'.threads[step.t]])
  {}

  lemma NextKeepsFilesCached(s: State, step: Step, ttl: int)
    requires FilesAreCached(s)
    ensures FilesAreCached(Next(s, step, ttl))
  {}

  lemma NextKeepsEarned(s: State, step: Step, ttl: int)
    requires Earned(s)
    ensures Earned(Next(s, step, ttl)) && s.cached <= Next(s, step, ttl).cached && s.starts <= Next(s, step, ttl).starts
  {
    var s' := Next(s, step, ttl);
    NextOnlyAdds(s, step, ttl);
    NextKeepsFilesCached(s, step, ttl);
    if s'.threads != s.threads {
      MoverEarns(s, step, ttl);
      EarnedLater(s, s', step.t);
    } else {
      SameThreadsEarned(s, s');
    }
  }

  lemma SameThreadsEarned(s: State, s': State)
    requires PhasesAreEarned(s) && s.cached <= s'.cached && s.starts <= s'.starts && s'.threads == s.threads
    ensures PhasesAreEarned(s')
  {
    forall u | u in s'.threads ensures PhaseIsEarned(s', u, s'.threads[u]) {
      assert PhaseIsEarned(s, u, s.threads[u]);
      StartedLater(s, s'.starts, u);
    }
  }

  lemma MoverEarns(s: State, step: Step, ttl: int)
    requires Earned(s) && !step.Tick? && step.t in Next(s, step, ttl).threads
    ensures PhaseIsEarned(Next(s, step, ttl), step.t, Next(s, step, ttl).threads[step.t])
  {
    var s' := Next(s, step, ttl);
    if step.t in s.threads {
      assert PhaseIsEarned(s, step.t, s.threads[step.t]);
      NextOnlyAdds(s, step, ttl);
      StartedLater(s, s'.starts, step.t);
    }
    if s'.starts != s.starts {
      assert s'.starts[|s.starts|].thread == step.t;
    }
  }

  lemma StartIsEarned(s: State)
    requires Start(s)
    ensures Earned(s)
  {}

  lemma {:induction false} RunKeepsEarned(s: State, steps: seq<Step>, ttl: int)
    requires Earned(s)
    ensures Earned(Run(s, steps, ttl))
    decreases |steps|
  {
    if steps != [] {
      NextKeepsEarned(s, steps[0], ttl);
      RunKeepsEarned(Next(s, steps[0], ttl), steps[1..], ttl);
    }
  }

  // ----- Nobody is served a stale file without a download -----

  /** The step ends this request. */
  predicate Ends(s: State, step: Step, t: nat, ttl: int) {
    t in s.threads && !s.threads[t].Done? && PhaseOf(Next(s, step, ttl), t).Done?
  }

  /** The request is looking at a cached file that is younger than its lifetime. */
  ghost predicate SeesFresh(s: State, t: nat, ttl: int) {
    exists mtime :: mtime in s.cached && s.clock - mtime < ttl && PhaseOf(s, t) in {Seen(mtime), LockedSeen(mtime)}
  }

  lemma EndIsEarned(s: State, step: Step, t: nat, ttl: int)
    requires Earned(s) && Ends(s, step, t, ttl)
    ensures Started(s, t) || SeesFresh(s, t, ttl)
  {
    assert PhaseIsEarned(s, t, s.threads[t]);
    match s.threads[t]
    case Seen(mtime) => assert s.clock - mtime < ttl;
    case LockedSeen(mtime) => assert s.clock - mtime < ttl;
    case _ =>
  }

  /** In every run a request that ends without a download of its own sees, at that moment, a cached file younger than its
      lifetime. */
  lemma EndsFreshOrDownloaded(start: State, steps: seq<Step>, step: Step, t: nat, ttl: int)
    requires Start(start) && Ends(Run(start, steps, ttl), step, t, ttl)
    ensures Started(Run(start, steps, ttl), t) || SeesFresh(Run(start, steps, ttl), t, ttl)
  {
    StartIsEarned(start);
    RunKeepsEarned(start, steps, ttl);
    EndIsEarned(Run(start, steps, ttl), step, t, ttl);
  }

  /** Before the first download nobody has ended and everything cached is stale. */
  ghost predicate AllStale(s: State, ttl: int) {
    s.starts == [] ==>
      && (forall mtime :: mtime in s.cached ==> s.clock - mtime >= ttl)
      && (forall t :: t in s.threads ==> !s.threads[t].Done?)
  }

  lemma NextKeepsStale(s: State, step: Step, ttl: int)
    requires Earned(s) && AllStale(s, ttl)
    ensures AllStale(Next(s, step, ttl), ttl)
  {
    var s' := Next(s, step, ttl);
    NextKeepsEarned(s, step, ttl);
    if s'.starts == [] {
      assert s.starts == [];
      if step.Rename? && PhaseOf(s, step.t).Written? {
        assert PhaseIsEarned(s, step.t, s.threads[step.t]);
      }
      assert s'.cached == s.cached;
      forall t | t in s'.threads ensures !s'.threads[t].Done? {
        if s'.threads[t].Done? {
          assert Ends(s, step, t, ttl);
          EndIsEarned(s, step, t, ttl);
        }
      }
    }
  }

  lemma {:induction false} RunKeepsStale(s: State, steps: seq<Step>, ttl: int)
    requires Earned(s) && AllStale(s, ttl)
    ensures AllStale(Run(s, steps, ttl), ttl)
    decreases |steps|
  {
    if steps != [] {
      NextKeepsEarned(s, steps[0], ttl);
      NextKeepsStale(s, steps[0], ttl);
      RunKeepsStale(Next(s, steps[0], ttl), steps[1..], ttl);
    }
  }

  /** From an empty or stale cache, by the time any request has ended a download has begun. */
  lemma StaleCachesAreFetched(start: State, steps: seq<Step>, t: nat, ttl: int)
    requires Start(start) && forall e :: e in start.files ==> start.clock - start.files[e] >= ttl
    requires t in Run(start, steps, ttl).threads && Run(start, steps, ttl).threads[t].Done?
    ensures Run(start, steps, ttl).starts != []
  {
    StartIsEarned(start);
    assert AllStale(start, ttl);
    RunKeepsStale(start, steps, ttl);
  }

  /** Past the lock, finding nothing or only a stale file begins a download, with the lock still held. */
  lemma HolderFetches(s: State, t: nat, ttl: int)
    requires t in s.threads
    requires s.threads[t] == LockedLooking({}) || (s.threads[t].LockedSeen? && s.clock - s.threads[t].mtime >= ttl)
    ensures var s' := Next(s, Decide(t), ttl);
            && s'.threads == s.threads[t := Downloading(s.clock)] && s'.lock == s.lock
            && s'.starts == s.starts + [Download(t, s.clock)]
  {}

  // ----- Every request can come to its end -----

  lemma {:induction false} RunBoth(s: State, a: seq<Step>, b: seq<Step>, ttl: int)
    ensures Run(s, a + b, ttl) == Run(Run(s, a, ttl), b, ttl)
    decreases |a|
  {
    if a == [] {
      assert a + b == b;
    } else {
      assert (a + b)[1..] == a[1..] + b;
      RunBoth(Next(s, a[0], ttl), a[1..], b, ttl);
    }
  }

  lemma RunOne(s: State, step: Step, ttl: int)
    ensures Run(s, [step], ttl) == Next(s, step, ttl)
  {
    assert [step][1..] == [];
    assert Run(Next(s, step, ttl), [], ttl) == Next(s, step, ttl);
  }

  lemma RunFirst(s: State, step: Step, rest: seq<Step>, ttl: int)
    ensures Run(s, [step] + rest, ttl) == Run(Next(s, step, ttl), rest, ttl)
  {
    assert ([step] + rest)[1..] == rest;
  }

  /** What looking ends with: a file that is there, or nothing where there is none. */
  ghost predicate Looked(s: State, p: Phase, locked: bool) {
    if locked then (p.LockedSeen? && exists e :: e in s.files && s.files[e] == p.mtime) || p == LockedLooking({})
    else (p.Seen? && exists e :: e in s.files && s.files[e] == p.mtime) || p == Looking({})
  }

  lemma {:induction false} LookingCanEnd(s: State, t: nat, todo: set<Extension>, locked: bool, ttl: int) returns (steps: seq<Step>, p: Phase)
    requires t in s.threads && s.threads[t] == if locked then LockedLooking(todo) else Looking(todo)
    ensures Run(s, steps, ttl) == Go(s, t, p) && Looked(s, p, locked)
    ensures p == Looking({}) ==> todo !! s.files.Keys
    decreases |todo|
  {
    if todo == {} {
      steps, p := [], s.threads[t];
      assert Go(s, t, p) == s;
    } else {
      var ext :| ext in todo;
      var s' := Next(s, Look(t, ext), ttl);
      RunOne(s, Look(t, ext), ttl);
      if ext in s.files {
        steps, p := [Look(t, ext)], s'.threads[t];
      } else {
        var rest;
        rest, p := LookingCanEnd(s', t, todo - {ext}, locked, ttl);
        steps := [Look(t, ext)] + rest;
        RunFirst(s, Look(t, ext), rest, ttl);
        assert Go(s', t, p) == Go(s, t, p);
      }
    }
  }

  lemma {:induction false} CleaningCanEnd(s: State, t: nat, ext: Extension, todo: set<Extension>, ttl: int) returns (steps: seq<Step>)
    requires t in s.threads && s.threads[t] == Cleaning(ext, todo) && ext !in todo
    ensures Run(s, steps, ttl) == Release(s, t).(files := s.files - todo)
    decreases |todo|
  {
    if todo == {} {
      steps := [Finish(t)];
      RunOne(s, Finish(t), ttl);
      assert s.files - todo == s.files;
    } else {
      var victim :| victim in todo;
      var s' := Next(s, Remove(t, victim), ttl);
      var rest := CleaningCanEnd(s', t, ext, todo - {victim}, ttl);
      steps := [Remove(t, victim)] + rest;
      RunFirst(s, Remove(t, victim), rest, ttl);
      assert s'.files - (todo - {victim}) == s.files - todo;
      assert Release(s', t).(files := s.files - todo) == Release(s, t).(files := s.files - todo);
    }
  }

  lemma RenamedCanEnd(s: State, t: nat, ext: Extension, ttl: int) returns (steps: seq<Step>)
    requires t in s.threads && s.threads[t] == Renamed(ext) && ext in s.files
    ensures Run(s, steps, ttl) == Release(s, t).(files := map[ext := s.files[ext]])
  {
    var s' := Next(s, List(t), ttl);
    var rest := CleaningCanEnd(s', t, ext, s.files.Keys - {ext}, ttl);
    steps := [List(t)] + rest;
    RunFirst(s, List(t), rest, ttl);
    assert s.files - (s.files.Keys - {ext}) == map[ext := s.files[ext]];
    assert Release(s', t).(files := map[ext := s.files[ext]]) == Release(s, t).(files := map[ext := s.files[ext]]);
  }

  lemma WrittenCanEnd(s: State, t: nat, ext: Extension, ttl: int) returns (steps: seq<Step>)
    requires t in s.threads && s.threads[t].Written? && s.threads[t].ext == ext
    ensures var mtime := s.threads[t].mtime;
            Run(s, steps, ttl) == Release(s, t).(files := map[ext := mtime], cached := s.cached + [mtime])
  {
    var s' := Next(s, Rename(t, true), ttl);
    var rest := RenamedCanEnd(s', t, ext, ttl);
    steps := [Rename(t, true)] + rest;
    RunFirst(s, Rename(t, true), rest, ttl);
    assert Release(s', t).(files := Run(s, steps, ttl).files) == Run(s, steps, ttl);
  }

  /** A download that succeeds leaves exactly its own file, as new as the clock says, and frees the lock. */
  lemma DownloadCanEnd(s: State, t: nat, ext: Extension, ttl: int) returns (steps: seq<Step>)
    requires t in s.threads && s.threads[t].Downloading?
    ensures Run(s, steps, ttl) == Release(s, t).(files := map[ext := s.clock], cached := s.cached + [s.clock])
  {
    var s' := Next(s, DownloadSucceeds(t, ext), ttl);
    var rest := WrittenCanEnd(s', t, ext, ttl);
    steps := [DownloadSucceeds(t, ext)] + rest;
    RunFirst(s, DownloadSucceeds(t, ext), rest, ttl);
  }

  /** After the second look: served if the file is fresh; otherwise a download begins, and can end in a fresh file. */
  lemma LockedLookCanEnd(s: State, t: nat, ext: Extension, ttl: int) returns (steps: seq<Step>)
    requires t in s.threads && (s.threads[t] == LockedLooking({}) || s.threads[t].LockedSeen?)
    ensures var young := s.threads[t].LockedSeen? && s.clock - s.threads[t].mtime < ttl;
            Run(s, steps, ttl) ==
            if young then Release(s, t)
            else Release(s, t).(files := map[ext := s.clock], cached := s.cached + [s.clock],
                                starts := s.starts + [Download(t, s.clock)])
  {
    var s' := Next(s, Decide(t), ttl);
    RunOne(s, Decide(t), ttl);
    if s.threads[t].LockedSeen? && s.clock - s.threads[t].mtime < ttl {
      steps := [Decide(t)];
    } else {
      assert s' == Go(s, t, Downloading(s.clock)).(starts := s.starts + [Download(t, s.clock)]);
      var rest := DownloadCanEnd(s', t, ext, ttl);
      steps := [Decide(t)] + rest;
      RunFirst(s, Decide(t), rest, ttl);
    }
  }

  /** Whoever is past the lock can end and free it, while nobody else moves. */
  lemma HolderCanEnd(s: State, t: nat, ext: Extension, ttl: int) returns (steps: seq<Step>)
    requires Inv(s, ttl) && t in s.threads && Critical(s.threads[t])
    ensures var e := Run(s, steps, ttl); e.threads == s.threads[t := Done] && e.lock.None? && e.clock == s.clock
  {
    assert s.lock == Some(t);
    match s.threads[t]
    case LockedLooking(todo) =>
      var look, p := LookingCanEnd(s, t, todo, true, ttl);
      var rest := LockedLookCanEnd(Go(s, t, p), t, ext, ttl);
      RunBoth(s, look, rest, ttl);
      steps := look + rest;
    case LockedSeen(_) => steps := LockedLookCanEnd(s, t, ext, ttl);
    case Downloading(_) => steps := DownloadCanEnd(s, t, ext, ttl);
    case Written(_, own, _) => steps := WrittenCanEnd(s, t, own, ttl);
    case Renamed(own) => steps := RenamedCanEnd(s, t, own, ttl);
    case Cleaning(own, todo) => steps := CleaningCanEnd(s, t, own, todo, ttl);
  }

  /** Whoever waits while the lock is free and nothing is fresh can fetch the picture and leave exactly the new file. */
  lemma WaitingCanRefresh(s: State, t: nat, ext: Extension, ttl: int) returns (steps: seq<Step>)
    requires t in s.threads && s.threads[t].Waiting? && s.lock.None?
    requires forall e :: e in s.files ==> s.clock - s.files[e] >= ttl
    ensures Run(s, steps, ttl) == Release(s, t).(files := map[ext := s.clock], cached := s.cached + [s.clock],
                                                 starts := s.starts + [Download(t, s.clock)])
  {
    var locked := Next(s, Lock(t), ttl);
    var look, p := LookingCanEnd(locked, t, EXTENSIONS, true, ttl);
    var rest := LockedLookCanEnd(Go(locked, t, p), t, ext, ttl);
    RunBoth(locked, look, rest, ttl);
    steps := [Lock(t)] + (look + rest);
    RunFirst(s, Lock(t), look + rest, ttl);
  }

  /** A request that arrives while a fresh file is there can be served from it at once, without the lock and without a
      download. */
  lemma FreshIsServed(s: State, t: nat, ttl: int) returns (steps: seq<Step>)
    requires t !in s.threads && s.files != map[] && forall e :: e in s.files ==> s.clock - s.files[e] < ttl
    ensures Run(s, steps, ttl) == Go(s, t, Done)
  {
    var s' := Next(s, Arrive(t), ttl);
    var look, p := LookingCanEnd(s', t, EXTENSIONS, false, ttl);
    var seen := Go(s', t, p);
    var e :| e in s.files;
    assert e in EXTENSIONS by {
      match e case Gif => case Jpg => case Png => case Webp =>
    }
    steps := [Arrive(t)] + (look + [Decide(t)]);
    RunOne(seen, Decide(t), ttl);
    RunBoth(s', look, [Decide(t)], ttl);
    RunFirst(s, Arrive(t), look + [Decide(t)], ttl);
  }

  /** Once every file has grown stale, a request that then arrives while the lock is free can fetch the picture anew. */
  lemma LaterArrivalRefreshes(s: State, t: nat, now: int, ext: Extension, ttl: int) returns (steps: seq<Step>)
    requires t !in s.threads && s.lock.None? && s.clock <= now
    requires forall e :: e in s.files ==> now - s.files[e] >= ttl
    ensures Run(s, [Tick(now), Arrive(t)] + steps, ttl)
            == s.(clock := now, threads := s.threads[t := Done], files := map[ext := now], cached := s.cached + [now],
                  starts := s.starts + [Download(t, now)])
  {
    var s1 := Next(s, Tick(now), ttl);
    var s2 := Next(s1, Arrive(t), ttl);
    var look, p := LookingCanEnd(s2, t, EXTENSIONS, false, ttl);
    var seen := Go(s2, t, p);
    var waiting := Next(seen, Decide(t), ttl);
    assert waiting == Go(s2, t, Waiting);
    var rest := WaitingCanRefresh(waiting, t, ext, ttl);
    steps := look + ([Decide(t)] + rest);
    RunFirst(seen, Decide(t), rest, ttl);
    RunBoth(s2, look, [Decide(t)] + rest, ttl);
    RunFirst(s1, Arrive(t), steps, ttl);
    RunFirst(s, Tick(now), [Arrive(t)] + steps, ttl);
    assert [Tick(now), Arrive(t)] + steps == [Tick(now)] + ([Arrive(t)] + steps);
  }

  /** A failed download or rename frees the lock and leaves the cache as it is. */
  lemma FailuresChangeNothing(s: State, t: nat, ttl: int)
    requires t in s.threads && (s.threads[t].Downloading? || s.threads[t].Written?)
    ensures var step := if s.threads[t].Downloading? then DownloadFails(t) else Rename(t, false);
            Next(s, step, ttl) == s.(threads := s.threads[t := Done], lock := None)
  {}

  /** In every reachable state every request can end: nobody waits for ever for a lock that cannot be freed. */
  lemma EveryRequestCanEnd(start: State, before: seq<Step>, t: nat, ext: Extension, ttl: int) returns (steps: seq<Step>)
    requires Start(start) && t in Run(start, before, ttl).threads
    ensures PhaseOf(Run(Run(start, before, ttl), steps, ttl), t).Done?
  {
    var s := Run(start, before, ttl);
    AvatarCache.RunKeepsInv(start, before, ttl);
    match s.threads[t]
    case Done => steps := [];
    case Waiting => steps := WaitingCanEnd(s, t, ext, ttl);
    case Seen(_) =>
      var rest := DecidedCanEnd(s, t, ext, ttl);
      steps := rest;
    case Looking(todo) =>
      var look, p := LookingCanEnd(s, t, todo, false, ttl);
      OutsiderMoves(s, t, p, ttl);
      var rest := DecidedCanEnd(Go(s, t, p), t, ext, ttl);
      RunBoth(s, look, rest, ttl);
      steps := look + rest;
    case _ => steps := HolderCanEnd(s, t, ext, ttl);
  }

  /** After the first look: served, or on to the lock. */
  lemma DecidedCanEnd(s: State, t: nat, ext: Extension, ttl: int) returns (steps: seq<Step>)
    requires Inv(s, ttl) && t in s.threads && (s.threads[t].Seen? || s.threads[t] == Looking({}))
    ensures PhaseOf(Run(s, steps, ttl), t).Done?
  {
    var s' := Next(s, Decide(t), ttl);
    AvatarCache.NextKeepsInv(s, Decide(t), ttl);
    RunOne(s, Decide(t), ttl);
    if s'.threads[t].Done? {
      steps := [Decide(t)];
    } else {
      var rest := WaitingCanEnd(s', t, ext, ttl);
      steps := [Decide(t)] + rest;
      RunFirst(s, Decide(t), rest, ttl);
    }
  }

  lemma WaitingCanEnd(s: State, t: nat, ext: Extension, ttl: int) returns (steps: seq<Step>)
    requires Inv(s, ttl) && t in s.threads && s.threads[t].Waiting?
    ensures PhaseOf(Run(s, steps, ttl), t).Done?
  {
    var free, s1 := [], s;
    if s.lock.Some? {
      free := HolderCanEnd(s, s.lock.value, ext, ttl);
      s1 := Run(s, free, ttl);
      AvatarCache.RunKeepsInv(s, free, ttl);
    }
    var s2 := Next(s1, Lock(t), ttl);
    AvatarCache.NextKeepsInv(s1, Lock(t), ttl);
    var rest := HolderCanEnd(s2, t, ext, ttl);
    steps := free + ([Lock(t)] + rest);
    RunFirst(s1, Lock(t), rest, ttl);
    RunBoth(s, free, [Lock(t)] + rest, ttl);
  }
}
