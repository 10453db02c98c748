/** What each step does to the arenas, said of the states before and after it, and by
    which steps alone an arena comes to a status. */
module LifecycleArenas {
  import opened Options
  import opened Lifecycle
  import opened LifecycleInvariant
  import opened LifecycleMoves
  import opened LifecycleSafety
  import opened LifecycleTheorems

  // ------------------------------------------------------------------ reaping

  /** Listed players with the arena as the one they are in, or the one they want. */
  predicate IsIn(s: State, p: PlayerId, a: ArenaId) { p in s.players && s.players[p].arena == Some(a) }

  predicate Awaits(s: State, p: PlayerId, a: ArenaId) { p in s.players && s.players[p].newarena == Some(a) }

  predicate SomebodyIsIn(s: State, a: ArenaId) { exists p :: p in s.playerList && IsIn(s, p, a) }

  predicate SomebodyAwaits(s: State, a: ArenaId) { exists p :: p in s.playerList && Awaits(s, p, a) }

  lemma OccupiedMeans(s: State, a: ArenaId)
    ensures Occupied(s, a) <==> SomebodyIsIn(s, a)
    ensures Wanted(s, a) ==> SomebodyAwaits(s, a)
    ensures SomebodyAwaits(s, a) ==> Wanted(s, a) || Occupied(s, a)
  {
    if SomebodyIsIn(s, a) {
      var p :| p in s.playerList && IsIn(s, p, a);
      var i :| 0 <= i < |s.playerList| && s.playerList[i] == p;
      assert s.playerList[i] in s.players;
    }
    if Occupied(s, a) {
      var i :| 0 <= i < |s.playerList| && s.playerList[i] in s.players && s.players[s.playerList[i]].arena == Some(a);
      assert s.playerList[i] in s.playerList && IsIn(s, s.playerList[i], a);
    }
    if Wanted(s, a) {
      var i :| 0 <= i < |s.playerList| && s.playerList[i] in s.players && s.players[s.playerList[i]].newarena == Some(a)
               && s.players[s.playerList[i]].arena != Some(a);
      assert s.playerList[i] in s.playerList && Awaits(s, s.playerList[i], a);
    }
    if SomebodyAwaits(s, a) {
      var p :| p in s.playerList && Awaits(s, p, a);
      var i :| 0 <= i < |s.playerList| && s.playerList[i] == p;
      assert s.playerList[i] in s.players;
    }
  }

  /** A reaping sends a RUNNING arena off exactly if it is not to be kept and no listed
      player is in it or on his way into it, and a CLOSING one exactly if nobody is in it;
      every other status stays. */
  lemma ReapedIff(s: State, a: ArenaId)
    requires Reachable(s) && Enabled(s, OfArena(ReapTimer)) && a in s.arenas
    ensures a in Apply(s, OfArena(ReapTimer)).arenas
    ensures var was, now := s.arenas[a].status, Apply(s, OfArena(ReapTimer)).arenas[a].status;
            match was
            case Running =>
              now == if !s.arenas[a].keepAlive && !SomebodyIsIn(s, a) && !SomebodyAwaits(s, a) then DoWriteData else Running
            case Closing => now == if !SomebodyIsIn(s, a) then DoWriteData else Closing
            case _ => now == was
  {
    OccupiedMeans(s, a);
  }

  /** Of the rest, a reaping changes only this: a CLOSING arena that somebody outside waits
      for will come back. */
  lemma ReapTouchesOnly(s: State, a: ArenaId)
    requires Reachable(s) && Enabled(s, OfArena(ReapTimer)) && a in s.arenas
    ensures var s' := Apply(s, OfArena(ReapTimer));
            && s' == s.(arenas := s'.arenas) && s'.arenas.Keys == s.arenas.Keys
            && var was, now := s.arenas[a], s'.arenas[a];
               && now == was.(status := now.status, resurrect := now.resurrect, reap := now.reap)
               && (now.resurrect <==>
                     || was.resurrect
                     || (was.status.Closing? && exists p :: p in s.playerList && Awaits(s, p, a) && !IsIn(s, p, a)))
  {
    if s.arenas[a].status.Closing? { WantedMeans(s, a); }
  }

  lemma WantedMeans(s: State, a: ArenaId)
    ensures Wanted(s, a) <==> exists p :: p in s.playerList && Awaits(s, p, a) && !IsIn(s, p, a)
  {
    if p :| p in s.playerList && Awaits(s, p, a) && !IsIn(s, p, a) {
      var i :| 0 <= i < |s.playerList| && s.playerList[i] == p;
      assert s.playerList[i] in s.players;
    }
    if Wanted(s, a) {
      var i :| 0 <= i < |s.playerList| && s.playerList[i] in s.players && s.players[s.playerList[i]].newarena == Some(a)
               && s.players[s.playerList[i]].arena != Some(a);
      assert s.playerList[i] in s.playerList && Awaits(s, s.playerList[i], a) && !IsIn(s, s.playerList[i], a);
    }
  }

  // ---------------------------------------------------------- going to an arena

  lemma {:induction false} FindsFirst(s: State, name: string, from: nat)
    requires from <= |s.arenaList| && forall a :: a in s.arenaList ==> a in s.arenas
    ensures var found := FindArena(s, name, from);
            if found.None? then forall i | from <= i < |s.arenaList| :: s.arenas[s.arenaList[i]].name != name
            else exists i :: from <= i < |s.arenaList| && FirstCalled(s, name, from, i) && s.arenaList[i] == found.value
    decreases |s.arenaList| - from
  {
    if from < |s.arenaList| {
      assert s.arenaList[from] in s.arenaList;
      if s.arenas[s.arenaList[from]].name == name {
        assert FirstCalled(s, name, from, from);
      } else {
        FindsFirst(s, name, from + 1);
        if FindArena(s, name, from + 1).Some? {
          var i :| from + 1 <= i < |s.arenaList| && FirstCalled(s, name, from + 1, i)
                   && s.arenaList[i] == FindArena(s, name, from + 1).value;
          assert FirstCalled(s, name, from, i);
        }
      }
    }
  }

  /** Place i of the list has the first arena of that name, from the given place on. */
  ghost predicate FirstCalled(s: State, name: string, from: nat, i: nat) {
    && from <= i < |s.arenaList|
    && s.arenaList[i] in s.arenas && s.arenas[s.arenaList[i]].name == name
    && forall j | from <= j < i :: s.arenaList[j] in s.arenas && s.arenas[s.arenaList[j]].name != name
  }

  ghost predicate NobodyCalled(s: State, name: string) {
    forall a :: a in s.arenas ==> s.arenas[a].name != name
  }

  /** On the way out: CLOSING and everything after it. */
  predicate GoingDown(status: ArenaStatus) {
    || status.Closing? || status.DoWriteData? || status.WaitSync2?
    || status.DoDestroy1? || status.WaitHolds2? || status.DoDestroy2?
  }

  lemma ArenaFacts(s: State)
    requires Reachable(s)
    ensures s.nextArena !in s.arenas && forall a :: a in s.arenaList <==> a in s.arenas
  {
    ReachableOk(s);
  }

  lemma ListedNames(s: State, name: string)
    requires forall a :: a in s.arenaList <==> a in s.arenas
    ensures NobodyCalled(s, name) <==> forall i | 0 <= i < |s.arenaList| :: s.arenas[s.arenaList[i]].name != name
  {
  }

  /** Going: the player's next arena is the first in the list that has exactly this name,
      which comes back if it was on its way out; only if there is none a new one, not to be
      kept, is put at the end of the list. Nothing else changes. */
  lemma GoesDoes(s: State, p: PlayerId, name: string) returns (a: ArenaId)
    requires Reachable(s) && Enabled(s, OfPlayer(Goes(p, name)))
    ensures var s' := Apply(s, OfPlayer(Goes(p, name)));
            var players := s.players[p := s.players[p].(newarena := Some(a))];
            if NobodyCalled(s, name) then
              && a == s.nextArena && a !in s.arenas
              && s' == s.(arenas := s.arenas[a := Arena(name, DoInit0, 0, false, false, false, 0, map[])],
                          arenaList := s.arenaList + [a], nextArena := a + 1, players := players)
            else
              && (exists i: nat :: FirstCalled(s, name, 0, i) && s.arenaList[i] == a) && a in s.arenas
              && s' == s.(arenas := s.arenas[a := s.arenas[a].(resurrect := s.arenas[a].resurrect || GoingDown(s.arenas[a].status))],
                          players := players)
  {
    ArenaFacts(s);
    FindsFirst(s, name, 0);
    ListedNames(s, name);
    var found := FindArena(s, name);
    a := if found.None? then s.nextArena else found.value;
    if found.Some? { SameArena(s, a); }
  }

  lemma SameArena(s: State, a: ArenaId)
    requires a in s.arenas
    ensures !GoingDown(s.arenas[a].status) ==>
              s.arenas[a := s.arenas[a].(resurrect := s.arenas[a].resurrect || GoingDown(s.arenas[a].status))] == s.arenas
    ensures GoingDown(s.arenas[a].status) <==> s.arenas[a].status.PastRunning()
  {
    assert s.arenas[a := s.arenas[a]] == s.arenas;
  }

  /** An arena from the list of permanent ones is made the same way, but to be kept. */
  lemma CreatePermanentDoes(s: State, name: string)
    requires Reachable(s) && Enabled(s, OfArena(CreatePermanent(name)))
    ensures s.nextArena !in s.arenas
    ensures Apply(s, OfArena(CreatePermanent(name)))
            == s.(arenas := s.arenas[s.nextArena := Arena(name, DoInit0, 0, false, false, true, 0, map[])],
                  arenaList := s.arenaList + [s.nextArena], nextArena := s.nextArena + 1)
  {
    ArenaFacts(s);
  }

  // ----------------------------------------------------------------- recycling

  /** The first half: exactly the listed players in the arena leave it as by themselves and
      have it as their next arena; nobody else is touched. */
  lemma RecycleMarksDoes(s: State, a: ArenaId, p: PlayerId)
    requires Reachable(s) && Enabled(s, OfArena(RecycleMarks(a))) && p in s.players
    ensures s.arenas[a].status.Running?
    ensures var s' := Apply(s, OfArena(RecycleMarks(a)));
            && s' == s.(players := s'.players, recycling := Some(a)) && s'.players.Keys == s.players.Keys
            && s'.players[p] == if p in s.playerList && s.players[p].arena == Some(a)
                                then PlayerApply(s, Leaves(p)).players[p].(newarena := Some(a)) else s.players[p]
  {
  }

  /** The second half finds it still RUNNING: it closes, to come back. */
  lemma RecycleClosesDoes(s: State) returns (a: ArenaId)
    requires Reachable(s) && Enabled(s, OfArena(RecycleCloses))
    ensures s.recycling == Some(a) && a in s.arenas && s.arenas[a].status.Running?
    ensures Apply(s, OfArena(RecycleCloses))
            == s.(arenas := s.arenas[a := s.arenas[a].(status := Closing, resurrect := true)], recycling := None)
  {
    ReachableOk(s);
    a := s.recycling.value;
  }

  // ----------------------------------------------------------------- the timer

  /** The three statuses the timer passes through within one visit. */
  predicate Passing(status: ArenaStatus) { status.DoInit1? || status.DoInit2? || status.DoDestroy2? }

  ghost predicate NonePassing(s: State) {
    forall a :: a in s.arenas ==> !Passing(s.arenas[a].status)
  }

  lemma TimerPassesNone(a: Arena, persist: bool, occupied: bool, detached: bool, rename: string)
    requires !Passing(a.status)
    ensures var out := TimerOn(a, persist, occupied, detached, rename); !out.Free? ==> !Passing(out.arena.status)
  {
  }

  lemma VisitPasses(s: State, a: ArenaId, detached: bool, rename: string)
    requires NonePassing(s) && a in s.arenas
    ensures NonePassing(ProcessArena(s, a, detached, rename))
  {
    TimerPassesNone(s.arenas[a], s.persist, Occupied(s, a), detached, rename);
  }

  lemma ReapPasses(s: State)
    requires NonePassing(s)
    ensures NonePassing(Reap(s))
  {
  }

  lemma ArenaStepPasses(s: State, step: ArenaStep)
    requires NonePassing(s) && ArenaEnabled(s, step)
    ensures NonePassing(ArenaApply(s, step))
  {
    match step
    case ArenaTimer(a, detached, rename) => VisitPasses(s, a, detached, rename);
    case ReapTimer => ReapPasses(s);
    case _ =>
  }

  lemma PlayerStepPasses(s: State, step: PlayerStep)
    requires NonePassing(s) && PlayerEnabled(s, step)
    ensures NonePassing(PlayerApply(s, step))
  {
  }

  lemma StepPasses(s: State, step: Step)
    requires NonePassing(s) && Enabled(s, step)
    ensures NonePassing(Apply(s, step))
  {
    match step
    case OfArena(a) => ArenaStepPasses(s, a);
    case OfPlayer(p) => PlayerStepPasses(s, p);
    case OfPass(p) => PassStepsKeepArenas(s, p);
  }

  lemma {:induction false} RunPasses(s: State, steps: seq<Step>, s': State)
    requires NonePassing(s) && Runs(s, steps, s')
    ensures NonePassing(s')
    decreases |steps|
  {
    if steps != [] {
      StepPasses(s, steps[0]);
      RunPasses(Apply(s, steps[0]), steps[1..], s');
    }
  }

  /** No reachable state has an arena in one of the three. */
  lemma NeverSeenPassing(s: State, a: ArenaId)
    requires Reachable(s) && a in s.arenas
    ensures !s.arenas[a].status.DoInit1? && !s.arenas[a].status.DoInit2? && !s.arenas[a].status.DoDestroy2?
  {
    var s0, steps :| Initial(s0) && Runs(s0, steps, s);
    RunPasses(s0, steps, s);
  }

  /** What a visit makes of one arena: None if it is freed. The second part is whether its
      callbacks are run. An arena with jobs left in a wait state waits for them. */
  predicate Visited(was: Arena, persist: bool, detached: bool, rename: string, now: Option<Arena>, callbacks: bool) {
    if was.workers != map[] || was.status.WaitSync1? || was.status.WaitSync2? || was.status.Running? || was.status.Closing? then
      now == Some(was) && !callbacks
    else match was.status
      case DoInit0 => now == Some(was.(status := WaitHolds0)) && callbacks
      case WaitHolds0 => now == Some(was.(status := WaitHolds1)) && callbacks
      case WaitHolds1 =>
        !callbacks && now == Some(was.(status := if persist then WaitSync1 else Running, syncs := if persist then 1 else 0))
      case DoWriteData =>
        !callbacks && now == Some(was.(status := if persist then WaitSync2 else DoDestroy1, syncs := if persist then 1 else 0))
      case DoDestroy1 => now == Some(was.(status := WaitHolds2)) && callbacks
      case WaitHolds2 =>
        !callbacks &&
        now == if !detached then Some(was.(status := Running, keepAlive := true, resurrect := false, reap := false, name := rename))
               else if was.resurrect then Some(was.(status := DoInit0, resurrect := false, reap := false)) else None
      case _ => false
  }

  lemma VisitIs(a: Arena, nextWorker: nat, persist: bool, detached: bool, rename: string)
    requires ArenaOk(a, 0, nextWorker) && !Passing(a.status)
    ensures var out := TimerOn(a, persist, false, detached, rename);
            Visited(a, persist, detached, rename, if out.Free? then None else Some(out.arena), out.Callbacks?)
  {
    if a.holds == 0 || !a.status.WaitsForHolds() { NoJobs(a, nextWorker); }
  }

  lemma VisitFinds(s: State, a: ArenaId, detached: bool, rename: string)
    requires Reachable(s) && s.ArenaLockFree() && a in s.arenas
    ensures var out := TimerOn(s.arenas[a], s.persist, Occupied(s, a), detached, rename);
            Visited(s.arenas[a], s.persist, detached, rename, if out.Free? then None else Some(out.arena), out.Callbacks?)
  {
    ReachableOk(s);
    NeverSeenPassing(s, a);
    assert ArenaOk(s.arenas[a], UnheldOf(s, a), s.nextWorker);
    if s.arenas[a].status.DoWriteData? { NobodyInsideWhenWritten(s, a); }
    VisitIs(s.arenas[a], s.nextWorker, s.persist, detached, rename);
  }

  /** The timer's visit of one arena in every reachable state: the next phase starts when
      the jobs of the last one are done, the data are loaded before and written after,
      where there is persist, and at the end the arena is freed, comes back, or runs on
      under another name if a module will not let go. Nothing else changes. */
  lemma TimerDoes(s: State, a: ArenaId, detached: bool, rename: string) returns (callbacks: bool, at: nat)
    requires Reachable(s) && Enabled(s, OfArena(ArenaTimer(a, detached, rename)))
    ensures var s' := Apply(s, OfArena(ArenaTimer(a, detached, rename)));
            && Visited(s.arenas[a], s.persist, detached, rename, if a in s'.arenas then Some(s'.arenas[a]) else None, callbacks)
            && if a in s'.arenas then
                 s' == s.(arenas := s.arenas[a := s'.arenas[a]], round := if callbacks then Some(Round(a, 0)) else None)
               else
                 && at < |s.arenaList| && s.arenaList[at] == a
                 && s' == s.(arenas := s.arenas - {a}, arenaList := s.arenaList[..at] + s.arenaList[at + 1..])
  {
    VisitFinds(s, a, detached, rename);
    ArenaFacts(s);
    at := WithoutCuts(s.arenaList, a);
    callbacks := TimerOn(s.arenas[a], s.persist, Occupied(s, a), detached, rename).Callbacks?;
  }

  // ------------------------------------------------------ permanent arenas stay

  predicate KeptRunning(s: State, a: ArenaId) {
    a in s.arenas && s.arenas[a].keepAlive && s.arenas[a].status.Running? && s.recycling != Some(a)
  }

  lemma ArenaStepKeepsRunning(s: State, step: ArenaStep, a: ArenaId)
    requires ArenaEnabled(s, step) && KeptRunning(s, a) && s.nextArena !in s.arenas && step != RecycleMarks(a)
    ensures KeptRunning(ArenaApply(s, step), a)
  {
  }

  lemma PlayerStepKeepsRunning(s: State, step: PlayerStep, a: ArenaId)
    requires PlayerEnabled(s, step) && KeptRunning(s, a) && s.nextArena !in s.arenas
    ensures KeptRunning(PlayerApply(s, step), a)
  {
  }

  lemma PassStepKeepsRunning(s: State, step: PassStep, a: ArenaId)
    requires PassEnabled(s, step) && KeptRunning(s, a)
    ensures KeptRunning(PassApply(s, step), a)
  {
    PassStepsKeepArenas(s, step);
  }

  /** An arena that is to be kept goes on running through every run, whoever comes and
      goes, until it is recycled. */
  lemma {:induction false} KeptArenasRun(s: State, steps: seq<Step>, s': State, a: ArenaId)
    requires Inv(s) && Runs(s, steps, s') && KeptRunning(s, a)
    requires OfArena(RecycleMarks(a)) !in steps
    ensures KeptRunning(s', a)
    decreases |steps|
  {
    if steps != [] {
      var step := steps[0];
      StepKeeps(s, step);
      assert s.nextArena !in s.arenas && step in steps;
      match step {
        case OfArena(x) => ArenaStepKeepsRunning(s, x, a);
        case OfPlayer(x) => PlayerStepKeepsRunning(s, x, a);
        case OfPass(x) => PassStepKeepsRunning(s, x, a);
      }
      KeptArenasRun(Apply(s, step), steps[1..], s', a);
    }
  }

  lemma KeptUntilRecycled(s: State, steps: seq<Step>, s': State, a: ArenaId)
    requires Reachable(s) && Runs(s, steps, s')
    requires a in s.arenas && s.arenas[a].keepAlive && s.arenas[a].status.Running? && s.recycling != Some(a)
    requires OfArena(RecycleMarks(a)) !in steps
    ensures a in s'.arenas && s'.arenas[a].keepAlive && s'.arenas[a].status.Running?
  {
    ReachableOk(s);
    KeptArenasRun(s, steps, s', a);
  }
}
