/** The main results about the arena and player protocol: every step keeps the
    invariant, so what it says holds in every reachable state. */
module LifecycleTheorems {
  import opened Options
  import opened Lifecycle
  import opened LifecycleInvariant
  import opened LifecycleSafety
  import opened LifecyclePlayers
  import opened LifecyclePass

  lemma InitialOk(s: State)
    requires Initial(s)
    ensures Inv(s)
  {
  }

  lemma ArenaStepKeeps(s: State, step: ArenaStep)
    requires Inv(s) && ArenaEnabled(s, step)
    ensures Inv(ArenaApply(s, step))
  {
    match step
    case CreatePermanent(name) => CreateArenaKeeps(s, name, true);
    case ArenaTimer(a, detached, rename) => ArenaTimerKeeps(s, a, detached, rename);
    case QueueWork => QueueWorkKeeps(s);
    case HoldForWork => HoldForWorkKeeps(s);
    case EndCallbacks => EndCallbacksKeeps(s);
    case WorkReads(a, w) => WorkReadsKeeps(s, a, w);
    case WorkUnholds(a, w) => WorkUnholdsKeeps(s, a, w);
    case ArenaSyncCompletes(a) => ArenaSyncKeeps(s, a);
    case ReapTimer => ReapKeeps(s);
    case RecycleMarks(a) => RecycleMarkKeeps(s, a);
    case RecycleCloses => RecycleCloseKeeps(s);
  }

  lemma PlayerStepKeeps(s: State, step: PlayerStep)
    requires Inv(s) && PlayerEnabled(s, step)
    ensures Inv(PlayerApply(s, step))
  {
    match step
    case Leaves(p) => LeavesKeeps(s, p);
    case Goes(p, name) => GoToKeeps(s, p, name);
    case Kicks(p) => KicksKeeps(s, p);
    case Connects => ConnectsKeeps(s);
    case BecomesReady(p) => BecomesReadyKeeps(s, p);
    case Listed(p) => ListedKeeps(s, p);
    case Logins(p) => LoginsKeeps(s, p);
    case LoginRejected(p) => LoginsKeeps(s, p);
    case Freed(p) => FreedKeeps(s, p);
  }

  lemma PassStepKeeps(s: State, step: PassStep)
    requires Inv(s) && PassEnabled(s, step)
    ensures Inv(PassApply(s, step))
  {
    match step
    case PassBegins => PassBeginsKeeps(s);
    case PassScans => ScanKeeps(s);
    case PassActs(canAuth) => RunActionKeeps(s, canAuth);
    case SyncCompletes(p) => SyncCompletesKeeps(s, p);
    case AuthCompletes(p, ok, other) => AuthCompletesKeeps(s, p, ok, other);
  }

  lemma StepKeeps(s: State, step: Step)
    requires Inv(s) && Enabled(s, step)
    ensures Inv(Apply(s, step))
  {
    match step
    case OfArena(a) => ArenaStepKeeps(s, a);
    case OfPlayer(p) => PlayerStepKeeps(s, p);
    case OfPass(p) => PassStepKeeps(s, p);
  }

  lemma {:induction false} RunKeeps(s: State, steps: seq<Step>, s': State)
    requires Inv(s) && Runs(s, steps, s')
    ensures Inv(s')
    decreases |steps|
  {
    if steps != [] {
      StepKeeps(s, steps[0]);
      RunKeeps(Apply(s, steps[0]), steps[1..], s');
    }
  }

  lemma ReachableOk(s: State)
    requires Reachable(s)
    ensures Inv(s)
  {
    var s0, steps :| Initial(s0) && Runs(s0, steps, s);
    InitialOk(s0);
    RunKeeps(s0, steps, s);
  }

  // --------------------------------------------------------- main results

  /** In every reachable state a player's `arena` is an arena that is RUNNING or
      CLOSING, and an arena past RUNNING that is somebody's `newarena` will come back. */
  lemma ArenaPointersSafe(s: State, p: PlayerId)
    requires Reachable(s) && p in s.players
    ensures s.players[p].arena.Some? ==>
              && s.players[p].arena.value in s.arenas
              && (s.arenas[s.players[p].arena.value].status.Running? || s.arenas[s.players[p].arena.value].status.Closing?)
    ensures s.players[p].newarena.Some? ==>
              && s.players[p].newarena.value in s.arenas
              && (s.arenas[s.players[p].newarena.value].status.PastRunning()
                  ==> s.arenas[s.players[p].newarena.value].resurrect)
  {
    ReachableOk(s);
    assert RefsOf(s.arenas, s.players[p]);
  }

  /** No step frees an arena that a player is in or is about to enter. */
  lemma FreedArenaIsUnused(s: State, step: Step, a: ArenaId, p: PlayerId)
    requires Reachable(s) && Enabled(s, step)
    requires a in s.arenas && a !in Apply(s, step).arenas && p in s.players
    ensures s.players[p].arena != Some(a) && s.players[p].newarena != Some(a)
  {
    ReachableOk(s);
    assert RefsOf(s.arenas, s.players[p]);
    OnlyTheTimerFrees(s, step, a);
    FreedByTheTimer(s.arenas[a], s.persist, Occupied(s, a), step.arenaStep.detached, step.arenaStep.rename);
  }

  lemma FreedByTheTimer(a: Arena, persist: bool, occupied: bool, detached: bool, rename: string)
    requires TimerOn(a, persist, occupied, detached, rename).Free?
    ensures !Live(a) && !Returns(a)
  {
  }

  lemma OnlyTheTimerFrees(s: State, step: Step, a: ArenaId)
    requires Enabled(s, step) && a in s.arenas && a !in Apply(s, step).arenas
    ensures step.OfArena? && step.arenaStep.ArenaTimer? && step.arenaStep.arena == a
  {
    match step
    case OfArena(arenaStep) => OnlyTheTimerFreesArenas(s, arenaStep, a);
    case OfPlayer(p) => PlayerStepsKeepStatus(s, p, a);
    case OfPass(p) => PassStepsKeepArenas(s, p);
  }

  lemma OnlyTheTimerFreesArenas(s: State, step: ArenaStep, a: ArenaId)
    requires ArenaEnabled(s, step) && a in s.arenas && a !in ArenaApply(s, step).arenas
    ensures step.ArenaTimer? && step.arena == a
  {
  }

  lemma PlayerStepsKeepStatus(s: State, step: PlayerStep, a: ArenaId)
    requires PlayerEnabled(s, step) && a in s.arenas
    ensures a in PlayerApply(s, step).arenas
    ensures s.nextArena !in s.arenas ==> PlayerApply(s, step).arenas[a].status == s.arenas[a].status
  {
  }

  lemma PassStepsKeepArenas(s: State, step: PassStep)
    requires PassEnabled(s, step)
    ensures PassApply(s, step).arenas == s.arenas
  {
  }

  /** The re-check before an arena's data is written out never finds anybody inside. */
  lemma NobodyInsideWhenWritten(s: State, a: ArenaId)
    requires Reachable(s) && a in s.arenas && s.arenas[a].status.DoWriteData?
    ensures !Occupied(s, a)
  {
    ReachableOk(s);
    assert forall p :: p in s.players ==> RefsOf(s.arenas, s.players[p]);
  }

  /** Over every run, a player's callbacks come in the documented order: CONNECT, then
      visits of PREENTER with or without ENTER and its LEAVE, then DISCONNECT. */
  lemma CallbacksInOrder(s: State, p: PlayerId)
    requires Reachable(s) && p in s.players
    ensures WellOrdered(s.players[p].log)
  {
    ReachableOk(s);
    assert PlayerOk(s.players[p], p in s.playerList);
  }

  /** The arena of every PREENTER, ENTER and LEAVE exists and is RUNNING or CLOSING
      when the callback is made. */
  lemma CallbackArenaLive(s: State, e: Event)
    requires Reachable(s) && s.actions != []
    ensures s.actions[0] in s.players && s.players[s.actions[0]].pending.Some?
    ensures var p := s.players[s.actions[0]];
            Fires(p, p.pending.value) == Some(e) && !e.Connect? && !e.Disconnect? ==>
              e.arena == p.arena && p.arena.Some? && p.arena.value in s.arenas && Live(s.arenas[p.arena.value])
  {
    ReachableOk(s);
    var id := s.actions[0];
    assert id in s.actions;
    assert PlayerOk(s.players[id], id in s.playerList) && RefsOf(s.arenas, s.players[id]);
  }

  /** Every completion finds its player, its arena, or its authentication waiting for
      it, so none of the wrong-state messages is ever logged; pending actions are for
      players who are still there. */
  lemma CompletionsFindTheirState(s: State, p: PlayerId, a: ArenaId)
    requires Reachable(s)
    ensures p in s.players && s.players[p].syncs > 0 ==> s.players[p].status.WaitsForSync() && s.players[p].syncs == 1
    ensures p in s.players && s.players[p].auths > 0 ==> s.players[p].status.WaitAuth? && s.players[p].auths == 1
    ensures s.ArenaLockFree() && a in s.arenas && s.arenas[a].syncs > 0
            ==> s.arenas[a].status.WaitsForSync() && s.arenas[a].syncs == 1
    ensures p in s.actions ==> p in s.players && p in s.playerList
  {
    ReachableOk(s);
    if p in s.players { assert PlayerOk(s.players[p], p in s.playerList); }
    if a in s.arenas { assert ArenaOk(s.arenas[a], UnheldOf(s, a), s.nextWorker); }
  }

  /** A player who is to take over from a namesake is listed, waits in WAIT_AUTH until
      then, and takes over from one player only. */
  lemma ReplacementIsThere(s: State, p: PlayerId, q: PlayerId, r: PlayerId)
    requires Reachable(s) && p in s.players && s.players[p].replacedBy == Some(r)
    ensures r in s.playerList && r in s.players && s.players[r].status.WaitAuth?
    ensures q in s.players && s.players[q].replacedBy == Some(r) ==> q == p
  {
    ReachableOk(s);
    assert ReplacementOf(s, s.players[p]) && Replaces(s, r, p);
    assert q in s.players && s.players[q].replacedBy == Some(r) ==> Replaces(s, r, q);
  }

  /** Holds are zero outside the three wait states; inside them they count the jobs
      that have not unheld; and a job that has looked has seen its own phase. */
  lemma HoldsCountJobs(s: State, a: ArenaId, w: WorkerId)
    requires Reachable(s) && a in s.arenas
    ensures !s.arenas[a].status.WaitsForHolds() ==> s.arenas[a].holds == 0 && s.arenas[a].workers == map[]
    ensures s.ArenaLockFree() ==> s.arenas[a].holds == |s.arenas[a].workers|
    ensures w in s.arenas[a].workers ==>
              && s.arenas[a].workers[w].phase == s.arenas[a].status
              && (s.arenas[a].workers[w].sawBefore.Some?
                  ==> (s.arenas[a].workers[w].sawBefore.value <==> !s.arenas[a].status.WaitHolds2?))
  {
    ReachableOk(s);
    var arena := s.arenas[a];
    assert ArenaOk(arena, UnheldOf(s, a), s.nextWorker);
    if !arena.status.WaitsForHolds() {
      assert UnheldOf(s, a) == 0;
      NoJobs(arena, s.nextWorker);
    }
  }

  /** An arena only leaves a wait state when every job launched in it has unheld. */
  lemma PhaseEndsAfterItsJobs(s: State, step: Step, a: ArenaId)
    requires Reachable(s) && Enabled(s, step) && a in s.arenas && s.arenas[a].status.WaitsForHolds()
    requires a !in Apply(s, step).arenas || Apply(s, step).arenas[a].status != s.arenas[a].status
    ensures step.OfArena? && step.arenaStep.ArenaTimer? && step.arenaStep.arena == a
    ensures s.arenas[a].holds == 0 && s.arenas[a].workers == map[]
  {
    ReachableOk(s);
    assert s.nextArena !in s.arenas;
    assert ArenaOk(s.arenas[a], UnheldOf(s, a), s.nextWorker);
    match step
    case OfArena(arenaStep) =>
      ArenaStepsKeepWaiting(s, arenaStep, a);
      NoJobs(s.arenas[a], s.nextWorker);
    case OfPlayer(p) => PlayerStepsKeepStatus(s, p, a);
    case OfPass(p) => PassStepsKeepArenas(s, p);
  }

  lemma ArenaStepsKeepWaiting(s: State, step: ArenaStep, a: ArenaId)
    requires s.nextArena !in s.arenas && RegionsOk(s)
    requires ArenaEnabled(s, step) && a in s.arenas && s.arenas[a].status.WaitsForHolds()
    requires a !in ArenaApply(s, step).arenas || ArenaApply(s, step).arenas[a].status != s.arenas[a].status
    ensures step.ArenaTimer? && step.arena == a && s.ArenaLockFree() && s.arenas[a].holds == 0
  {
  }
}
