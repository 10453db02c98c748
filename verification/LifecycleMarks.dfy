/** The marks a player carries from one pass to the next: what has been loaded for him,
    that he has been kicked, and that he left while his scores were being loaded. */
module LifecycleMarks {
  import opened Options
  import opened Lifecycle
  import opened LifecycleInvariant
  import opened LifecycleMoves
  import opened LifecyclePass
  import opened LifecycleTheorems

  /** His global data are out of the database: from the request for it until they are
      put back, and never for somebody who leaves before he is logged in. */
  predicate GloballyLoaded(p: Player) {
    match if p.pending.Some? then p.pending.value else p.status
    case Uninitialized => false
    case Connected => false
    case NeedAuth => false
    case WaitAuth => false
    case NeedGlobalSync => false
    case LeavingZone => p.log != []
    case WaitGlobalSync2 => false
    case TimeWait => false
    case _ => true
  }

  /** So are his data for the arena. */
  predicate LoadedForArena(p: Player) {
    match if p.pending.Some? then p.pending.value else p.status
    case WaitArenaSync1 => true
    case ArenaRespAndCbs => true
    case Playing => true
    case LeavingArena => true
    case DoArenaSync2 => true
    case _ => false
  }

  predicate Inside(status: PlayerStatus) { status.ArenaRespAndCbs? || status.Playing? || status.LeavingArena? }

  /** Whoever has been kicked is not on his way into anything. */
  predicate KickHolds(p: Player) {
    p.kicked ==>
      && !p.status.DoFreqAndArenaSync? && !p.status.ArenaRespAndCbs? && !p.status.Playing?
      && (p.status.WaitArenaSync1? ==> p.leaveWhenDone)
  }

  predicate MarksOk(p: Player) {
    && (p.doneGlobalSync <==> GloballyLoaded(p))
    && (p.doneArenaSync <==> LoadedForArena(p))
    && (p.leaveWhenDone ==> !Inside(p.status))
    && KickHolds(p)
  }

  ghost predicate Marked(s: State) {
    forall p :: p in s.players ==> MarksOk(s.players[p])
  }

  // ------------------------------------------------------ one player at a time

  lemma LeaveMarks(p: Player, listed: bool)
    requires PlayerOk(p, listed) && MarksOk(p)
    ensures MarksOk(LeaveArena(p)) && MarksOk(Kick(p))
    ensures p.arena.Some? ==> MarksOk(InitiateLeave(p))
  {
  }

  lemma AwaitMarks(p: Player, ready: bool)
    requires PlayerOk(p, true) && MarksOk(p) && p.pending.None?
    requires p.status.LoggedIn? || (p.status.Connected? && !ready)
    ensures MarksOk(AwaitArena(p, ready))
  {
  }

  lemma AdvanceMarks(p: Player)
    requires PlayerOk(p, true) && MarksOk(p) && p.pending.None? && Automatic(p.status).Some?
    ensures MarksOk(Advance(p))
  {
  }

  lemma ActMarks(p: Player, canAuth: bool)
    requires PlayerOk(p, true) && MarksOk(p) && p.pending.Some?
    ensures MarksOk(Act(p, canAuth))
  {
  }

  /** A sync that ends, with or without persist. */
  lemma SyncMarks(p: Player)
    requires MarksOk(p) && p.pending.None? && p.status.WaitsForSync()
    ensures MarksOk(p.(status := SyncedStatus(p)))
  {
  }

  lemma NamesakeMarks(p: Player)
    requires MarksOk(p) && p.pending.None? && p.status.WaitAuth?
    ensures MarksOk(p.(status := NeedGlobalSync)) && MarksOk(p.(status := Connected))
  {
  }

  lemma LoginMarks(p: Player)
    requires MarksOk(p) && p.pending.None? && p.status.Connected?
    ensures MarksOk(p.(status := NeedAuth)) && MarksOk(RejectLogin(p))
  {
  }

  // ----------------------------------------------------------------- the steps

  predicate NamesakeReady(s: State, p: Player) {
    p.replacedBy.Some? && p.replacedBy.value in s.players ==> s.players[p.replacedBy.value].pending.None?
  }

  /** SyncDone leaves the marks of everybody right. */
  lemma SyncDoneMarks(s: State, id: PlayerId)
    requires Marked(s) && id in s.players && s.players[id].pending.None? && s.players[id].status.WaitsForSync()
    requires NamesakeReady(s, s.players[id])
    ensures Marked(SyncDone(s, id))
  {
    SyncMarks(s.players[id]);
    if Promotes(s, s.players[id]) { NamesakeMarks(s.players[s.players[id].replacedBy.value]); }
  }

  lemma ScanMarks(s: State)
    requires Inv(s) && Marked(s) && PassEnabled(s, PassScans)
    ensures Marked(Scan(s))
  {
    var id := s.scan[0];
    var p := s.players[id];
    assert id in s.scan && PlayerOk(p, true);
    if p.status.Connected? || p.status.LoggedIn? {
      AwaitMarks(p, NextArenaRuns(s, p));
    } else if Automatic(p.status).Some? {
      AdvanceMarks(p);
    }
  }

  lemma ActionMarks(s: State, canAuth: bool)
    requires Inv(s) && Marked(s) && PassEnabled(s, PassActs(canAuth))
    ensures Marked(RunAction(s, canAuth))
  {
    var id := s.actions[0];
    var p := s.players[id];
    assert id in s.actions && PlayerOk(p, true) && ReplacementOf(s, p);
    ActMarks(p, canAuth);
    ActKeepsOk(p, canAuth);
    ActionDoneMarks(s, id, p, canAuth);
  }

  lemma ActKeepsOk(p: Player, canAuth: bool)
    requires PlayerOk(p, true) && p.pending.Some?
    ensures SyncFollows(p.pending.value) ==> Act(p, canAuth).status.WaitsForSync()
    ensures !SyncFollows(p.pending.value) ==> PlayerOk(Act(p, canAuth), true)
  {
    ActOk(p, canAuth);
  }

  lemma ActionDoneMarks(s: State, id: PlayerId, p: Player, canAuth: bool)
    requires Marked(s) && s.actions != [] && id == s.actions[0] && id in s.players && p == s.players[id] && p.pending.Some?
    requires MarksOk(Act(p, canAuth)) && NamesakeReady(s, p)
    requires SyncFollows(p.pending.value) ==> Act(p, canAuth).status.WaitsForSync()
    requires !SyncFollows(p.pending.value) ==> PlayerOk(Act(p, canAuth), true)
    ensures Marked(RunAction(s, canAuth))
  {
    var p1 := Act(p, canAuth);
    var s1 := s.(actions := s.actions[1..]).WithPlayer(id, p1);
    if SyncFollows(p.pending.value) {
      RequestMarks(s1, id, AsksPersist(s.persist, p));
    } else {
      LeaveMarks(p1, true);
    }
  }

  lemma RequestMarks(s: State, id: PlayerId, ask: bool)
    requires Marked(s) && id in s.players && s.players[id].pending.None? && s.players[id].status.WaitsForSync()
    requires NamesakeReady(s, s.players[id])
    ensures Marked(RequestSync(s, id, ask))
  {
    if !ask { SyncDoneMarks(s, id); }
  }

  lemma CompletionMarks(s: State, id: PlayerId)
    requires Inv(s) && Marked(s) && PassEnabled(s, SyncCompletes(id))
    ensures Marked(SyncAnswered(s, id))
  {
    SyncFindsWaiting(s, id);
    assert ReplacementOf(s, s.players[id]);
    SyncDoneMarks(s.WithPlayer(id, s.players[id].(syncs := s.players[id].syncs - 1)), id);
  }

  lemma AuthMarks(s: State, id: PlayerId, ok: bool, other: Option<PlayerId>)
    requires Inv(s) && Marked(s) && PassEnabled(s, AuthCompletes(id, ok, other))
    ensures Marked(AuthDone(s, id, ok, other))
  {
    AuthFindsWaiting(s, id);
    if other.Some? { OthersMarks(s, id, other.value); }
    AnsweredMarks(s, id, ok, other);
  }

  lemma OthersMarks(s: State, id: PlayerId, o: PlayerId)
    requires Inv(s) && Marked(s) && o in s.players
    ensures MarksOk(Kick(s.players[o].(replacedBy := Some(id))))
  {
    assert PlayerOk(s.players[o], o in s.playerList);
    KickReplaced(s.players[o], id);
    LeaveMarks(s.players[o], o in s.playerList);
  }

  lemma AnsweredMarks(s: State, id: PlayerId, ok: bool, other: Option<PlayerId>)
    requires Marked(s) && id in s.players && s.players[id].auths > 0
    requires s.players[id].status.WaitAuth? && s.players[id].pending.None?
    requires other.Some? ==> && other.value in s.players && other.value != id
                             && MarksOk(Kick(s.players[other.value].(replacedBy := Some(id))))
    ensures Marked(AuthDone(s, id, ok, other))
  {
    NamesakeMarks(s.players[id]);
    assert MarksOk(Authenticated(s.players[id], ok, other));
  }

  lemma PassStepMarks(s: State, step: PassStep)
    requires Inv(s) && Marked(s) && PassEnabled(s, step)
    ensures Marked(PassApply(s, step))
  {
    match step
    case PassBegins =>
    case PassScans => ScanMarks(s);
    case PassActs(canAuth) => ActionMarks(s, canAuth);
    case SyncCompletes(p) => CompletionMarks(s, p);
    case AuthCompletes(p, ok, other) => AuthMarks(s, p, ok, other);
  }

  lemma PlayerStepMarks(s: State, step: PlayerStep)
    requires Inv(s) && Marked(s) && PlayerEnabled(s, step)
    ensures Marked(PlayerApply(s, step))
  {
    match step
    case Leaves(p) => OneLeavesMarks(s, p);
    case Kicks(p) => OneLeavesMarks(s, p);
    case Logins(p) => LoginMarksIn(s, p);
    case LoginRejected(p) => LoginMarksIn(s, p);
    case BecomesReady(p) =>
      assert PlayerOk(s.players[p], p in s.playerList);
      ReadyMarks(s, p);
    case Goes(p, name) => GoMarks(s, p, name);
    case _ => OtherStepMarks(s, step);
  }

  lemma ReadyMarks(s: State, p: PlayerId)
    requires Marked(s) && p in s.players && s.players[p].pending.None? && s.players[p].status.Uninitialized?
    ensures Marked(s.WithPlayer(p, s.players[p].(status := Connected)))
  {
  }

  lemma GoMarks(s: State, p: PlayerId, name: string)
    requires Marked(s) && p in s.players
    ensures Marked(GoTo(s, p, name))
  {
    assert MarksOk(s.players[p]);
  }

  lemma OtherStepMarks(s: State, step: PlayerStep)
    requires Marked(s) && PlayerEnabled(s, step)
    requires step.Connects? || step.Listed? || step.Freed?
    ensures Marked(PlayerApply(s, step))
  {
  }

  lemma OneLeavesMarks(s: State, p: PlayerId)
    requires Inv(s) && Marked(s) && p in s.players
    ensures Marked(s.WithPlayer(p, LeaveArena(s.players[p]))) && Marked(s.WithPlayer(p, Kick(s.players[p])))
  {
    LeaveMarks(s.players[p], p in s.playerList);
  }

  lemma LoginMarksIn(s: State, p: PlayerId)
    requires Inv(s) && Marked(s) && p in s.players && s.players[p].status.Connected?
    ensures Marked(s.WithPlayer(p, s.players[p].(status := NeedAuth))) && Marked(s.WithPlayer(p, RejectLogin(s.players[p])))
  {
    assert PlayerOk(s.players[p], p in s.playerList);
    LoginMarks(s.players[p]);
  }

  lemma RecycleMarks(s: State, id: ArenaId)
    requires Inv(s) && Marked(s)
    ensures Marked(RecycleMark(s, id))
  {
    forall p | p in s.players ensures MarksOk(RecycleMark(s, id).players[p]) {
      if s.players[p].arena == Some(id) { HisRecycleMarks(s, p, id); }
    }
  }

  lemma HisRecycleMarks(s: State, p: PlayerId, id: ArenaId)
    requires Inv(s) && Marked(s) && p in s.players && s.players[p].arena == Some(id)
    ensures MarksOk(InitiateLeave(s.players[p]).(newarena := Some(id)))
  {
    assert PlayerOk(s.players[p], p in s.playerList);
    LeaveMarks(s.players[p], p in s.playerList);
  }

  lemma ArenaStepMarks(s: State, step: ArenaStep)
    requires Inv(s) && Marked(s) && ArenaEnabled(s, step)
    ensures Marked(ArenaApply(s, step))
  {
    if step.RecycleMarks? { RecycleMarks(s, step.arena); } else { ArenasApart(s, step); }
  }

  lemma ArenasApart(s: State, step: ArenaStep)
    requires ArenaEnabled(s, step) && !step.RecycleMarks?
    ensures ArenaApply(s, step).players == s.players
  {
  }

  lemma StepMarks(s: State, step: Step)
    requires Inv(s) && Marked(s) && Enabled(s, step)
    ensures Marked(Apply(s, step))
  {
    match step
    case OfArena(a) => ArenaStepMarks(s, a);
    case OfPlayer(p) => PlayerStepMarks(s, p);
    case OfPass(p) => PassStepMarks(s, p);
  }

  lemma {:induction false} RunMarks(s: State, steps: seq<Step>, s': State)
    requires Inv(s) && Marked(s) && Runs(s, steps, s')
    ensures Inv(s') && Marked(s')
    decreases |steps|
  {
    if steps != [] {
      StepKeeps(s, steps[0]);
      StepMarks(s, steps[0]);
      RunMarks(Apply(s, steps[0]), steps[1..], s');
    }
  }

  lemma ReachableMarks(s: State)
    requires Reachable(s)
    ensures Inv(s) && Marked(s)
  {
    var s0, steps :| Initial(s0) && Runs(s0, steps, s);
    InitialOk(s0);
    RunMarks(s0, steps, s);
  }

  // -------------------------------------------------------------- main results

  /** What is in memory for a player is exactly what has been loaded and not put back. */
  lemma LoadedMeans(s: State, p: PlayerId)
    requires Reachable(s) && p in s.players
    ensures s.players[p].doneGlobalSync <==> GloballyLoaded(s.players[p])
    ensures s.players[p].doneArenaSync <==> LoadedForArena(s.players[p])
  {
    ReachableMarks(s);
    assert MarksOk(s.players[p]);
  }

  /** Whoever has been kicked is not on his way into an arena in any reachable state, and
      nobody plays who once left while his scores were being loaded. */
  lemma KickedIsLeaving(s: State, p: PlayerId)
    requires Reachable(s) && p in s.players
    ensures s.players[p].kicked ==>
              && !s.players[p].status.DoFreqAndArenaSync? && !s.players[p].status.ArenaRespAndCbs? && !s.players[p].status.Playing?
              && (s.players[p].status.WaitArenaSync1? ==> s.players[p].leaveWhenDone)
    ensures s.players[p].leaveWhenDone ==> !Inside(s.players[p].status)
  {
    ReachableMarks(s);
    assert MarksOk(s.players[p]);
  }

  /** The callbacks that go with the old status. */
  function FiredFor(p: Player): seq<Event>
    requires p.pending.Some?
  {
    match p.pending.value
    case DoGlobalCallbacks => [Connect]
    case DoFreqAndArenaSync => [PreEnter(p.arena)]
    case ArenaRespAndCbs => [Enter(p.arena)]
    case LeavingArena => [Leave(p.arena)]
    case LeavingZone => if p.log == [] then [] else [Disconnect]
    case _ => []
  }

  /** The player once his callbacks have run, up to what is loaded for him. */
  predicate Acted(p: Player, p': Player, syncs: nat, auths: nat, kicked: bool)
    requires p.pending.Some?
  {
    p' == p.(pending := None, log := p.log + FiredFor(p), doneGlobalCallbacks := p.log + FiredFor(p) != [],
             doneGlobalSync := p'.doneGlobalSync, doneArenaSync := p'.doneArenaSync,
             syncs := syncs, auths := auths, kicked := kicked)
  }

  /** The old statuses that end in a wait for persist. */
  predicate WaitsAfter(was: PlayerStatus) {
    was.NeedGlobalSync? || was.DoFreqAndArenaSync? || was.DoArenaSync2? || was.LeavingZone?
  }

  /** Whether persist is asked: whenever there is one, except for somebody who leaves the
      zone without having been announced. */
  predicate PersistIsAsked(persist: bool, p: Player)
    requires p.pending.Some?
  {
    persist && WaitsAfter(p.pending.value) && (p.pending.value.LeavingZone? ==> p.log != [])
  }

  lemma ActingIs(p: Player, canAuth: bool)
    requires PlayerOk(p, true) && MarksOk(p) && p.pending.Some?
    ensures p.syncs == 0 && p.auths == 0 && p.arena == Act(p, canAuth).arena
    ensures SyncFollows(p.pending.value) <==> WaitsAfter(p.pending.value)
    ensures Acted(p, Act(p, canAuth), 0, if p.pending.value.NeedAuth? && canAuth then 1 else 0, p.kicked)
    ensures WaitsAfter(p.pending.value) ==> Act(p, canAuth).status.WaitsForSync()
    ensures forall persist :: AsksPersist(persist, p) && WaitsAfter(p.pending.value) <==> PersistIsAsked(persist, p)
    ensures p.pending.value.NeedAuth? ==> p.arena.None?
  {
    assert Logged(p.log, Fires(p, p.pending.value)) == p.log + FiredFor(p);
  }

  /** Between s and s' the first pending action was run, and p1 is its player once his
      callbacks have run. */
  predicate ActionRan(s: State, canAuth: bool, p1: Player, s': State)
    requires PassEnabled(s, PassActs(canAuth))
  {
    var id, p := s.actions[0], s.players[s.actions[0]];
    var s1 := s.(actions := s.actions[1..], players := s.players[id := p1]);
    && Acted(p, p1, if PersistIsAsked(s.persist, p) then 1 else 0,
             if p.pending.value.NeedAuth? && canAuth then 1 else 0,
             p.kicked || (p.pending.value.NeedAuth? && !canAuth))
    && if WaitsAfter(p.pending.value) && !PersistIsAsked(s.persist, p) then SyncEndedIn(s1, s', id) else s' == s1
  }

  /** What ActingIs says, and who may take over. */
  predicate ActionReady(s: State, id: PlayerId, p: Player, canAuth: bool) {
    && s.actions != [] && id == s.actions[0] && id in s.players && p == s.players[id] && p.pending.Some?
    && (SyncFollows(p.pending.value) <==> WaitsAfter(p.pending.value)) && NamesakeWaits(s, p)
    && Acted(p, Act(p, canAuth), 0, if p.pending.value.NeedAuth? && canAuth then 1 else 0, p.kicked)
    && (AsksPersist(s.persist, p) && WaitsAfter(p.pending.value) <==> PersistIsAsked(s.persist, p))
    && (WaitsAfter(p.pending.value) ==> Act(p, canAuth).status.WaitsForSync())
    && (p.pending.value.NeedAuth? ==> p.arena.None?)
  }

  lemma WaitingActionRan(s: State, id: PlayerId, p: Player, canAuth: bool) returns (p1: Player)
    requires ActionReady(s, id, p, canAuth) && s.scan == [] && WaitsAfter(p.pending.value)
    ensures ActionRan(s, canAuth, p1, RunAction(s, canAuth))
  {
    var p0 := Act(p, canAuth);
    var s0 := s.(actions := s.actions[1..]).WithPlayer(id, p0);
    if PersistIsAsked(s.persist, p) {
      p1 := p0.(syncs := p0.syncs + 1);
    } else {
      p1 := p0;
      SyncDoneEnds(s0, id);
    }
  }

  lemma PlainActionRan(s: State, id: PlayerId, p: Player, canAuth: bool) returns (p1: Player)
    requires ActionReady(s, id, p, canAuth) && s.scan == [] && !WaitsAfter(p.pending.value)
    ensures ActionRan(s, canAuth, p1, RunAction(s, canAuth))
  {
    var p0 := Act(p, canAuth);
    p1 := if p.pending.value.NeedAuth? && !canAuth then p0.(kicked := true) else p0;
  }

  /** One pending action: the callbacks are fired, the login is handed to the authenticator
      or the player is kicked for want of one, persist is asked, or, where it is not
      asked, the wait ends at once; and nothing else happens. */
  lemma ActionDoes(s: State, canAuth: bool) returns (p1: Player)
    requires Reachable(s) && Enabled(s, OfPass(PassActs(canAuth)))
    ensures ActionRan(s, canAuth, p1, Apply(s, OfPass(PassActs(canAuth))))
  {
    ActionIsReady(s, canAuth);
    var p := s.players[s.actions[0]];
    if WaitsAfter(p.pending.value) {
      p1 := WaitingActionRan(s, s.actions[0], p, canAuth);
    } else {
      p1 := PlainActionRan(s, s.actions[0], p, canAuth);
    }
  }

  lemma ActionIsReady(s: State, canAuth: bool)
    requires Reachable(s) && PassEnabled(s, PassActs(canAuth))
    ensures ActionReady(s, s.actions[0], s.players[s.actions[0]], canAuth)
  {
    ActionFinds(s, s.actions[0]);
    ActingIs(s.players[s.actions[0]], canAuth);
  }

  lemma ActionFinds(s: State, id: PlayerId)
    requires Reachable(s) && s.actions != [] && id == s.actions[0] && id in s.players
    ensures PlayerOk(s.players[id], true) && MarksOk(s.players[id]) && NamesakeWaits(s, s.players[id])
  {
    ReachableMarks(s);
    assert id in s.actions && id in s.playerList && ReplacementOf(s, s.players[id]);
  }
}
