/** What every step of the arena and player protocol keeps. */
module LifecycleInvariant {
  import opened Options
  import opened Lifecycle

  // ------------------------------------------------------- callback order

  /** The documented order of a player's callbacks: CONNECT first, DISCONNECT last,
      ENTER only right after the PREENTER for the same arena, LEAVE only right after
      the ENTER for the same arena, and nothing else right after an ENTER. */
  predicate MayFollow(previous: Option<Event>, e: Event) {
    match e
    case Connect => previous.None?
    case PreEnter(_) => previous.Some? && Outside(previous.value)
    case Enter(a) => a.Some? && previous == Some(PreEnter(a))
    case Leave(a) => a.Some? && previous == Some(Enter(a))
    case Disconnect => previous.Some? && Outside(previous.value)
  }

  predicate Outside(e: Event) { e.Connect? || e.PreEnter? || e.Leave? }

  function Before(log: seq<Event>, i: nat): Option<Event>
    requires i <= |log|
  {
    if i == 0 then None else Some(log[i - 1])
  }

  ghost predicate WellOrdered(log: seq<Event>) {
    forall i | 0 <= i < |log| :: MayFollow(Before(log, i), log[i])
  }

  lemma Extends(log: seq<Event>, e: Event)
    requires WellOrdered(log) && MayFollow(Before(log, |log|), e)
    ensures WellOrdered(log + [e])
  {
    var log' := log + [e];
    forall i | 0 <= i < |log'| ensures MayFollow(Before(log', i), log'[i]) {
      if i < |log| { assert Before(log', i) == Before(log, i) && log'[i] == log[i]; }
    }
  }

  // --------------------------------------------------------------- arenas

  predicate Live(a: Arena) { a.status.Running? || a.status.Closing? }

  /** On its way out only if it will come back. */
  predicate Returns(a: Arena) { a.status.PastRunning() ==> a.resurrect }

  function UnheldOf(s: State, id: ArenaId): nat {
    if s.round.Some? && s.round.value.arena == id then s.round.value.unheld else 0
  }

  /** Holds are exactly the queued jobs that have been held for, all jobs belong to
      the wait state the arena is in and saw it, and persist owes a completion
      exactly in the two sync states. */
  ghost predicate ArenaOk(a: Arena, unheld: nat, nextWorker: nat) {
    && |a.workers| == a.holds + unheld
    && (forall w :: w in a.workers ==>
          && w < nextWorker && a.status.WaitsForHolds() && a.workers[w].phase == a.status
          && (a.workers[w].sawBefore.Some? ==> a.workers[w].sawBefore.value == a.status.BeforeRunning()))
    && a.syncs == if a.status.WaitsForSync() then 1 else 0
  }

  // -------------------------------------------------------------- players

  function LastIn(log: seq<Event>): Option<Event> { Before(log, |log|) }

  predicate Idle(log: seq<Event>) { log != [] && Outside(log[|log| - 1]) }

  predicate Gone(log: seq<Event>) { log == [] || LastIn(log) == Some(Disconnect) }

  /** How far the callbacks have come, for each status and each pending action. */
  predicate StageOk(p: Player) {
    if p.pending.None? then
      match p.status
      case LoggedIn => Idle(p.log)
      case DoFreqAndArenaSync => Idle(p.log)
      case DoArenaSync2 => Idle(p.log)
      case WaitArenaSync2 => Idle(p.log)
      case SendLoginResponse => Idle(p.log)
      case WaitArenaSync1 => LastIn(p.log) == Some(PreEnter(p.arena))
      case ArenaRespAndCbs => LastIn(p.log) == Some(PreEnter(p.arena))
      case Playing => LastIn(p.log) == Some(Enter(p.arena))
      case LeavingArena => LastIn(p.log) == Some(Enter(p.arena))
      case LeavingZone => p.log == [] || Idle(p.log)
      case WaitGlobalSync2 => Gone(p.log)
      case TimeWait => Gone(p.log)
      case _ => p.log == []
    else
      match p.pending.value
      case NeedAuth => p.status.WaitAuth? && p.log == []
      case NeedGlobalSync => p.status.WaitGlobalSync1? && p.log == []
      case DoGlobalCallbacks => p.status.SendLoginResponse? && p.log == []
      case SendLoginResponse => p.status.LoggedIn? && Idle(p.log)
      case DoFreqAndArenaSync => p.status.WaitArenaSync1? && Idle(p.log)
      case ArenaRespAndCbs => (p.status.Playing? || p.status.LeavingArena?) && LastIn(p.log) == Some(PreEnter(p.arena))
      case LeavingArena => p.status.DoArenaSync2? && LastIn(p.log) == Some(Enter(p.arena))
      case DoArenaSync2 => p.status.WaitArenaSync2? && Idle(p.log)
      case LeavingZone => p.status.WaitGlobalSync2? && (p.log == [] || Idle(p.log))
      case _ => false
  }

  ghost predicate PlayerOk(p: Player, listed: bool) {
    && WellOrdered(p.log)
    && StageOk(p)
    && (p.status.NeedsArena() ==> p.arena.Some?)
    && (p.status.BeforeLogin() ==> p.arena.None? && p.newarena.None?)
    && (!listed ==> p.status.Uninitialized? || p.status.Connected?)
    && p.syncs == (if p.pending.None? && p.status.WaitsForSync() then 1 else 0)
    && p.auths <= (if p.pending.None? && p.status.WaitAuth? then 1 else 0)
    && (p.doneGlobalCallbacks <==> p.log != [])
    && (p.replacedBy.Some? ==> Leaving(p))
  }

  predicate Leaving(p: Player) {
    !p.status.TimeWait? && (p.kicked || p.status.LeavingZone? || p.status.WaitGlobalSync2?)
  }

  /** A player whose authentication is over and who waits for a namesake to leave. */
  predicate Waiting(p: Player) {
    p.status.WaitAuth? && p.auths == 0 && p.pending.None?
  }

  // ------------------------------------------------------------ the state

  ghost predicate NoDup(xs: seq<nat>) {
    forall i, j | 0 <= i < j < |xs| :: xs[i] != xs[j]
  }

  ghost predicate ArenaListOk(s: State) {
    && NoDup(s.arenaList)
    && (forall a :: a in s.arenaList <==> a in s.arenas)
    && (forall a :: a in s.arenas ==> a < s.nextArena)
  }

  ghost predicate ArenasOk(s: State) {
    forall a :: a in s.arenas ==> ArenaOk(s.arenas[a], UnheldOf(s, a), s.nextWorker)
  }

  /** What holding the arena lock across two steps guarantees. */
  ghost predicate RegionsOk(s: State) {
    && (s.round.Some? ==> s.recycling.None? && s.round.value.arena in s.arenas
                          && s.arenas[s.round.value.arena].status.WaitsForHolds() && s.round.value.unheld <= 1)
    && (s.recycling.Some? ==> s.recycling.value in s.arenas && s.arenas[s.recycling.value].status.Running?)
  }

  ghost predicate PlayerListOk(s: State) {
    && NoDup(s.playerList)
    && (forall p :: p in s.playerList ==> p in s.players)
    && (forall p :: p in s.players ==> p < s.nextPlayer)
  }

  /** The pending-action list holds exactly the players with something pending, and
      nobody still to be scanned is among them. */
  ghost predicate PassOk(s: State) {
    && NoDup(s.scan) && NoDup(s.actions)
    && (forall p :: p in s.scan ==> p in s.playerList && p !in s.actions)
    && (forall p :: p in s.actions ==> p in s.playerList)
    && (forall p :: p in s.players ==> (s.players[p].pending.Some? <==> p in s.actions))
  }

  ghost predicate PlayersOk(s: State) {
    forall p :: p in s.players ==> PlayerOk(s.players[p], p in s.playerList)
  }

  /** The two pointers of one player. */
  ghost predicate RefsOf(arenas: map<ArenaId, Arena>, p: Player) {
    && (p.arena.Some? ==> p.arena.value in arenas && Live(arenas[p.arena.value]))
    && (p.newarena.Some? ==> p.newarena.value in arenas && Returns(arenas[p.newarena.value]))
  }

  ghost predicate RefsOk(s: State) {
    forall p :: p in s.players ==> RefsOf(s.arenas, s.players[p])
  }

  ghost predicate ReplacementOf(s: State, p: Player) {
    p.replacedBy.Some? ==>
      p.replacedBy.value in s.playerList && p.replacedBy.value in s.players && Waiting(s.players[p.replacedBy.value])
  }

  predicate Replaces(s: State, p: PlayerId, q: PlayerId) {
    q in s.players && s.players[q].replacedBy == Some(p)
  }

  /** Whoever is named as a replacement is there and waiting, for one player only. */
  ghost predicate ReplacementsOk(s: State) {
    && (forall p :: p in s.players ==> ReplacementOf(s, s.players[p]))
    && (forall p, q, r :: Replaces(s, p, q) && Replaces(s, p, r) ==> q == r)
  }

  ghost predicate Inv(s: State) {
    && ArenaListOk(s) && ArenasOk(s) && RegionsOk(s)
    && PlayerListOk(s) && PassOk(s) && PlayersOk(s)
    && RefsOk(s) && ReplacementsOk(s)
  }

  // ------------------------------------------------- changing one record

  lemma PlayersKept(s: State, id: PlayerId, p: Player)
    requires PlayerListOk(s) && PlayersOk(s) && RefsOk(s) && PassOk(s) && id in s.players
    requires PlayerOk(p, id in s.playerList) && (p.pending.Some? <==> s.players[id].pending.Some?)
    requires RefsOf(s.arenas, p)
    ensures var s' := s.WithPlayer(id, p); PlayerListOk(s') && PlayersOk(s') && RefsOk(s') && PassOk(s')
  {
  }

  /** Changing one player keeps the invariant if the player himself stays consistent
      and so do the replacements. */
  lemma PlayerReplaced(s: State, id: PlayerId, p: Player)
    requires Inv(s) && id in s.players
    requires PlayerOk(p, id in s.playerList) && (p.pending.Some? <==> s.players[id].pending.Some?)
    requires RefsOf(s.arenas, p)
    requires ReplacementsOk(s.WithPlayer(id, p))
    ensures Inv(s.WithPlayer(id, p))
  {
    var s' := s.WithPlayer(id, p);
    PlayersKept(s, id, p);
    assert ArenaListOk(s') && ArenasOk(s') && RegionsOk(s');
  }

  lemma ReplacementsKept(s: State, id: PlayerId, p: Player)
    requires ReplacementsOk(s) && id in s.players
    requires p.replacedBy.None? || p.replacedBy == s.players[id].replacedBy
    requires Waiting(s.players[id]) ==> Waiting(p) || forall q :: !Replaces(s, id, q)
    ensures ReplacementsOk(s.WithPlayer(id, p))
  {
    var s' := s.WithPlayer(id, p);
    forall q | q in s'.players ensures ReplacementOf(s', s'.players[q]) {
      assert ReplacementOf(s, s.players[q]);
      if s'.players[q].replacedBy == Some(id) { assert Replaces(s, id, q); }
    }
    forall a, b, c | Replaces(s', a, b) && Replaces(s', a, c) ensures b == c {
      assert Replaces(s, a, b) && Replaces(s, a, c);
    }
  }

  lemma PlayerChanged(s: State, id: PlayerId, p: Player)
    requires Inv(s) && id in s.players
    requires PlayerOk(p, id in s.playerList) && (p.pending.Some? <==> s.players[id].pending.Some?)
    requires RefsOf(s.arenas, p)
    requires p.replacedBy.None? || p.replacedBy == s.players[id].replacedBy
    requires Waiting(s.players[id]) ==> Waiting(p) || forall q :: !Replaces(s, id, q)
    ensures Inv(s.WithPlayer(id, p))
  {
    ReplacementsKept(s, id, p);
    PlayerReplaced(s, id, p);
  }

  /** Changing the arena side keeps the invariant if the arenas stay consistent and
      nobody's pointer is left behind. */
  lemma ArenaSideChanged(s: State, s': State)
    requires Inv(s)
    requires s' == s.(arenas := s'.arenas, arenaList := s'.arenaList, nextArena := s'.nextArena,
                      round := s'.round, recycling := s'.recycling, nextWorker := s'.nextWorker)
    requires ArenaListOk(s') && ArenasOk(s') && RegionsOk(s') && RefsOk(s')
    ensures Inv(s')
  {
    assert PlayerListOk(s') && PassOk(s') && PlayersOk(s');
    ReplacementsSame(s, s');
  }

  lemma RefsKept(s: State, id: ArenaId, a: Arena)
    requires RefsOk(s) && id in s.arenas
    requires Live(s.arenas[id]) ==> Live(a)
    requires Returns(s.arenas[id]) ==> Returns(a)
    ensures RefsOk(s.WithArena(id, a))
  {
  }

  lemma ArenaListKept(s: State, id: ArenaId, a: Arena)
    requires ArenaListOk(s) && id in s.arenas
    ensures ArenaListOk(s.WithArena(id, a))
  {
  }

  lemma ArenasKept(s: State, id: ArenaId, a: Arena)
    requires ArenasOk(s) && ArenaOk(a, UnheldOf(s, id), s.nextWorker)
    ensures ArenasOk(s.WithArena(id, a))
  {
    var s' := s.WithArena(id, a);
    forall b | b in s'.arenas ensures ArenaOk(s'.arenas[b], UnheldOf(s', b), s'.nextWorker) {
      assert b != id ==> ArenaOk(s.arenas[b], UnheldOf(s, b), s.nextWorker);
    }
  }

  lemma RegionsKept(s: State, id: ArenaId, a: Arena)
    requires RegionsOk(s) && id in s.arenas && (a.status == s.arenas[id].status || s.ArenaLockFree())
    ensures RegionsOk(s.WithArena(id, a))
  {
  }

  /** Changing one arena but not its status, whether or not its lock is held. */
  lemma ArenaTouched(s: State, id: ArenaId, a: Arena)
    requires Inv(s) && id in s.arenas
    requires ArenaOk(a, UnheldOf(s, id), s.nextWorker)
    requires a.status == s.arenas[id].status && (s.arenas[id].resurrect ==> a.resurrect)
    ensures Inv(s.WithArena(id, a))
  {
    RefsKept(s, id, a);
    ArenasKept(s, id, a);
    RegionsKept(s, id, a);
    ArenaListKept(s, id, a);
    ArenaSideChanged(s, s.WithArena(id, a));
  }

  /** Changing one arena while its lock is free. */
  lemma ArenaChanged(s: State, id: ArenaId, a: Arena)
    requires Inv(s) && s.ArenaLockFree() && id in s.arenas
    requires ArenaOk(a, 0, s.nextWorker)
    requires Live(s.arenas[id]) ==> Live(a)
    requires Returns(s.arenas[id]) ==> Returns(a)
    ensures Inv(s.WithArena(id, a))
  {
    RefsKept(s, id, a);
    ArenasKept(s, id, a);
    RegionsKept(s, id, a);
    ArenaListKept(s, id, a);
    ArenaSideChanged(s, s.WithArena(id, a));
  }

  lemma ReplacementsSame(s: State, s': State)
    requires ReplacementsOk(s)
    requires s'.players == s.players && s'.playerList == s.playerList
    ensures ReplacementsOk(s')
  {
    forall q | q in s'.players ensures ReplacementOf(s', s'.players[q]) {
      assert ReplacementOf(s, s.players[q]);
    }
    forall a, b, c | Replaces(s', a, b) && Replaces(s', a, c) ensures b == c {
      assert Replaces(s, a, b) && Replaces(s, a, c);
    }
  }
}
