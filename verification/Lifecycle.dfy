/** The arena and player state machines, as the locked regions of arenaman.c,
    core.c, player.c and the worker halves of mapdata.c and mapnewsdl.c step them.

    Every region that runs under the arena lock or the player lock is one atomic
    step. Three regions of the server are longer than one step and are therefore
    visible in the state: a player pass (`scan`, then `actions`), a round of arena
    callbacks during which the arena lock stays held (`round`), and the gap between
    the two halves of a recycle (`recycling`). */
module Lifecycle {
  import opened Options

  type ArenaId = nat
  type PlayerId = nat
  type WorkerId = nat

  // ---------------------------------------------------------------- arenas

  /** In lifecycle order: the sources compare these values with < and >. */
  datatype ArenaStatus =
    | DoInit0 | WaitHolds0 | DoInit1 | WaitHolds1 | DoInit2 | WaitSync1
    | Running | Closing
    | DoWriteData | WaitSync2 | DoDestroy1 | WaitHolds2 | DoDestroy2
  {
    /** status < ARENA_RUNNING */
    predicate BeforeRunning() {
      DoInit0? || WaitHolds0? || DoInit1? || WaitHolds1? || DoInit2? || WaitSync1?
    }

    /** status > ARENA_RUNNING */
    predicate PastRunning() { !BeforeRunning() && !Running? }

    predicate WaitsForHolds() { WaitHolds0? || WaitHolds1? || WaitHolds2? }
    predicate WaitsForSync() { WaitSync1? || WaitSync2? }
  }

  /** A job handed to a worker thread by an arena callback: the status the arena had
      when it was queued, and what the job saw when it compared that status with
      ARENA_RUNNING (None until it has looked). */
  datatype Worker = Worker(phase: ArenaStatus, sawBefore: Option<bool>)

  /** `syncs` counts persist requests whose completion has not run yet, `workers`
      the jobs that have not called Unhold yet. */
  datatype Arena = Arena(
    name: string, status: ArenaStatus, holds: nat, resurrect: bool, reap: bool,
    keepAlive: bool, syncs: nat, workers: map<WorkerId, Worker>)

  // --------------------------------------------------------------- players

  datatype PlayerStatus =
    | Uninitialized | Connected | NeedAuth | WaitAuth | NeedGlobalSync
    | WaitGlobalSync1 | DoGlobalCallbacks | SendLoginResponse | LoggedIn
    | DoFreqAndArenaSync | WaitArenaSync1 | ArenaRespAndCbs | Playing
    | LeavingArena | DoArenaSync2 | WaitArenaSync2
    | LeavingZone | WaitGlobalSync2 | TimeWait
  {
    /** p->status < S_LEAVING_ZONE */
    predicate BeforeLeavingZone() { !LeavingZone? && !WaitGlobalSync2? && !TimeWait? }

    /** The stretch in which the sources call p->arena valid. */
    predicate NeedsArena() {
      || DoFreqAndArenaSync? || WaitArenaSync1? || ArenaRespAndCbs? || Playing?
      || LeavingArena? || DoArenaSync2? || WaitArenaSync2?
    }

    predicate BeforeLogin() {
      || Uninitialized? || Connected? || NeedAuth? || WaitAuth? || NeedGlobalSync?
      || WaitGlobalSync1? || DoGlobalCallbacks? || SendLoginResponse?
    }

    predicate WaitsForSync() {
      WaitGlobalSync1? || WaitArenaSync1? || WaitArenaSync2? || WaitGlobalSync2?
    }
  }

  /** The player-action callbacks core fires, with the arena they are fired for. */
  datatype Event =
    | Connect
    | PreEnter(arena: Option<ArenaId>)
    | Enter(arena: Option<ArenaId>)
    | Leave(arena: Option<ArenaId>)
    | Disconnect

  /** `kicked` is whenloggedin == S_LEAVING_ZONE; `pending` is the old status in the
      player's entry of the pending-action list, if he has one; `auths` and `syncs`
      count requests whose completion has not run yet; `log` is every callback fired
      for him so far. */
  datatype Player = Player(
    status: PlayerStatus, arena: Option<ArenaId>, newarena: Option<ArenaId>,
    kicked: bool, leaveWhenDone: bool,
    doneGlobalSync: bool, doneArenaSync: bool, doneGlobalCallbacks: bool,
    replacedBy: Option<PlayerId>, pending: Option<PlayerStatus>,
    auths: nat, syncs: nat, log: seq<Event>)

  const NEW_PLAYER := Player(Uninitialized, None, None, false, false, false, false, false, None, None, 0, 0, [])

  // ----------------------------------------------------------------- state

  /** A round of arena callbacks in progress for `arena`; `unheld` jobs have been
      queued whose Hold call has not been made yet. */
  datatype Round = Round(arena: ArenaId, unheld: nat)

  datatype State = State(
    persist: bool,
    arenas: map<ArenaId, Arena>, arenaList: seq<ArenaId>, nextArena: nat,
    round: Option<Round>, recycling: Option<ArenaId>, nextWorker: nat,
    players: map<PlayerId, Player>, playerList: seq<PlayerId>, nextPlayer: nat,
    scan: seq<PlayerId>, actions: seq<PlayerId>)
  {
    predicate ArenaLockFree() { round.None? && recycling.None? }
    predicate PlayerLockFree() { scan == [] }

    function WithArena(id: ArenaId, a: Arena): State { this.(arenas := arenas[id := a]) }
    function WithPlayer(id: PlayerId, p: Player): State { this.(players := players[id := p]) }
  }

  ghost predicate Initial(s: State) {
    s == State(s.persist, map[], [], 0, None, None, 0, map[], [], 0, [], [])
  }

  // --------------------------------------------------------- arena regions

  function CreateArena(s: State, name: string, permanent: bool): State {
    s.(arenas := s.arenas[s.nextArena := Arena(name, DoInit0, 0, false, false, permanent, 0, map[])],
       arenaList := s.arenaList + [s.nextArena], nextArena := s.nextArena + 1)
  }

  /** The first switch of ProcessArenaStates: a wait state whose holds are gone. */
  function AfterHolds(a: Arena): ArenaStatus {
    if a.holds != 0 then a.status
    else match a.status
      case WaitHolds0 => DoInit1
      case WaitHolds1 => DoInit2
      case WaitHolds2 => DoDestroy2
      case _ => a.status
  }

  predicate Occupied(s: State, id: ArenaId) {
    exists i :: 0 <= i < |s.playerList| && s.playerList[i] in s.players
                && s.players[s.playerList[i]].arena == Some(id)
  }

  function BeginRound(s: State, id: ArenaId, a: Arena): State {
    s.WithArena(id, a).(round := Some(Round(id, 0)))
  }

  /** What the arena timer does to one arena: leave it in the list, leave it there and
      run the arena callbacks for it, or free it. */
  datatype TimerOutcome = Keep(arena: Arena) | Callbacks(arena: Arena) | Free

  /** One iteration of ProcessArenaStates. `occupied` is whether a listed player is in
      the arena, `detached` whether every module let go of it, `rename` the name it is
      given when one did not. */
  function TimerOn(a: Arena, persist: bool, occupied: bool, detached: bool, rename: string): TimerOutcome {
    match AfterHolds(a)
    case DoInit0 => Callbacks(a.(status := WaitHolds0))
    case DoInit1 => Callbacks(a.(status := WaitHolds1))
    case DoInit2 =>
      Keep(if persist then a.(status := WaitSync1, syncs := a.syncs + 1) else a.(status := Running))
    case DoWriteData =>
      Keep(if occupied then a.(status := Running)
           else if persist then a.(status := WaitSync2, syncs := a.syncs + 1)
           else a.(status := DoDestroy1))
    case DoDestroy1 => Callbacks(a.(status := WaitHolds2))
    case DoDestroy2 =>
      if !detached then
        Keep(a.(resurrect := false, reap := false, keepAlive := true, status := Running, name := rename))
      else if a.resurrect then
        Keep(a.(resurrect := false, reap := false, holds := 0, status := DoInit0))
      else Free
    case _ => Keep(a)
  }

  function ProcessArena(s: State, id: ArenaId, detached: bool, rename: string): State
    requires id in s.arenas
  {
    match TimerOn(s.arenas[id], s.persist, Occupied(s, id), detached, rename)
    case Keep(a) => s.WithArena(id, a)
    case Callbacks(a) => BeginRound(s, id, a)
    case Free => s.(arenas := s.arenas - {id}, arenaList := Without(s.arenaList, id))
  }

  /** LLRemove: the list without its first occurrence of x. */
  function Without(xs: seq<nat>, x: nat): seq<nat> {
    if xs == [] then [] else if xs[0] == x then xs[1..] else [xs[0]] + Without(xs[1..], x)
  }

  function LaunchWorker(s: State): State
    requires s.round.Some? && s.round.value.arena in s.arenas
  {
    var id := s.round.value.arena;
    var a := s.arenas[id];
    s.WithArena(id, a.(workers := a.workers[s.nextWorker := Worker(a.status, None)]))
      .(round := Some(Round(id, s.round.value.unheld + 1)), nextWorker := s.nextWorker + 1)
  }

  function Hold(a: Arena): Arena {
    if a.status.WaitsForHolds() then a.(holds := a.holds + 1) else a
  }

  function Unhold(a: Arena): Arena {
    if a.status.WaitsForHolds() && a.holds > 0 then a.(holds := a.holds - 1) else a
  }

  function HoldRound(s: State): State
    requires s.round.Some? && s.round.value.arena in s.arenas && s.round.value.unheld > 0
  {
    var id := s.round.value.arena;
    s.WithArena(id, Hold(s.arenas[id])).(round := Some(Round(id, s.round.value.unheld - 1)))
  }

  /** The worker compares arena->status with ARENA_RUNNING; no lock is held. */
  function WorkerReads(s: State, id: ArenaId, w: WorkerId): State
    requires id in s.arenas && w in s.arenas[id].workers
  {
    var a := s.arenas[id];
    s.WithArena(id, a.(workers := a.workers[w := a.workers[w].(sawBefore := Some(a.status.BeforeRunning()))]))
  }

  function WorkerUnholds(s: State, id: ArenaId, w: WorkerId): State
    requires id in s.arenas && w in s.arenas[id].workers
  {
    var a := Unhold(s.arenas[id]);
    s.WithArena(id, a.(workers := a.workers - {w}))
  }

  /** arena_sync_done; any other status is only logged. */
  function ArenaSynced(a: Arena): Arena {
    match a.status
    case WaitSync1 => a.(status := Running)
    case WaitSync2 => a.(status := DoDestroy1)
    case _ => a
  }

  predicate Wanted(s: State, id: ArenaId) {
    exists i :: 0 <= i < |s.playerList| && s.playerList[i] in s.players
                && s.players[s.playerList[i]].newarena == Some(id)
                && s.players[s.playerList[i]].arena != Some(id)
  }

  /** What ReapArenas leaves of one arena, given whether a listed player is in it and
      whether one is waiting to move into it. */
  function ReapArena(a: Arena, occupied: bool, wanted: bool): Arena {
    var reap := (a.status.Running? || a.status.Closing?)
                && !occupied && !(wanted && !a.status.Closing?);
    a.(reap := reap,
       resurrect := a.resurrect || (wanted && a.status.Closing?),
       status := if reap && (a.status.Closing? || !a.keepAlive) then DoWriteData else a.status)
  }

  function Reap(s: State): State {
    s.(arenas := map id | id in s.arenas :: ReapArena(s.arenas[id], Occupied(s, id), Wanted(s, id)))
  }

  // -------------------------------------------------------- player regions

  /** The status a player on his way out of his arena goes to: what has been done for
      his entry is undone from there on, and nothing else is. */
  function LeaveStatus(status: PlayerStatus): PlayerStatus {
    match status
    case DoFreqAndArenaSync => LoggedIn
    case ArenaRespAndCbs => DoArenaSync2
    case Playing => LeavingArena
    case _ => status
  }

  function AddPlayer(s: State): State {
    s.WithPlayer(s.nextPlayer, NEW_PLAYER).(nextPlayer := s.nextPlayer + 1)
  }

  /** fail_login_with, up to its call of AuthDone. */
  function RejectLogin(p: Player): Player {
    p.(status := WaitAuth, auths := p.auths + 1)
  }

  /** initiate_leave_arena, without its `notify` result; a player whose scores are being
      loaded is only marked. */
  function InitiateLeave(p: Player): Player {
    p.(status := LeaveStatus(p.status), leaveWhenDone := p.leaveWhenDone || p.status.WaitArenaSync1?)
  }

  function LeaveArena(p: Player): Player {
    if p.arena.None? then p else InitiateLeave(p)
  }

  function Kick(p: Player): Player {
    LeaveArena(p).(kicked := true)
  }

  /** RecycleArena, the part under both locks: everyone in the arena starts to leave
      and asks to come back. */
  function RecycleMark(s: State, id: ArenaId): State {
    s.(players := map p | p in s.players ::
         if p in s.playerList && s.players[p].arena == Some(id)
         then InitiateLeave(s.players[p]).(newarena := Some(id)) else s.players[p],
       recycling := Some(id))
  }

  function RecycleClose(s: State): State
    requires s.recycling.Some? && s.recycling.value in s.arenas
  {
    var id := s.recycling.value;
    s.WithArena(id, s.arenas[id].(status := Closing, resurrect := true)).(recycling := None)
  }

  /** do_find_arena over the whole range of statuses. */
  function FindArena(s: State, name: string, from: nat := 0): Option<ArenaId>
    requires from <= |s.arenaList|
    decreases |s.arenaList| - from
  {
    if from == |s.arenaList| then None
    else if s.arenaList[from] in s.arenas && s.arenas[s.arenaList[from]].name == name
    then Some(s.arenaList[from])
    else FindArena(s, name, from + 1)
  }

  /** The arena half of complete_go: find or create the arena, and make sure it comes
      back if it is on the way out. */
  function PrepareArena(s: State, name: string): (State, ArenaId) {
    var found := FindArena(s, name);
    if found.None? then (CreateArena(s, name, false), s.nextArena)
    else if found.value in s.arenas && s.arenas[found.value].status.PastRunning() then
      (s.WithArena(found.value, s.arenas[found.value].(resurrect := true)), found.value)
    else (s, found.value)
  }

  /** The last region of complete_go. */
  function GoTo(s: State, id: PlayerId, name: string): State
    requires id in s.players
  {
    var (s1, target) := PrepareArena(s, name);
    s1.WithPlayer(id, s.players[id].(newarena := Some(target)))
  }

  /** AuthDone, for the player himself. `other` is the player FindPlayer returned for
      the same name: while there is one, the new player keeps waiting. */
  function Authenticated(p: Player, ok: bool, other: Option<PlayerId>): Player
    requires p.auths > 0
  {
    p.(auths := p.auths - 1,
       status := if !p.status.WaitAuth? then p.status
                 else if !ok then Connected
                 else if other.None? then NeedGlobalSync else WaitAuth)
  }

  /** AuthDone. */
  function AuthDone(s: State, id: PlayerId, ok: bool, other: Option<PlayerId>): State
    requires id in s.players && s.players[id].auths > 0
    requires other.Some? ==> other.value in s.players && other.value != id
  {
    var s1 := s.WithPlayer(id, Authenticated(s.players[id], ok, other));
    if s.players[id].status.WaitAuth? && ok && other.Some? then
      s1.WithPlayer(other.value, Kick(s1.players[other.value].(replacedBy := Some(id))))
    else s1
  }

  /** player_sync_done, for the player himself: any other status is only logged. */
  function SyncedStatus(p: Player): PlayerStatus {
    match p.status
    case WaitArenaSync1 => if p.leaveWhenDone then DoArenaSync2 else ArenaRespAndCbs
    case WaitArenaSync2 => LoggedIn
    case WaitGlobalSync1 => DoGlobalCallbacks
    case WaitGlobalSync2 => TimeWait
    case _ => p.status
  }

  /** The namesake who takes over once the player's global sync out is done. */
  predicate Promotes(s: State, p: Player) {
    && p.status.WaitGlobalSync2? && p.replacedBy.Some? && p.replacedBy.value in s.players
    && s.players[p.replacedBy.value].status.WaitAuth?
  }

  /** player_sync_done. */
  function SyncDone(s: State, id: PlayerId): State
    requires id in s.players
  {
    var p := s.players[id];
    if Promotes(s, p) then
      var q := p.replacedBy.value;
      s.WithPlayer(id, p.(status := SyncedStatus(p), replacedBy := None))
       .WithPlayer(q, s.players[q].(status := NeedGlobalSync))
    else s.WithPlayer(id, p.(status := SyncedStatus(p)))
  }

  /** The request is answered: one completion less, and player_sync_done has run. */
  function SyncAnswered(s: State, id: PlayerId): State
    requires id in s.players && s.players[id].syncs > 0
  {
    SyncDone(s.WithPlayer(id, s.players[id].(syncs := s.players[id].syncs - 1)), id)
  }

  /** The status a state moves to by itself in phase one, if it does. */
  function Automatic(status: PlayerStatus): Option<PlayerStatus> {
    match status
    case NeedAuth => Some(WaitAuth)
    case NeedGlobalSync => Some(WaitGlobalSync1)
    case DoGlobalCallbacks => Some(SendLoginResponse)
    case SendLoginResponse => Some(LoggedIn)
    case DoFreqAndArenaSync => Some(WaitArenaSync1)
    case ArenaRespAndCbs => Some(Playing)
    case LeavingArena => Some(DoArenaSync2)
    case DoArenaSync2 => Some(WaitArenaSync2)
    case LeavingZone => Some(WaitGlobalSync2)
    case _ => None
  }

  /** Phase one for a player who is connected or logged in: `ready` is whether his
      next arena is running. He cannot have an arena yet; he gets the one he is waiting
      for, but a kick still wins over it. */
  function AwaitArena(p: Player, ready: bool): Player {
    p.(arena := if ready then p.newarena else None,
       newarena := if ready then None else p.newarena,
       status := if p.kicked then LeavingZone else if ready then DoFreqAndArenaSync else p.status,
       kicked := false)
  }

  predicate NextArenaRuns(s: State, p: Player) {
    p.newarena.Some? && p.newarena.value in s.arenas && s.arenas[p.newarena.value].status.Running?
  }

  /** Set the new status first and leave the work for phase two. */
  function Advance(p: Player): Player
    requires Automatic(p.status).Some?
  {
    p.(status := Automatic(p.status).value, pending := Some(p.status))
  }

  /** One iteration of the first loop of process_player_states. */
  function Scan(s: State): State
    requires s.scan != [] && s.scan[0] in s.players
  {
    var id := s.scan[0];
    var p := s.players[id];
    var s1 := s.(scan := s.scan[1..]);
    if p.status.Connected? || p.status.LoggedIn? then
      s1.WithPlayer(id, AwaitArena(p, NextArenaRuns(s, p)))
    else if Automatic(p.status).Some? then
      s1.WithPlayer(id, Advance(p)).(actions := s.actions + [id])
    else s1
  }

  /** Either ask persist, to be answered later, or go on at once. */
  function RequestSync(s: State, id: PlayerId, ask: bool): State
    requires id in s.players
  {
    if ask then s.WithPlayer(id, s.players[id].(syncs := s.players[id].syncs + 1))
    else SyncDone(s, id)
  }

  /** The callback that goes with leaving each status, if there is one. */
  function Fires(p: Player, was: PlayerStatus): Option<Event> {
    match was
    case DoGlobalCallbacks => Some(Connect)
    case DoFreqAndArenaSync => Some(PreEnter(p.arena))
    case ArenaRespAndCbs => Some(Enter(p.arena))
    case LeavingArena => Some(Leave(p.arena))
    case LeavingZone => if p.doneGlobalCallbacks then Some(Disconnect) else None
    case _ => None
  }

  function Logged(log: seq<Event>, fired: Option<Event>): seq<Event> {
    if fired.None? then log else log + [fired.value]
  }

  /** What phase two does to the player himself, a kick aside. `canAuth` is whether there
      is an authenticator and a login packet. */
  function Act(p: Player, canAuth: bool): Player
    requires p.pending.Some?
  {
    var was := p.pending.value;
    p.(pending := None,
       log := Logged(p.log, Fires(p, was)),
       auths := if was.NeedAuth? && canAuth then p.auths + 1 else p.auths,
       doneGlobalCallbacks := p.doneGlobalCallbacks || was.DoGlobalCallbacks?,
       doneGlobalSync := (p.doneGlobalSync || was.NeedGlobalSync?) && !was.LeavingZone?,
       doneArenaSync := (p.doneArenaSync || was.DoFreqAndArenaSync?) && !was.DoArenaSync2?)
  }

  /** The old statuses whose work ends with a sync, and whether persist is asked for it
      (otherwise player_sync_done is called at once). */
  predicate SyncFollows(was: PlayerStatus) {
    was.NeedGlobalSync? || was.DoFreqAndArenaSync? || was.DoArenaSync2? || was.LeavingZone?
  }

  predicate AsksPersist(persist: bool, p: Player)
    requires p.pending.Some?
  {
    && persist
    && (p.pending.value.DoArenaSync2? ==> p.doneArenaSync)
    && (p.pending.value.LeavingZone? ==> p.doneGlobalSync)
  }

  /** One iteration of the second loop of process_player_states. */
  function RunAction(s: State, canAuth: bool): State
    requires s.actions != [] && s.actions[0] in s.players && s.players[s.actions[0]].pending.Some?
  {
    var id := s.actions[0];
    var p := s.players[id];
    var p' := if p.pending.value.NeedAuth? && !canAuth then Kick(Act(p, canAuth)) else Act(p, canAuth);
    var s1 := s.(actions := s.actions[1..]).WithPlayer(id, p');
    if SyncFollows(p.pending.value) then RequestSync(s1, id, AsksPersist(s.persist, p)) else s1
  }

  // ----------------------------------------------------------------- steps

  /** Steps that take the arena lock, and the workers' look at an arena's status. */
  datatype ArenaStep =
    | CreatePermanent(name: string)
    | ArenaTimer(arena: ArenaId, detached: bool, rename: string)
    | QueueWork
    | HoldForWork
    | EndCallbacks
    | WorkReads(arena: ArenaId, worker: WorkerId)
    | WorkUnholds(arena: ArenaId, worker: WorkerId)
    | ArenaSyncCompletes(arena: ArenaId)
    | ReapTimer
    | RecycleMarks(arena: ArenaId)
    | RecycleCloses

  /** Steps of one player: packets, kicks, and his coming and going. */
  datatype PlayerStep =
    | Leaves(player: PlayerId)
    | Goes(player: PlayerId, name: string)
    | Kicks(player: PlayerId)
    | Connects
    | BecomesReady(player: PlayerId)
    | Listed(player: PlayerId)
    | Logins(player: PlayerId)
    | LoginRejected(player: PlayerId)
    | Freed(player: PlayerId)

  /** The two phases of a player pass, and the completions players wait for. */
  datatype PassStep =
    | PassBegins
    | PassScans
    | PassActs(canAuth: bool)
    | SyncCompletes(player: PlayerId)
    | AuthCompletes(player: PlayerId, ok: bool, other: Option<PlayerId>)

  datatype Step = OfArena(arenaStep: ArenaStep) | OfPlayer(playerStep: PlayerStep) | OfPass(passStep: PassStep)

  /** FindPlayer only returns listed players who are not on their way out. */
  predicate Findable(s: State, p: PlayerId) {
    p in s.playerList && p in s.players && s.players[p].status.BeforeLeavingZone() && !s.players[p].kicked
  }

  /** When a step can happen: the lock it takes is free, the request it completes is
      outstanding, and the check its handler makes first has passed. */
  predicate ArenaEnabled(s: State, step: ArenaStep) {
    match step
    case CreatePermanent(_) => s.ArenaLockFree()
    case ArenaTimer(a, _, _) => s.ArenaLockFree() && a in s.arenas
    case QueueWork => s.round.Some? && s.round.value.arena in s.arenas && s.round.value.unheld == 0
    case HoldForWork => s.round.Some? && s.round.value.arena in s.arenas && s.round.value.unheld > 0
    case EndCallbacks => s.round.Some? && s.round.value.unheld == 0
    case WorkReads(a, w) => a in s.arenas && w in s.arenas[a].workers
    case WorkUnholds(a, w) =>
      s.ArenaLockFree() && a in s.arenas && w in s.arenas[a].workers && s.arenas[a].workers[w].sawBefore.Some?
    case ArenaSyncCompletes(a) => s.ArenaLockFree() && a in s.arenas && s.arenas[a].syncs > 0
    case ReapTimer => s.ArenaLockFree() && s.PlayerLockFree()
    case RecycleMarks(a) =>
      s.ArenaLockFree() && s.PlayerLockFree() && a in s.arenas && s.arenas[a].status.Running?
    case RecycleCloses => s.recycling.Some? && s.recycling.value in s.arenas
  }

  predicate PlayerEnabled(s: State, step: PlayerStep) {
    s.PlayerLockFree() &&
    match step
    case Leaves(p) => p in s.players
    case Goes(p, _) =>
      && s.ArenaLockFree() && p in s.players
      && (s.players[p].status.LoggedIn? || s.players[p].status.Playing? || s.players[p].status.LeavingArena?)
    case Kicks(p) => p in s.players
    case Connects => true
    case BecomesReady(p) => p in s.players && s.players[p].status.Uninitialized?
    case Listed(p) => p in s.players && p !in s.playerList
    case Logins(p) => p in s.playerList && p in s.players && s.players[p].status.Connected?
    case LoginRejected(p) => p in s.playerList && p in s.players && s.players[p].status.Connected?
    case Freed(p) => p in s.playerList && p in s.players && s.players[p].status.TimeWait?
  }

  predicate PassEnabled(s: State, step: PassStep) {
    match step
    case PassBegins => s.scan == [] && s.actions == []
    case PassScans => s.scan != [] && s.scan[0] in s.players
    case PassActs(_) =>
      s.scan == [] && s.actions != [] && s.actions[0] in s.players && s.players[s.actions[0]].pending.Some?
    case SyncCompletes(p) => s.PlayerLockFree() && p in s.players && s.players[p].syncs > 0
    case AuthCompletes(p, _, other) =>
      && s.PlayerLockFree() && p in s.players && s.players[p].auths > 0
      && (other.Some? ==> Findable(s, other.value) && other.value != p)
  }

  function ArenaApply(s: State, step: ArenaStep): State
    requires ArenaEnabled(s, step)
  {
    match step
    case CreatePermanent(name) => CreateArena(s, name, true)
    case ArenaTimer(a, detached, rename) => ProcessArena(s, a, detached, rename)
    case QueueWork => LaunchWorker(s)
    case HoldForWork => HoldRound(s)
    case EndCallbacks => s.(round := None)
    case WorkReads(a, w) => WorkerReads(s, a, w)
    case WorkUnholds(a, w) => WorkerUnholds(s, a, w)
    case ArenaSyncCompletes(a) => s.WithArena(a, ArenaSynced(s.arenas[a]).(syncs := s.arenas[a].syncs - 1))
    case ReapTimer => Reap(s)
    case RecycleMarks(a) => RecycleMark(s, a)
    case RecycleCloses => RecycleClose(s)
  }

  function PlayerApply(s: State, step: PlayerStep): State
    requires PlayerEnabled(s, step)
  {
    match step
    case Leaves(p) => s.WithPlayer(p, LeaveArena(s.players[p]))
    case Goes(p, name) => GoTo(s, p, name)
    case Kicks(p) => s.WithPlayer(p, Kick(s.players[p]))
    case Connects => AddPlayer(s)
    case BecomesReady(p) => s.WithPlayer(p, s.players[p].(status := Connected))
    case Listed(p) => s.(playerList := s.playerList + [p])
    case Logins(p) => s.WithPlayer(p, s.players[p].(status := NeedAuth))
    case LoginRejected(p) => s.WithPlayer(p, RejectLogin(s.players[p]))
    case Freed(p) => s.(players := s.players - {p}, playerList := Without(s.playerList, p))
  }

  function PassApply(s: State, step: PassStep): State
    requires PassEnabled(s, step)
  {
    match step
    case PassBegins => s.(scan := s.playerList)
    case PassScans => Scan(s)
    case PassActs(canAuth) => RunAction(s, canAuth)
    case SyncCompletes(p) => SyncAnswered(s, p)
    case AuthCompletes(p, ok, other) => AuthDone(s, p, ok, other)
  }

  predicate Enabled(s: State, step: Step) {
    match step
    case OfArena(a) => ArenaEnabled(s, a)
    case OfPlayer(p) => PlayerEnabled(s, p)
    case OfPass(p) => PassEnabled(s, p)
  }

  function Apply(s: State, step: Step): State
    requires Enabled(s, step)
  {
    match step
    case OfArena(a) => ArenaApply(s, a)
    case OfPlayer(p) => PlayerApply(s, p)
    case OfPass(p) => PassApply(s, p)
  }

  /** s' is reached from s by exactly these steps, each enabled when it is taken. */
  ghost predicate Runs(s: State, steps: seq<Step>, s': State)
    decreases |steps|
  {
    if steps == [] then s == s'
    else Enabled(s, steps[0]) && Runs(Apply(s, steps[0]), steps[1..], s')
  }

  ghost predicate Reachable(s: State) {
    exists s0, steps :: Initial(s0) && Runs(s0, steps, s)
  }
}
