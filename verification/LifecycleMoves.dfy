/** What each step does to the players it concerns, said of the states before and after
    it, and that nobody ever moves along a way player.h does not document. */
module LifecycleMoves {
  import opened Options
  import opened Lifecycle
  import opened LifecycleInvariant
  import opened LifecyclePass
  import opened LifecycleTheorems

  // ------------------------------------------------------- the documented moves

  /** The "transitions to" comments beside the status codes, those in parentheses
      included. */
  predicate Documented(from: PlayerStatus, to: PlayerStatus) {
    match from
    case Uninitialized => to.Connected?
    case Connected => to.NeedAuth? || to.LeavingZone?
    case NeedAuth => to.WaitAuth?
    case WaitAuth => to.Connected? || to.NeedGlobalSync?
    case NeedGlobalSync => to.WaitGlobalSync1?
    case WaitGlobalSync1 => to.DoGlobalCallbacks?
    case DoGlobalCallbacks => to.SendLoginResponse?
    case SendLoginResponse => to.LoggedIn?
    case LoggedIn => to.DoFreqAndArenaSync? || to.LeavingZone?
    case DoFreqAndArenaSync => to.WaitArenaSync1? || to.LoggedIn?
    case WaitArenaSync1 => to.ArenaRespAndCbs? || to.DoArenaSync2?
    case ArenaRespAndCbs => to.Playing? || to.DoArenaSync2?
    case Playing => to.LeavingArena?
    case LeavingArena => to.DoArenaSync2?
    case DoArenaSync2 => to.WaitArenaSync2?
    case WaitArenaSync2 => to.LoggedIn?
    case LeavingZone => to.WaitGlobalSync2?
    case WaitGlobalSync2 => to.TimeWait?
    case TimeWait => false
  }

  predicate Moves(from: PlayerStatus, to: PlayerStatus) { from == to || Documented(from, to) }

  lemma KickMoves(p: Player)
    ensures Moves(p.status, Kick(p).status) && Moves(p.status, LeaveArena(p).status)
    ensures Moves(p.status, InitiateLeave(p).status) && Moves(p.status, SyncedStatus(p))
  {
  }

  lemma AuthDoneMoves(s: State, id: PlayerId, ok: bool, other: Option<PlayerId>, p: PlayerId)
    requires PassEnabled(s, AuthCompletes(id, ok, other)) && p in s.players
    ensures p in AuthDone(s, id, ok, other).players
    ensures Moves(s.players[p].status, AuthDone(s, id, ok, other).players[p].status)
  {
    if other.Some? { KickMoves(s.players[other.value].(replacedBy := Some(id))); }
  }

  lemma SyncDoneMoves(s: State, id: PlayerId, p: PlayerId)
    requires id in s.players && p in s.players
    ensures p in SyncDone(s, id).players && Moves(s.players[p].status, SyncDone(s, id).players[p].status)
  {
    KickMoves(s.players[id]);
  }

  lemma ActMoves(p: Player, canAuth: bool)
    requires p.pending.Some?
    ensures Act(p, canAuth).status == p.status && Moves(p.status, Kick(Act(p, canAuth)).status)
  {
    KickMoves(Act(p, canAuth));
  }

  lemma RunActionMoves(s: State, canAuth: bool, p: PlayerId)
    requires PassEnabled(s, PassActs(canAuth)) && p in s.players
    ensures p in RunAction(s, canAuth).players && Moves(s.players[p].status, RunAction(s, canAuth).players[p].status)
  {
    var id := s.actions[0];
    var was := s.players[id];
    ActMoves(was, canAuth);
    if SyncFollows(was.pending.value) {
      SyncDoneMoves(s.(actions := s.actions[1..]).WithPlayer(id, Act(was, canAuth)), id, p);
    }
  }

  lemma AwaitMoves(p: Player, ready: bool)
    requires p.status.LoggedIn? || (p.status.Connected? && !ready)
    ensures Moves(p.status, AwaitArena(p, ready).status)
  {
  }

  lemma AdvanceMoves(p: Player)
    requires Automatic(p.status).Some?
    ensures Moves(p.status, Advance(p).status)
  {
  }

  lemma ScanMoves(s: State, p: PlayerId)
    requires PassEnabled(s, PassScans) && p in s.players
    requires s.players[s.scan[0]].status.Connected? ==> s.players[s.scan[0]].newarena.None?
    ensures p in Scan(s).players && Moves(s.players[p].status, Scan(s).players[p].status)
  {
    var q := s.players[s.scan[0]];
    if q.status.Connected? || q.status.LoggedIn? {
      AwaitMoves(q, NextArenaRuns(s, q));
    } else if Automatic(q.status).Some? {
      AdvanceMoves(q);
    }
  }

  lemma PassStepMoves(s: State, step: PassStep, p: PlayerId)
    requires Inv(s) && PassEnabled(s, step) && p in s.players
    ensures p in PassApply(s, step).players && Moves(s.players[p].status, PassApply(s, step).players[p].status)
  {
    match step
    case PassBegins =>
    case PassScans =>
      assert PlayerOk(s.players[s.scan[0]], s.scan[0] in s.playerList);
      ScanMoves(s, p);
    case PassActs(canAuth) => RunActionMoves(s, canAuth, p);
    case SyncCompletes(q) => SyncDoneMoves(s.WithPlayer(q, s.players[q].(syncs := s.players[q].syncs - 1)), q, p);
    case AuthCompletes(q, ok, other) => AuthDoneMoves(s, q, ok, other, p);
  }

  lemma PlayerStepMoves(s: State, step: PlayerStep, p: PlayerId)
    requires PlayerEnabled(s, step) && p in s.players && (step.Connects? ==> s.nextPlayer !in s.players)
    ensures p in PlayerApply(s, step).players || step == Freed(p)
    ensures p in PlayerApply(s, step).players && step != LoginRejected(p) ==>
              Moves(s.players[p].status, PlayerApply(s, step).players[p].status)
  {
    KickMoves(s.players[p]);
  }

  lemma ArenaStepMoves(s: State, step: ArenaStep, p: PlayerId)
    requires ArenaEnabled(s, step) && p in s.players
    ensures p in ArenaApply(s, step).players && Moves(s.players[p].status, ArenaApply(s, step).players[p].status)
  {
    KickMoves(s.players[p]);
  }

  /** In every reachable state every step moves every player along a documented way or
      leaves him where he is, with one exception that player.h does not mention: a login
      that is refused at once goes to WAIT_AUTH straight away. He only disappears from
      TIMEWAIT. */
  lemma MovesAreDocumented(s: State, step: Step, p: PlayerId)
    requires Reachable(s) && Enabled(s, step) && p in s.players
    ensures p !in Apply(s, step).players ==> step == OfPlayer(Freed(p)) && s.players[p].status.TimeWait?
    ensures p in Apply(s, step).players ==>
              var from, to := s.players[p].status, Apply(s, step).players[p].status;
              || from == to || Documented(from, to)
              || (step == OfPlayer(LoginRejected(p)) && from.Connected? && to.WaitAuth?)
  {
    ReachableOk(s);
    match step
    case OfArena(a) => ArenaStepMoves(s, a, p);
    case OfPlayer(q) => PlayerStepMoves(s, q, p);
    case OfPass(q) => PassStepMoves(s, q, p);
  }

  // ------------------------------------------------------------------- logins

  lemma LoginFinds(s: State, p: PlayerId)
    requires Reachable(s) && p in s.players && s.players[p].auths > 0
    ensures s.players[p].status.WaitAuth? && s.players[p].auths == 1
  {
    ReachableOk(s);
    AuthFindsWaiting(s, p);
  }

  /** A refused login leaves the player CONNECTED, and nobody and nothing else changes. */
  lemma LoginRefused(s: State, p: PlayerId, other: Option<PlayerId>)
    requires Reachable(s) && Enabled(s, OfPass(AuthCompletes(p, false, other)))
    ensures s.players[p].status.WaitAuth?
    ensures Apply(s, OfPass(AuthCompletes(p, false, other)))
            == s.(players := s.players[p := s.players[p].(status := Connected, auths := 0)])
  {
    LoginFinds(s, p);
  }

  /** An accepted one goes on to the global sync if nobody of that name is there. */
  lemma LoginAccepted(s: State, p: PlayerId)
    requires Reachable(s) && Enabled(s, OfPass(AuthCompletes(p, true, None)))
    ensures s.players[p].status.WaitAuth?
    ensures Apply(s, OfPass(AuthCompletes(p, true, None)))
            == s.(players := s.players[p := s.players[p].(status := NeedGlobalSync, auths := 0)])
  {
    LoginFinds(s, p);
  }

  /** Otherwise he keeps waiting, and the other one is told who replaces him and is kicked
      as by anybody else. */
  lemma LoginTakesOver(s: State, p: PlayerId, q: PlayerId)
    requires Reachable(s) && Enabled(s, OfPass(AuthCompletes(p, true, Some(q))))
    ensures Enabled(s, OfPlayer(Kicks(q))) && s.players[p].status.WaitAuth?
    ensures var kicked := Apply(s, OfPlayer(Kicks(q))).players[q];
            Apply(s, OfPass(AuthCompletes(p, true, Some(q))))
            == s.(players := s.players[p := s.players[p].(auths := 0)][q := kicked.(replacedBy := Some(p))])
  {
    LoginFinds(s, p);
    KickReplaced(s.players[q], p);
  }

  // ---------------------------------------------------------- leaves and kicks

  /** The ways out of an arena that a leave takes: back, on to the sync, or out of play. */
  predicate Undoes(from: PlayerStatus, to: PlayerStatus) {
    match from
    case DoFreqAndArenaSync => to.LoggedIn?
    case ArenaRespAndCbs => to.DoArenaSync2?
    case Playing => to.LeavingArena?
    case _ => to == from
  }

  /** All a leave does to the player. */
  predicate Left(p: Player, p': Player) {
    && Undoes(p.status, p'.status) && (p'.leaveWhenDone <==> p.leaveWhenDone || p.status.WaitArenaSync1?)
    && p' == p.(status := p'.status, leaveWhenDone := p'.leaveWhenDone)
  }

  lemma LeftIs(p: Player)
    requires p.status.NeedsArena() ==> p.arena.Some?
    ensures Left(p, LeaveArena(p)) && Kick(p) == LeaveArena(p).(kicked := true)
    ensures Left(p, InitiateLeave(p))
  {
  }

  /** In every reachable state a leave undoes what was done for the entry, marks somebody
      whose scores are being loaded, and touches nothing else. */
  lemma LeaveDoes(s: State, p: PlayerId)
    requires Reachable(s) && Enabled(s, OfPlayer(Leaves(p)))
    ensures var s' := Apply(s, OfPlayer(Leaves(p)));
            p in s'.players && Left(s.players[p], s'.players[p]) && s' == s.(players := s.players[p := s'.players[p]])
  {
    ReachableOk(s);
    assert PlayerOk(s.players[p], p in s.playerList);
    LeftIs(s.players[p]);
  }

  /** And a kick is a leave with a mark. */
  lemma KickDoes(s: State, p: PlayerId)
    requires Reachable(s) && Enabled(s, OfPlayer(Kicks(p)))
    ensures var left := Apply(s, OfPlayer(Leaves(p)));
            p in left.players && Apply(s, OfPlayer(Kicks(p))) == s.(players := s.players[p := left.players[p].(kicked := true)])
  {
  }

  // --------------------------------------------------------------- the passes

  /** What ends a wait for persist does to the one who waits: on along the documented
      way, and out again if he left in the meantime. */
  predicate SyncEnded(p: Player, p': Player) {
    && Documented(p.status, p'.status)
    && (p.status.WaitArenaSync1? ==> (p'.status.DoArenaSync2? <==> p.leaveWhenDone))
    && p' == p.(status := p'.status, replacedBy := if p.status.WaitGlobalSync2? then None else p.replacedBy)
  }

  /** The whole state afterwards: a namesake who takes over starts his own sync. */
  predicate SyncEndedIn(s: State, s': State, id: PlayerId) {
    && id in s.players && id in s'.players && SyncEnded(s.players[id], s'.players[id])
    && var p := s.players[id];
       if p.status.WaitGlobalSync2? && p.replacedBy.Some? then
         && p.replacedBy.value in s.players && s.players[p.replacedBy.value].status.WaitAuth?
         && s' == s.(players := s.players[id := s'.players[id]]
                                         [p.replacedBy.value := s.players[p.replacedBy.value].(status := NeedGlobalSync)])
       else s' == s.(players := s.players[id := s'.players[id]])
  }

  /** Where a namesake can take over, if there is one. */
  predicate NamesakeWaits(s: State, p: Player) {
    p.replacedBy.Some? ==> p.replacedBy.value in s.players && s.players[p.replacedBy.value].status.WaitAuth?
  }

  lemma SyncDoneEnds(s: State, id: PlayerId)
    requires id in s.players && s.players[id].status.WaitsForSync()
    requires NamesakeWaits(s, s.players[id])
    ensures SyncEndedIn(s, SyncDone(s, id), id)
  {
  }

  lemma CompletionFinds(s: State, p: PlayerId)
    requires Reachable(s) && p in s.players && s.players[p].syncs > 0
    ensures s.players[p].status.WaitsForSync() && s.players[p].syncs == 1 && NamesakeWaits(s, s.players[p])
  {
    ReachableOk(s);
    SyncFindsWaiting(s, p);
    assert ReplacementOf(s, s.players[p]);
  }

  /** A completion ends the wait of exactly the player it is for. */
  lemma SyncCompletesDoes(s: State, p: PlayerId)
    requires Reachable(s) && Enabled(s, OfPass(SyncCompletes(p)))
    ensures s.players[p].status.WaitsForSync()
    ensures SyncEndedIn(s.(players := s.players[p := s.players[p].(syncs := 0)]), Apply(s, OfPass(SyncCompletes(p))), p)
  {
    CompletionFinds(s, p);
    AnswerEnds(s, p, s.(players := s.players[p := s.players[p].(syncs := 0)]));
  }

  lemma AnswerEnds(s: State, p: PlayerId, s0: State)
    requires p in s.players && s.players[p].syncs == 1 && s.players[p].status.WaitsForSync()
    requires NamesakeWaits(s, s.players[p]) && s0 == s.(players := s.players[p := s.players[p].(syncs := 0)])
    ensures SyncEndedIn(s0, SyncAnswered(s, p), p)
  {
    assert SyncAnswered(s, p) == SyncDone(s0, p);
    SyncDoneEnds(s0, p);
  }

  /** The arena he waits for is open. */
  predicate ArenaIsOpen(s: State, p: Player) {
    exists a :: a in s.arenas && p.newarena == Some(a) && s.arenas[a].status.Running?
  }

  /** What the first loop of a pass does to one player: somebody who waits for persist, the
      authenticator or nothing stays, the other statuses lead on and are noted as pending,
      and somebody connected or logged in leaves if he was kicked and enters if he can. */
  predicate Scanned(p: Player, p': Player, open: bool) {
    match p.status
    case Connected => p' == p.(status := if p.kicked then LeavingZone else Connected, kicked := false)
    case LoggedIn =>
      p' == p.(status := if p.kicked then LeavingZone else if open then DoFreqAndArenaSync else LoggedIn,
               arena := if open then p.newarena else None, newarena := if open then None else p.newarena, kicked := false)
    case Uninitialized => p' == p
    case WaitAuth => p' == p
    case WaitGlobalSync1 => p' == p
    case WaitArenaSync1 => p' == p
    case Playing => p' == p
    case WaitArenaSync2 => p' == p
    case WaitGlobalSync2 => p' == p
    case TimeWait => p' == p
    case _ =>
      && Documented(p.status, p'.status) && p' == p.(status := p'.status, pending := Some(p.status))
      && (p.status.DoFreqAndArenaSync? ==> p'.status.WaitArenaSync1?) && (p.status.ArenaRespAndCbs? ==> p'.status.Playing?)
  }

  lemma AwaitIs(p: Player, ready: bool)
    requires p.status.LoggedIn? || (p.status.Connected? && !ready && p.arena.None?)
    ensures Scanned(p, AwaitArena(p, ready), ready)
  {
  }

  lemma AdvanceIs(p: Player)
    requires Automatic(p.status).Some?
    ensures Scanned(p, Advance(p), false) && Scanned(p, Advance(p), true) && Advance(p).pending.Some?
  {
  }

  lemma ScanFinds(s: State, id: PlayerId)
    requires Reachable(s) && s.scan != [] && id == s.scan[0] && id in s.players
    ensures s.players[id].pending.None?
    ensures s.players[id].status.Connected? ==> s.players[id].arena.None? && s.players[id].newarena.None?
  {
    ReachableOk(s);
    assert id in s.scan && PlayerOk(s.players[id], id in s.playerList);
  }

  /** One player in the first loop, in every reachable state; nobody and nothing else
      changes, and he joins the pending actions if his old status was noted. */
  lemma ScanDoes(s: State)
    requires Reachable(s) && Enabled(s, OfPass(PassScans))
    ensures var id, s' := s.scan[0], Apply(s, OfPass(PassScans));
            && id in s'.players && Scanned(s.players[id], s'.players[id], ArenaIsOpen(s, s.players[id]))
            && s' == s.(scan := s.scan[1..], players := s.players[id := s'.players[id]],
                        actions := if s'.players[id].pending.Some? then s.actions + [id] else s.actions)
  {
    var id := s.scan[0];
    ScanFinds(s, id);
    ScannedIs(s, id, s.players[id]);
  }

  lemma ScanIs(s: State, id: PlayerId, p: Player)
    requires s.scan != [] && id == s.scan[0] && id in s.players && p == s.players[id]
    ensures var p' := if p.status.Connected? || p.status.LoggedIn? then AwaitArena(p, NextArenaRuns(s, p))
                      else if Automatic(p.status).Some? then Advance(p) else p;
            Scan(s) == s.(scan := s.scan[1..], players := s.players[id := p'],
                          actions := if Automatic(p.status).Some? then s.actions + [id] else s.actions)
  {
    assert s.players[id := p] == s.players;
  }

  lemma ScannedIs(s: State, id: PlayerId, p: Player)
    requires s.scan != [] && id == s.scan[0] && id in s.players && p == s.players[id]
    requires p.pending.None? && (p.status.Connected? ==> p.arena.None? && p.newarena.None?)
    ensures id in Scan(s).players && Scanned(p, Scan(s).players[id], ArenaIsOpen(s, p))
    ensures Scan(s) == s.(scan := s.scan[1..], players := s.players[id := Scan(s).players[id]],
                          actions := if Scan(s).players[id].pending.Some? then s.actions + [id] else s.actions)
  {
    ScanIs(s, id, p);
    assert NextArenaRuns(s, p) <==> ArenaIsOpen(s, p);
    if p.status.Connected? || p.status.LoggedIn? {
      AwaitIs(p, NextArenaRuns(s, p));
    } else if Automatic(p.status).Some? {
      AdvanceIs(p);
    }
  }

  // -------------------------------------------------------- coming and going

  /** A newcomer has a number nobody has, and nothing has been done for him. */
  lemma ConnectsDoes(s: State)
    requires Reachable(s) && Enabled(s, OfPlayer(Connects))
    ensures s.nextPlayer !in s.players
    ensures var s' := Apply(s, OfPlayer(Connects));
            && s.nextPlayer in s'.players
            && s' == s.(players := s.players[s.nextPlayer := s'.players[s.nextPlayer]], nextPlayer := s.nextPlayer + 1)
            && s'.players[s.nextPlayer]
               == Player(Uninitialized, None, None, false, false, false, false, false, None, None, 0, 0, [])
  {
    ReachableOk(s);
  }

  /** Once the keys are exchanged he is CONNECTED. */
  lemma ReadyDoes(s: State, p: PlayerId)
    requires Enabled(s, OfPlayer(BecomesReady(p)))
    ensures s.players[p].status.Uninitialized?
    ensures Apply(s, OfPlayer(BecomesReady(p))) == s.(players := s.players[p := s.players[p].(status := Connected)])
  {
  }

  /** And a newcomer is put at the end of the list. */
  lemma ListedDoes(s: State, p: PlayerId)
    requires Enabled(s, OfPlayer(Listed(p)))
    ensures p !in s.playerList && Apply(s, OfPlayer(Listed(p))) == s.(playerList := s.playerList + [p])
  {
  }

  /** A login is noted, for the next pass to hand on. */
  lemma LoginsDoes(s: State, p: PlayerId)
    requires Enabled(s, OfPlayer(Logins(p)))
    ensures s.players[p].status.Connected?
    ensures Apply(s, OfPlayer(Logins(p))) == s.(players := s.players[p := s.players[p].(status := NeedAuth)])
  {
  }

  lemma ConnectedHasNoAuth(s: State, p: PlayerId)
    requires Reachable(s) && p in s.players && s.players[p].status.Connected?
    ensures s.players[p].auths == 0
  {
    ReachableOk(s);
    assert PlayerOk(s.players[p], p in s.playerList);
  }

  /** A login that is refused at once only waits for the refusal. */
  lemma RejectionDoes(s: State, p: PlayerId)
    requires Reachable(s) && Enabled(s, OfPlayer(LoginRejected(p)))
    ensures s.players[p].status.Connected?
    ensures Apply(s, OfPlayer(LoginRejected(p))) == s.(players := s.players[p := s.players[p].(status := WaitAuth, auths := 1)])
  {
    ConnectedHasNoAuth(s, p);
  }

  /** Cuts xs at the first x. */
  lemma {:induction false} WithoutCuts(xs: seq<nat>, x: nat) returns (i: nat)
    requires x in xs
    ensures i < |xs| && xs[i] == x && Without(xs, x) == xs[..i] + xs[i + 1..]
  {
    if xs[0] == x {
      i := 0;
    } else {
      assert xs == [xs[0]] + xs[1..];
      var j := WithoutCuts(xs[1..], x);
      i := j + 1;
      assert xs[..i] + xs[i + 1..] == [xs[0]] + (xs[1..][..j] + xs[1..][j + 1..]);
    }
  }

  /** A player who is freed had come to TIMEWAIT; he is gone from the list, where the
      others stay in order, and nobody else changes. */
  lemma FreedDoes(s: State, p: PlayerId) returns (i: nat)
    requires Enabled(s, OfPlayer(Freed(p)))
    ensures s.players[p].status.TimeWait? && i < |s.playerList| && s.playerList[i] == p
    ensures Apply(s, OfPlayer(Freed(p))) == s.(players := s.players - {p}, playerList := s.playerList[..i] + s.playerList[i + 1..])
  {
    i := WithoutCuts(s.playerList, p);
  }
}
