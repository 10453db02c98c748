/** The player pass, the completions it waits for, and the steps that touch an arena
    and its players together. */
module LifecyclePass {
  import opened Options
  import opened Lifecycle
  import opened LifecycleInvariant
  import opened LifecycleSafety
  import opened LifecyclePlayers

  // ----------------------------------------------------------- completions

  /** A completion always finds its player in the state that waits for it. */
  lemma SyncFindsWaiting(s: State, id: PlayerId)
    requires Inv(s) && id in s.players && s.players[id].syncs > 0
    ensures s.players[id].status.WaitsForSync() && s.players[id].pending.None?
    ensures s.players[id].syncs == 1
  {
  }

  /** The player after his completion has run. */
  function Synced(p: Player): Player
    requires p.syncs > 0
  {
    p.(status := SyncedStatus(p), syncs := p.syncs - 1,
       replacedBy := if p.status.WaitGlobalSync2? then None else p.replacedBy)
  }

  lemma SyncedOk(p: Player, listed: bool)
    requires PlayerOk(p, listed) && p.syncs > 0
    ensures PlayerOk(Synced(p), listed)
  {
    match p.status
    case WaitArenaSync1 =>
    case WaitArenaSync2 =>
    case WaitGlobalSync1 =>
    case WaitGlobalSync2 =>
    case _ =>
  }

  lemma SyncCompletesKeeps(s: State, id: PlayerId)
    requires Inv(s) && id in s.players && s.players[id].syncs > 0
    ensures Inv(SyncAnswered(s, id))
  {
    SyncFindsWaiting(s, id);
    var p := s.players[id];
    var p' := Synced(p);
    SyncedOk(p, id in s.playerList);
    PlayerChanged(s, id, p');
    if p.status.WaitGlobalSync2? && p.replacedBy.Some? {
      ReplacementGoesOn(s, id, p');
    } else {
      SyncOnlyHimself(s, id);
    }
  }

  lemma SyncOnlyHimself(s: State, id: PlayerId)
    requires id in s.players && s.players[id].syncs > 0 && s.players[id].status.WaitsForSync()
    requires s.players[id].replacedBy.None? || !s.players[id].status.WaitGlobalSync2?
    ensures SyncAnswered(s, id)
            == s.WithPlayer(id, Synced(s.players[id]))
  {
    assert SyncAnswered(s, id).players == s.WithPlayer(id, Synced(s.players[id])).players;
  }

  /** When the old player is gone, his namesake is still there, still waiting, and
      goes on to the global sync. */
  lemma ReplacementGoesOn(s: State, id: PlayerId, p': Player)
    requires Inv(s) && id in s.players && s.players[id].syncs > 0
    requires s.players[id].status.WaitGlobalSync2? && s.players[id].replacedBy.Some?
    requires p' == Synced(s.players[id])
    requires Inv(s.WithPlayer(id, p'))
    ensures var q := s.players[id].replacedBy.value;
            q in s.players && s.players[q].status.WaitAuth?
            && SyncAnswered(s, id) == s.WithPlayer(id, p').WithPlayer(q, s.players[q].(status := NeedGlobalSync))
    ensures Inv(SyncAnswered(s, id))
  {
    assert ReplacementOf(s, s.players[id]);
    var q := s.players[id].replacedBy.value;
    SyncAndReplacement(s, id, p', q);
    var s1 := s.WithPlayer(id, p');
    assert forall r :: Replaces(s1, q, r) ==> Replaces(s, q, r) && Replaces(s, q, id);
    NamesakeOk(s1, q);
    PlayerChanged(s1, q, s.players[q].(status := NeedGlobalSync));
  }

  lemma SyncAndReplacement(s: State, id: PlayerId, p': Player, q: PlayerId)
    requires id in s.players && s.players[id].syncs > 0
    requires s.players[id].status.WaitGlobalSync2? && s.players[id].replacedBy == Some(q)
    requires p' == Synced(s.players[id])
    requires q in s.players && s.players[q].status.WaitAuth?
    ensures SyncAnswered(s, id) == s.WithPlayer(id, p').WithPlayer(q, s.players[q].(status := NeedGlobalSync))
  {
    assert SyncAnswered(s, id).players == s.WithPlayer(id, p').WithPlayer(q, s.players[q].(status := NeedGlobalSync)).players;
  }

  lemma NamesakeOk(s: State, q: PlayerId)
    requires Inv(s) && q in s.players && q in s.playerList && Waiting(s.players[q])
    ensures var q' := s.players[q].(status := NeedGlobalSync);
            PlayerOk(q', true) && RefsOf(s.arenas, q')
  {
  }

  /** An authentication always finds its player waiting for it. */
  lemma AuthFindsWaiting(s: State, id: PlayerId)
    requires Inv(s) && id in s.players && s.players[id].auths > 0
    ensures s.players[id].status.WaitAuth? && s.players[id].auths == 1 && s.players[id].pending.None?
    ensures id in s.playerList
    ensures forall q :: !Replaces(s, id, q)
  {
  }

  lemma AuthAnswered(s: State, id: PlayerId, ok: bool, other: Option<PlayerId>)
    requires Inv(s) && id in s.players && s.players[id].auths > 0
    ensures Inv(s.WithPlayer(id, Authenticated(s.players[id], ok, other)))
    ensures forall q :: !Replaces(s.WithPlayer(id, Authenticated(s.players[id], ok, other)), id, q)
  {
    AuthFindsWaiting(s, id);
    var p := Authenticated(s.players[id], ok, other);
    PlayerChanged(s, id, p);
    assert forall q :: Replaces(s.WithPlayer(id, p), id, q) ==> Replaces(s, id, q);
  }

  lemma AuthCompletesKeeps(s: State, id: PlayerId, ok: bool, other: Option<PlayerId>)
    requires Inv(s) && id in s.players && s.players[id].auths > 0
    requires other.Some? ==> Findable(s, other.value) && other.value != id
    ensures Inv(AuthDone(s, id, ok, other))
  {
    AuthFindsWaiting(s, id);
    AuthAnswered(s, id, ok, other);
    if ok && other.Some? {
      ReplacementBegins(s.WithPlayer(id, Authenticated(s.players[id], ok, other)), id, other.value);
    }
  }

  lemma ReplacementBegins(s: State, id: PlayerId, o: PlayerId)
    requires Inv(s) && id in s.players && id in s.playerList && Waiting(s.players[id])
    requires Findable(s, o) && o != id
    requires forall q :: !Replaces(s, id, q)
    ensures Inv(s.WithPlayer(o, Kick(s.players[o].(replacedBy := Some(id)))))
  {
    var o' := Kick(s.players[o].(replacedBy := Some(id)));
    KickOk(s.players[o], true);
    KickReplaced(s.players[o], id);
    BegunReplacements(s, id, o, o');
    PlayerReplaced(s, o, o');
  }

  lemma KickReplaced(p: Player, id: PlayerId)
    ensures Kick(p.(replacedBy := Some(id))) == Kick(p).(replacedBy := Some(id))
  {
  }

  lemma BegunReplacements(s: State, id: PlayerId, o: PlayerId, o': Player)
    requires ReplacementsOk(s) && id in s.players && id in s.playerList && Waiting(s.players[id])
    requires o in s.players && o != id && s.players[o].replacedBy.None?
    requires o'.replacedBy == Some(id)
    requires Waiting(s.players[o]) ==> Waiting(o')
    requires forall q :: !Replaces(s, id, q)
    ensures ReplacementsOk(s.WithPlayer(o, o'))
  {
    var s' := s.WithPlayer(o, o');
    forall q | q in s'.players ensures ReplacementOf(s', s'.players[q]) {
      assert ReplacementOf(s, s.players[q]);
    }
    forall a, b, c | Replaces(s', a, b) && Replaces(s', a, c) ensures b == c {
      assert (b != o ==> Replaces(s, a, b)) && (c != o ==> Replaces(s, a, c));
    }
  }

  // ------------------------------------------------------------ phase one

  lemma PassBeginsKeeps(s: State)
    requires Inv(s) && s.actions == []
    ensures Inv(s.(scan := s.playerList))
  {
    ScanChanged(s, s.playerList);
  }

  lemma ScanChanged(s: State, scan: seq<PlayerId>)
    requires Inv(s) && NoDup(scan)
    requires forall p :: p in scan ==> p in s.playerList && p !in s.actions
    ensures Inv(s.(scan := scan))
  {
    var s' := s.(scan := scan);
    ReplacementsSame(s, s');
    assert PassOk(s') && PlayersOk(s') && ArenaListOk(s') && ArenasOk(s') && RegionsOk(s') && PlayerListOk(s') && RefsOk(s');
  }

  lemma TailOfNoDup(xs: seq<nat>)
    requires NoDup(xs) && xs != []
    ensures NoDup(xs[1..]) && xs[0] !in xs[1..]
    ensures forall x :: x in xs <==> x == xs[0] || x in xs[1..]
  {
  }

  lemma AwaitArenaOk(arenas: map<ArenaId, Arena>, p: Player, ready: bool)
    requires PlayerOk(p, true) && RefsOf(arenas, p) && p.pending.None?
    requires p.status.Connected? || p.status.LoggedIn?
    requires ready ==> p.newarena.Some? && p.newarena.value in arenas && Live(arenas[p.newarena.value])
    ensures var p' := AwaitArena(p, ready);
            PlayerOk(p', true) && RefsOf(arenas, p') && p'.replacedBy == p.replacedBy && p'.pending.None?
  {
  }

  lemma AdvanceOk(p: Player)
    requires PlayerOk(p, true) && Automatic(p.status).Some? && p.pending.None?
    ensures PlayerOk(Advance(p), true)
    ensures Advance(p).arena == p.arena && Advance(p).newarena == p.newarena && Advance(p).replacedBy == p.replacedBy
    ensures !Waiting(p) && Advance(p).pending.Some?
  {
  }

  lemma ScanKeeps(s: State)
    requires Inv(s) && s.scan != [] && s.scan[0] in s.players
    ensures Inv(Scan(s))
  {
    var id := s.scan[0];
    var p := s.players[id];
    TailOfNoDup(s.scan);
    assert id in s.playerList && id !in s.actions && PlayerOk(p, true) && RefsOf(s.arenas, p);
    ScanChanged(s, s.scan[1..]);
    if p.status.Connected? || p.status.LoggedIn? {
      AwaitArenaOk(s.arenas, p, NextArenaRuns(s, p));
      PlayerChanged(s.(scan := s.scan[1..]), id, AwaitArena(p, NextArenaRuns(s, p)));
    } else if Automatic(p.status).Some? {
      AdvanceOk(p);
      ActionAdded(s.(scan := s.scan[1..]), id, Advance(p));
    }
  }

  /** Changing one player together with the pending-action list. */
  lemma PendingChanged(s: State, id: PlayerId, p: Player, actions: seq<PlayerId>)
    requires Inv(s) && id in s.players && id in s.playerList && !Waiting(s.players[id])
    requires PlayerOk(p, true) && RefsOf(s.arenas, p) && p.replacedBy == s.players[id].replacedBy
    requires PassOk(s.WithPlayer(id, p).(actions := actions))
    ensures Inv(s.WithPlayer(id, p).(actions := actions))
  {
    var s' := s.WithPlayer(id, p).(actions := actions);
    ReplacementsKept(s, id, p);
    ReplacementsSame(s.WithPlayer(id, p), s');
    PlayerSideKept(s, id, p, actions);
    ArenaSideKept(s, s');
  }

  lemma PlayerSideKept(s: State, id: PlayerId, p: Player, actions: seq<PlayerId>)
    requires PlayerListOk(s) && PlayersOk(s) && RefsOk(s) && id in s.players && id in s.playerList
    requires PlayerOk(p, true) && RefsOf(s.arenas, p)
    ensures var s' := s.WithPlayer(id, p).(actions := actions); PlayerListOk(s') && PlayersOk(s') && RefsOk(s')
  {
  }

  lemma ArenaSideKept(s: State, s': State)
    requires ArenaListOk(s) && ArenasOk(s) && RegionsOk(s)
    requires s'.arenas == s.arenas && s'.arenaList == s.arenaList && s'.nextArena == s.nextArena
    requires s'.round == s.round && s'.recycling == s.recycling && s'.nextWorker == s.nextWorker
    ensures ArenaListOk(s') && ArenasOk(s') && RegionsOk(s')
  {
    forall b | b in s'.arenas ensures ArenaOk(s'.arenas[b], UnheldOf(s', b), s'.nextWorker) {
      assert ArenaOk(s.arenas[b], UnheldOf(s, b), s.nextWorker);
    }
  }

  lemma ActionAdded(s: State, id: PlayerId, p: Player)
    requires Inv(s) && id in s.players && id in s.playerList && id !in s.scan && id !in s.actions
    requires !Waiting(s.players[id])
    requires PlayerOk(p, true) && RefsOf(s.arenas, p) && p.pending.Some?
    requires p.replacedBy == s.players[id].replacedBy
    ensures Inv(s.WithPlayer(id, p).(actions := s.actions + [id]))
  {
    PendingChanged(s, id, p, s.actions + [id]);
  }

  // ------------------------------------------------------------ phase two

  /** A player with nothing left to do in phase two is answered for by persist. */
  function Asked(p: Player): Player { p.(syncs := p.syncs + 1) }

  lemma FiresInOrder(p: Player)
    requires PlayerOk(p, true) && p.pending.Some?
    ensures WellOrdered(Logged(p.log, Fires(p, p.pending.value)))
  {
    var fired := Fires(p, p.pending.value);
    if fired.Some? {
      assert MayFollow(Before(p.log, |p.log|), fired.value);
      Extends(p.log, fired.value);
    }
  }

  lemma ActOk(p: Player, canAuth: bool)
    requires PlayerOk(p, true) && p.pending.Some?
    ensures SyncFollows(p.pending.value) ==> PlayerOk(Asked(Act(p, canAuth)), true)
    ensures !SyncFollows(p.pending.value) ==> PlayerOk(Act(p, canAuth), true)
    ensures !Waiting(p)
  {
    if SyncFollows(p.pending.value) { SyncActOk(p, canAuth); } else { PlainActOk(p, canAuth); }
  }

  lemma SyncActOk(p: Player, canAuth: bool)
    requires PlayerOk(p, true) && p.pending.Some? && SyncFollows(p.pending.value)
    ensures PlayerOk(Asked(Act(p, canAuth)), true)
  {
    FiresInOrder(p);
    assert StageOk(Asked(Act(p, canAuth)));
  }

  lemma PlainActOk(p: Player, canAuth: bool)
    requires PlayerOk(p, true) && p.pending.Some? && !SyncFollows(p.pending.value)
    ensures PlayerOk(Act(p, canAuth), true)
  {
    FiresInOrder(p);
    assert StageOk(Act(p, canAuth));
  }

  lemma PendingDone(s: State, id: PlayerId, p: Player)
    requires Inv(s) && s.PlayerLockFree() && s.actions != [] && id == s.actions[0] && id in s.players
    requires PlayerOk(p, true) && p.pending.None? && SamePlace(s.players[id], p) && !Waiting(s.players[id])
    ensures id in s.playerList
    ensures Inv(s.WithPlayer(id, p).(actions := s.actions[1..]))
  {
    TailOfNoDup(s.actions);
    assert RefsOf(s.arenas, s.players[id]);
    PendingChanged(s, id, p, s.actions[1..]);
  }

  predicate SamePlace(p: Player, p': Player) {
    p'.arena == p.arena && p'.newarena == p.newarena && p'.replacedBy == p.replacedBy
  }

  /** Going on without persist is the same as asking it and being answered at once. */
  lemma AnsweredAtOnce(s: State, id: PlayerId, p: Player)
    requires id in s.players
    ensures SyncAnswered(s.WithPlayer(id, Asked(p)), id) == RequestSync(s.WithPlayer(id, p), id, false)
    ensures s.WithPlayer(id, Asked(p)) == RequestSync(s.WithPlayer(id, p), id, true)
  {
    assert s.WithPlayer(id, Asked(p)).WithPlayer(id, p) == s.WithPlayer(id, p);
    assert s.WithPlayer(id, p).WithPlayer(id, Asked(p)) == s.WithPlayer(id, Asked(p));
  }

  /** The player after his pending action, a sync that is asked for included. */
  function Acted(p: Player, canAuth: bool): Player
    requires p.pending.Some?
  {
    if SyncFollows(p.pending.value) then Asked(Act(p, canAuth)) else Act(p, canAuth)
  }

  lemma ActedOn(s: State, canAuth: bool)
    requires Inv(s) && s.PlayerLockFree() && s.actions != [] && s.actions[0] in s.players
    requires s.players[s.actions[0]].pending.Some?
    ensures Inv(s.(actions := s.actions[1..]).WithPlayer(s.actions[0], Acted(s.players[s.actions[0]], canAuth)))
  {
    var id := s.actions[0];
    assert id in s.actions && PlayerOk(s.players[id], true);
    ActOk(s.players[id], canAuth);
    PendingDone(s, id, Acted(s.players[id], canAuth));
  }

  lemma RunActionKeeps(s: State, canAuth: bool)
    requires Inv(s) && s.PlayerLockFree() && s.actions != [] && s.actions[0] in s.players
    requires s.players[s.actions[0]].pending.Some?
    ensures Inv(RunAction(s, canAuth))
  {
    var id := s.actions[0];
    var p := s.players[id];
    ActedOn(s, canAuth);
    if SyncFollows(p.pending.value) {
      SyncActionKeeps(s, id, p, Act(p, canAuth), AsksPersist(s.persist, p));
    } else if p.pending.value.NeedAuth? && !canAuth {
      KickActionKeeps(s, id, Act(p, canAuth));
    }
  }

  lemma SyncActionKeeps(s: State, id: PlayerId, p: Player, p': Player, ask: bool)
    requires s.actions != [] && id in s.players
    requires Inv(s.(actions := s.actions[1..]).WithPlayer(id, Asked(p')))
    ensures Inv(RequestSync(s.(actions := s.actions[1..]).WithPlayer(id, p'), id, ask))
  {
    var s0 := s.(actions := s.actions[1..]);
    AnsweredAtOnce(s0, id, p');
    if !ask { SyncCompletesKeeps(s0.WithPlayer(id, Asked(p')), id); }
  }

  lemma KickActionKeeps(s: State, id: PlayerId, p': Player)
    requires s.actions != [] && id in s.players
    requires Inv(s.(actions := s.actions[1..]).WithPlayer(id, p'))
    ensures Inv(s.(actions := s.actions[1..]).WithPlayer(id, Kick(p')))
  {
    var s0 := s.(actions := s.actions[1..]);
    KicksKeeps(s0.WithPlayer(id, p'), id);
    Overwritten(s0, id, p', Kick(p'));
  }

  lemma Overwritten(s: State, id: PlayerId, p: Player, q: Player)
    ensures s.WithPlayer(id, p).WithPlayer(id, q) == s.WithPlayer(id, q)
  {
  }

  // --------------------------------------------- arenas and players together

  lemma ListedAt(s: State, p: PlayerId)
    requires p in s.playerList && p in s.players
    ensures forall a: ArenaId :: s.players[p].arena == Some(a) ==> Occupied(s, a)
    ensures forall a: ArenaId :: s.players[p].newarena == Some(a) && s.players[p].arena != Some(a) ==> Wanted(s, a)
  {
  }

  lemma ReapArenaOk(a: Arena, nextWorker: nat, occupied: bool, wanted: bool)
    requires ArenaOk(a, 0, nextWorker)
    ensures ArenaOk(ReapArena(a, occupied, wanted), 0, nextWorker)
    ensures occupied && Live(a) ==> Live(ReapArena(a, occupied, wanted))
    ensures Returns(a) && (occupied || wanted) ==> Returns(ReapArena(a, occupied, wanted))
  {
  }

  lemma ReapedArenas(s: State)
    requires ArenasOk(s) && s.ArenaLockFree()
    ensures ArenasOk(Reap(s))
    ensures forall a | a in s.arenas ::
              && (Occupied(s, a) && Live(s.arenas[a]) ==> Live(Reap(s).arenas[a]))
              && (Returns(s.arenas[a]) && (Occupied(s, a) || Wanted(s, a)) ==> Returns(Reap(s).arenas[a]))
  {
    var s' := Reap(s);
    forall a | a in s.arenas
      ensures ArenaOk(s'.arenas[a], UnheldOf(s', a), s'.nextWorker)
      ensures Occupied(s, a) && Live(s.arenas[a]) ==> Live(s'.arenas[a])
      ensures Returns(s.arenas[a]) && (Occupied(s, a) || Wanted(s, a)) ==> Returns(s'.arenas[a])
    {
      assert ArenaOk(s.arenas[a], UnheldOf(s, a), s.nextWorker);
      ReapArenaOk(s.arenas[a], s.nextWorker, Occupied(s, a), Wanted(s, a));
    }
  }

  lemma ReapKeeps(s: State)
    requires Inv(s) && s.ArenaLockFree()
    ensures Inv(Reap(s))
  {
    var s' := Reap(s);
    ReapedArenas(s);
    forall p | p in s'.players ensures RefsOf(s'.arenas, s'.players[p]) {
      assert RefsOf(s.arenas, s.players[p]) && PlayerOk(s.players[p], p in s.playerList);
      if p in s.playerList { ListedAt(s, p); }
    }
    assert s'.arenas.Keys == s.arenas.Keys;
    assert ArenaListOk(s') && RegionsOk(s');
    ArenaSideChanged(s, s');
  }

  lemma RecycleMarkKeeps(s: State, id: ArenaId)
    requires Inv(s) && s.ArenaLockFree() && id in s.arenas && s.arenas[id].status.Running?
    ensures Inv(RecycleMark(s, id))
  {
    var s' := RecycleMark(s, id);
    forall p | p in s.players
      ensures PlayerOk(s'.players[p], p in s'.playerList) && RefsOf(s'.arenas, s'.players[p])
      ensures s'.players[p].pending == s.players[p].pending && s'.players[p].replacedBy == s.players[p].replacedBy
      ensures Waiting(s.players[p]) ==> Waiting(s'.players[p])
    {
      assert RefsOf(s.arenas, s.players[p]) && PlayerOk(s.players[p], p in s.playerList);
      if p in s.playerList && s.players[p].arena == Some(id) { MarkOk(s.players[p], id); }
    }
    MarkedSides(s, s', id);
  }

  lemma MarkOk(p: Player, id: ArenaId)
    requires PlayerOk(p, true) && p.arena == Some(id)
    ensures var p' := InitiateLeave(p).(newarena := Some(id));
            PlayerOk(p', true) && p'.pending == p.pending && p'.replacedBy == p.replacedBy
            && p'.arena == p.arena && !Waiting(p)
  {
    LeaveOk(p, true);
  }

  lemma MarkedSides(s: State, s': State, id: ArenaId)
    requires Inv(s) && s.ArenaLockFree() && id in s.arenas && s.arenas[id].status.Running?
    requires s' == s.(players := s'.players, recycling := Some(id)) && s'.players.Keys == s.players.Keys
    requires forall p | p in s.players ::
               && PlayerOk(s'.players[p], p in s'.playerList) && RefsOf(s'.arenas, s'.players[p])
               && s'.players[p].pending == s.players[p].pending && s'.players[p].replacedBy == s.players[p].replacedBy
               && (Waiting(s.players[p]) ==> Waiting(s'.players[p]))
    ensures Inv(s')
  {
    assert ReplacementsOk(s') by {
      forall q | q in s'.players ensures ReplacementOf(s', s'.players[q]) {
        assert ReplacementOf(s, s.players[q]);
      }
      forall a, b, c | Replaces(s', a, b) && Replaces(s', a, c) ensures b == c {
        assert Replaces(s, a, b) && Replaces(s, a, c);
      }
    }
    assert ArenaListOk(s') && ArenasOk(s') && RegionsOk(s') && PlayerListOk(s') && PassOk(s') && PlayersOk(s') && RefsOk(s');
  }

  lemma RecycleCloseKeeps(s: State)
    requires Inv(s) && s.recycling.Some? && s.recycling.value in s.arenas
    ensures Inv(RecycleClose(s))
  {
    var id := s.recycling.value;
    var a := s.arenas[id];
    var a' := a.(status := Closing, resurrect := true);
    assert ArenaOk(a, 0, s.nextWorker);
    NoJobs(a, s.nextWorker);
    SettledOk(a', s.nextWorker);
    RefsKept(s, id, a');
    ArenaListKept(s, id, a');
    ArenaSideChanged(s, s.WithArena(id, a').(recycling := None));
  }

  lemma {:induction false} FoundIsListed(s: State, name: string, from: nat)
    requires from <= |s.arenaList|
    ensures FindArena(s, name, from).Some? ==> FindArena(s, name, from).value in s.arenas
    decreases |s.arenaList| - from
  {
    if from < |s.arenaList| { FoundIsListed(s, name, from + 1); }
  }

  lemma TargetReturns(s: State, name: string)
    requires Inv(s)
    ensures var (s1, target) := PrepareArena(s, name);
            Inv(s1) && s1.players == s.players && s1.playerList == s.playerList
            && target in s1.arenas && Returns(s1.arenas[target])
  {
    FoundIsListed(s, name, 0);
    var found := FindArena(s, name);
    if found.None? {
      CreateArenaKeeps(s, name, false);
    } else if s.arenas[found.value].status.PastRunning() {
      assert ArenaOk(s.arenas[found.value], UnheldOf(s, found.value), s.nextWorker);
      ArenaTouched(s, found.value, s.arenas[found.value].(resurrect := true));
    }
  }

  lemma GoToKeeps(s: State, id: PlayerId, name: string)
    requires Inv(s) && id in s.players
    requires s.players[id].status.LoggedIn? || s.players[id].status.Playing? || s.players[id].status.LeavingArena?
    ensures Inv(GoTo(s, id, name))
  {
    TargetReturns(s, name);
    var (s1, target) := PrepareArena(s, name);
    TargetSet(s1, id, target);
  }

  lemma TargetSet(s: State, id: PlayerId, target: ArenaId)
    requires Inv(s) && id in s.players && target in s.arenas && Returns(s.arenas[target])
    requires s.players[id].status.LoggedIn? || s.players[id].status.Playing? || s.players[id].status.LeavingArena?
    ensures Inv(s.WithPlayer(id, s.players[id].(newarena := Some(target))))
  {
    assert RefsOf(s.arenas, s.players[id]);
    PlayerChanged(s, id, s.players[id].(newarena := Some(target)));
  }
}
