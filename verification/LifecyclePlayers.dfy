/** The player steps keep the invariant. */
module LifecyclePlayers {
  import opened Options
  import opened Lifecycle
  import opened LifecycleInvariant
  import opened LifecycleSafety

  // ------------------------------------------------------- one player alone

  /** What was true of the player's pointers and replacement stays true. */
  predicate SameTies(p: Player, p': Player) {
    p'.arena == p.arena && p'.newarena == p.newarena && p'.replacedBy == p.replacedBy
    && p'.pending == p.pending
  }

  lemma LeaveOk(p: Player, listed: bool)
    requires PlayerOk(p, listed)
    ensures PlayerOk(LeaveArena(p), listed)
    ensures SameTies(p, LeaveArena(p))
    ensures Waiting(p) ==> LeaveArena(p) == p
    ensures p.status.TimeWait? <==> LeaveArena(p).status.TimeWait?
  {
    if p.arena.Some? {
      match p.status
      case DoFreqAndArenaSync =>
      case WaitArenaSync1 =>
      case ArenaRespAndCbs =>
      case Playing =>
      case _ =>
    }
  }

  lemma LeavesKeeps(s: State, id: PlayerId)
    requires Inv(s) && id in s.players
    ensures Inv(s.WithPlayer(id, LeaveArena(s.players[id])))
  {
    LeaveOk(s.players[id], id in s.playerList);
    PlayerChanged(s, id, LeaveArena(s.players[id]));
  }

  lemma KickOk(p: Player, listed: bool)
    requires PlayerOk(p, listed)
    ensures PlayerOk(Kick(p), listed) && SameTies(p, Kick(p))
    ensures Waiting(p) ==> Waiting(Kick(p))
    ensures !p.status.TimeWait? ==> Leaving(Kick(p))
  {
    LeaveOk(p, listed);
  }

  lemma KicksKeeps(s: State, id: PlayerId)
    requires Inv(s) && id in s.players
    ensures Inv(s.WithPlayer(id, Kick(s.players[id])))
  {
    KickOk(s.players[id], id in s.playerList);
    PlayerChanged(s, id, Kick(s.players[id]));
  }

  /** Login and rejection, before any callback has been fired. */
  lemma LoginKeeps(s: State, id: PlayerId, p: Player)
    requires Inv(s) && id in s.players && (id in s.playerList || p.status.Connected?)
    requires s.players[id].status.Uninitialized? || s.players[id].status.Connected?
    requires p.status.NeedAuth? || p.status.WaitAuth? || p.status.Connected?
    requires p == s.players[id].(status := p.status, auths := p.auths)
    requires p.auths == s.players[id].auths + if p.status.WaitAuth? then 1 else 0
    ensures Inv(s.WithPlayer(id, p))
  {
    PlayerChanged(s, id, p);
  }

  lemma BecomesReadyKeeps(s: State, id: PlayerId)
    requires Inv(s) && id in s.players && s.players[id].status.Uninitialized?
    ensures Inv(s.WithPlayer(id, s.players[id].(status := Connected)))
  {
    LoginKeeps(s, id, s.players[id].(status := Connected));
  }

  lemma LoginsKeeps(s: State, id: PlayerId)
    requires Inv(s) && id in s.players && id in s.playerList && s.players[id].status.Connected?
    ensures Inv(s.WithPlayer(id, s.players[id].(status := NeedAuth)))
    ensures Inv(s.WithPlayer(id, RejectLogin(s.players[id])))
  {
    LoginKeeps(s, id, s.players[id].(status := NeedAuth));
    LoginKeeps(s, id, RejectLogin(s.players[id]));
  }

  // ------------------------------------------------------ coming and going

  lemma NewcomerListed(s: State)
    requires PlayerListOk(s) && PlayersOk(s) && PassOk(s)
    ensures var s' := AddPlayer(s);
            PlayerListOk(s') && PlayersOk(s') && PassOk(s')
  {
    assert s.nextPlayer !in s.players && s.nextPlayer !in s.playerList;
    assert PlayerOk(NEW_PLAYER, false);
  }

  lemma ConnectsKeeps(s: State)
    requires Inv(s)
    ensures Inv(AddPlayer(s))
  {
    var s' := AddPlayer(s);
    NewcomerListed(s);
    NewcomerRefs(s);
    assert ArenaListOk(s') && ArenasOk(s') && RegionsOk(s');
  }

  lemma NewcomerRefs(s: State)
    requires PlayerListOk(s) && RefsOk(s) && ReplacementsOk(s)
    ensures var s' := AddPlayer(s);
            RefsOk(s') && ReplacementsOk(s')
  {
    var s' := AddPlayer(s);
    forall q | q in s'.players ensures ReplacementOf(s', s'.players[q]) {
      if q in s.players { assert ReplacementOf(s, s.players[q]); }
    }
    forall a, b, c | Replaces(s', a, b) && Replaces(s', a, c) ensures b == c {
      assert Replaces(s, a, b) && Replaces(s, a, c);
    }
  }

  lemma ListedKeeps(s: State, id: PlayerId)
    requires Inv(s) && s.PlayerLockFree() && id in s.players && id !in s.playerList
    ensures Inv(s.(playerList := s.playerList + [id]))
  {
    var s' := s.(playerList := s.playerList + [id]);
    assert PlayerListOk(s') && PassOk(s');
    assert PlayersOk(s') by {
      forall p | p in s'.players ensures PlayerOk(s'.players[p], p in s'.playerList) {
        assert PlayerOk(s.players[p], p in s.playerList);
      }
    }
    assert ReplacementsOk(s') by {
      forall q | q in s'.players ensures ReplacementOf(s', s'.players[q]) {
        assert ReplacementOf(s, s.players[q]);
      }
      forall a, b, c | Replaces(s', a, b) && Replaces(s', a, c) ensures b == c {
        assert Replaces(s, a, b) && Replaces(s, a, c);
      }
    }
    assert ArenaListOk(s') && ArenasOk(s') && RegionsOk(s') && RefsOk(s');
  }

  /** A freed player is in no pending action and nobody's replacement. */
  lemma FreedIsForgotten(s: State, id: PlayerId)
    requires Inv(s) && id in s.players && s.players[id].status.TimeWait?
    ensures id !in s.actions
    ensures forall q :: !Replaces(s, id, q)
    ensures s.players[id].syncs == 0 && s.players[id].auths == 0 && s.players[id].replacedBy.None?
  {
    assert forall q :: Replaces(s, id, q) ==> ReplacementOf(s, s.players[q]);
  }

  lemma FreedKeeps(s: State, id: PlayerId)
    requires Inv(s) && s.PlayerLockFree() && id in s.players && s.players[id].status.TimeWait?
    ensures Inv(s.(players := s.players - {id}, playerList := Without(s.playerList, id)))
  {
    FreedIsForgotten(s, id);
    FreedLists(s, id);
    FreedReplacements(s, id);
    var s' := s.(players := s.players - {id}, playerList := Without(s.playerList, id));
    assert ArenaListOk(s') && ArenasOk(s') && RegionsOk(s') && RefsOk(s');
  }

  lemma FreedLists(s: State, id: PlayerId)
    requires PlayerListOk(s) && PlayersOk(s) && PassOk(s) && s.PlayerLockFree()
    requires id !in s.actions
    ensures var s' := s.(players := s.players - {id}, playerList := Without(s.playerList, id));
            PlayerListOk(s') && PlayersOk(s') && PassOk(s')
  {
    WithoutMembers(s.playerList, id);
  }

  lemma FreedReplacements(s: State, id: PlayerId)
    requires ReplacementsOk(s) && NoDup(s.playerList)
    requires forall q :: !Replaces(s, id, q)
    ensures ReplacementsOk(s.(players := s.players - {id}, playerList := Without(s.playerList, id)))
  {
    var s' := s.(players := s.players - {id}, playerList := Without(s.playerList, id));
    WithoutMembers(s.playerList, id);
    forall q | q in s'.players ensures ReplacementOf(s', s'.players[q]) {
      assert ReplacementOf(s, s.players[q]) && !Replaces(s, id, q);
    }
    forall a, b, c | Replaces(s', a, b) && Replaces(s', a, c) ensures b == c {
      assert Replaces(s, a, b) && Replaces(s, a, c);
    }
  }
}
