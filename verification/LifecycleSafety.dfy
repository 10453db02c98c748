/** Every step keeps the invariant, so every run is safe. */
module LifecycleSafety {
  import opened Options
  import opened Lifecycle
  import opened LifecycleInvariant

  // ---------------------------------------------------------------- lists

  lemma {:induction false} WithoutMembers(xs: seq<nat>, x: nat)
    requires NoDup(xs)
    ensures NoDup(Without(xs, x))
    ensures forall y :: y in Without(xs, x) <==> y in xs && y != x
  {
    if xs != [] {
      var rest := xs[1..];
      assert xs == [xs[0]] + rest;
      assert NoDup(rest) by {
        forall i, j | 0 <= i < j < |rest| ensures rest[i] != rest[j] {
          assert xs[i + 1] != xs[j + 1];
        }
      }
      assert xs[0] !in rest by {
        assert forall i | 0 <= i < |rest| :: rest[i] == xs[i + 1] != xs[0];
      }
      WithoutMembers(rest, x);
    }
  }

  // ----------------------------------------------------------- arena steps

  lemma CreateArenaKeeps(s: State, name: string, permanent: bool)
    requires Inv(s)
    ensures Inv(CreateArena(s, name, permanent))
  {
    CreatedListOk(s, name, permanent);
    CreatedArenasOk(s, name, permanent);
    ArenaSideChanged(s, CreateArena(s, name, permanent));
  }

  lemma CreatedListOk(s: State, name: string, permanent: bool)
    requires ArenaListOk(s)
    ensures ArenaListOk(CreateArena(s, name, permanent))
  {
    assert s.nextArena !in s.arenas && s.nextArena !in s.arenaList;
  }

  lemma CreatedArenasOk(s: State, name: string, permanent: bool)
    requires ArenaListOk(s) && ArenasOk(s) && RegionsOk(s) && RefsOk(s)
    ensures var s' := CreateArena(s, name, permanent); ArenasOk(s') && RegionsOk(s') && RefsOk(s')
  {
    var s' := CreateArena(s, name, permanent);
    assert s.nextArena !in s.arenas;
    forall q | q in s'.players ensures RefsOf(s'.arenas, s'.players[q]) {
      assert RefsOf(s.arenas, s.players[q]);
    }
  }

  lemma RoundStarts(s: State, id: ArenaId, a: Arena)
    requires Inv(s) && s.ArenaLockFree() && id in s.arenas
    requires a.status.WaitsForHolds() && ArenaOk(a, 0, s.nextWorker)
    requires !Live(s.arenas[id]) && (Returns(s.arenas[id]) ==> Returns(a))
    ensures Inv(BeginRound(s, id, a))
  {
    ArenaChanged(s, id, a);
    var s1 := s.WithArena(id, a);
    var s' := BeginRound(s, id, a);
    assert ArenasOk(s') by {
      forall b | b in s'.arenas ensures ArenaOk(s'.arenas[b], UnheldOf(s', b), s'.nextWorker) {
        assert ArenaOk(s1.arenas[b], UnheldOf(s1, b), s1.nextWorker);
      }
    }
    assert ArenaListOk(s') && RegionsOk(s') && RefsOk(s');
    ArenaSideChanged(s1, s');
  }

  /** Nothing refers to an arena at the moment it is freed. */
  lemma ArenaFreed(s: State, id: ArenaId)
    requires Inv(s) && s.ArenaLockFree() && id in s.arenas
    requires !Returns(s.arenas[id])
    ensures forall p :: p in s.players ==> s.players[p].newarena != Some(id)
    ensures !Live(s.arenas[id]) ==> forall p :: p in s.players ==> s.players[p].arena != Some(id)
    ensures !Live(s.arenas[id]) ==> Inv(s.(arenas := s.arenas - {id}, arenaList := Without(s.arenaList, id)))
  {
    var s' := s.(arenas := s.arenas - {id}, arenaList := Without(s.arenaList, id));
    assert forall q :: q in s.players ==> RefsOf(s.arenas, s.players[q]);
    if !Live(s.arenas[id]) {
      WithoutMembers(s.arenaList, id);
      assert RefsOk(s') by {
        forall q | q in s'.players ensures RefsOf(s'.arenas, s'.players[q]) {
          assert RefsOf(s.arenas, s.players[q]);
        }
      }
      assert ArenaListOk(s') && ArenasOk(s') && RegionsOk(s');
      ArenaSideChanged(s, s');
    }
  }

  /** No job and no hold, and persist owes what the status says. */
  predicate Settled(a: Arena) {
    a.holds == 0 && a.workers == map[] && a.syncs == if a.status.WaitsForSync() then 1 else 0
  }

  lemma SettledOk(a: Arena, nextWorker: nat)
    requires Settled(a)
    ensures ArenaOk(a, 0, nextWorker)
  {
  }

  lemma NoJobs(a: Arena, nextWorker: nat)
    requires ArenaOk(a, 0, nextWorker) && (a.holds == 0 || !a.status.WaitsForHolds())
    ensures Settled(a)
  {
  }

  lemma TimerSettles(a0: Arena, persist: bool, occupied: bool, detached: bool, rename: string)
    requires Settled(a0)
    ensures var out := TimerOn(a0, persist, occupied, detached, rename);
            && (!out.Free? ==> Settled(out.arena))
            && (out.Callbacks? ==> out.arena.status.WaitsForHolds())
  {
  }

  lemma TimerKeepsPointers(a0: Arena, persist: bool, occupied: bool, detached: bool, rename: string)
    requires Settled(a0)
    ensures var out := TimerOn(a0, persist, occupied, detached, rename);
            && (out.Free? ==> !Live(a0) && !Returns(a0))
            && (out.Callbacks? ==> !Live(a0))
            && (!out.Free? ==> (Live(a0) ==> Live(out.arena)) && (Returns(a0) ==> Returns(out.arena)))
  {
  }

  /** One timer iteration, seen from the arena alone. */
  lemma TimerOutcomeOk(a0: Arena, persist: bool, occupied: bool, detached: bool, rename: string)
    requires Settled(a0)
    ensures var out := TimerOn(a0, persist, occupied, detached, rename);
            && (out.Free? ==> !Live(a0) && !Returns(a0))
            && (!out.Free? ==> Settled(out.arena) && (Live(a0) ==> Live(out.arena))
                               && (Returns(a0) ==> Returns(out.arena)))
            && (out.Callbacks? ==> !Live(a0) && out.arena.status.WaitsForHolds())
  {
    TimerSettles(a0, persist, occupied, detached, rename);
    TimerKeepsPointers(a0, persist, occupied, detached, rename);
  }

  lemma ArenaTimerKeeps(s: State, id: ArenaId, detached: bool, rename: string)
    requires Inv(s) && s.ArenaLockFree() && id in s.arenas
    ensures Inv(ProcessArena(s, id, detached, rename))
  {
    var a0 := s.arenas[id];
    assert ArenaOk(a0, UnheldOf(s, id), s.nextWorker);
    if a0.holds > 0 && a0.status.WaitsForHolds() {
      assert TimerOn(a0, s.persist, Occupied(s, id), detached, rename) == Keep(a0);
      ArenaChanged(s, id, a0);
      return;
    }
    NoJobs(a0, s.nextWorker);
    TimerOutcomeOk(a0, s.persist, Occupied(s, id), detached, rename);
    match TimerOn(a0, s.persist, Occupied(s, id), detached, rename)
    case Keep(a) => SettledOk(a, s.nextWorker); ArenaChanged(s, id, a);
    case Callbacks(a) => SettledOk(a, s.nextWorker); RoundStarts(s, id, a);
    case Free => ArenaFreed(s, id);
  }

  /** The state after a step inside a callback round: one arena's holds and jobs move
      together with the round's count of jobs not held for yet. */
  function Moved(s: State, a: Arena, unheld: nat, nextWorker: nat): State
    requires s.round.Some?
  {
    s.WithArena(s.round.value.arena, a).(round := Some(Round(s.round.value.arena, unheld)), nextWorker := nextWorker)
  }

  lemma MovedArenas(s: State, a: Arena, unheld: nat, nextWorker: nat)
    requires ArenasOk(s) && s.round.Some? && nextWorker >= s.nextWorker && ArenaOk(a, unheld, nextWorker)
    ensures ArenasOk(Moved(s, a, unheld, nextWorker))
  {
    var s' := Moved(s, a, unheld, nextWorker);
    forall b | b in s'.arenas ensures ArenaOk(s'.arenas[b], UnheldOf(s', b), s'.nextWorker) {
      assert b != s.round.value.arena ==> ArenaOk(s.arenas[b], UnheldOf(s, b), s.nextWorker);
    }
  }

  lemma MovedList(s: State, a: Arena, unheld: nat, nextWorker: nat)
    requires ArenaListOk(s) && s.round.Some? && s.round.value.arena in s.arenas
    ensures ArenaListOk(Moved(s, a, unheld, nextWorker))
  {
    ArenaListKept(s, s.round.value.arena, a);
    assert ArenaListOk(s.WithArena(s.round.value.arena, a));
  }

  lemma MovedRegions(s: State, a: Arena, unheld: nat, nextWorker: nat)
    requires RegionsOk(s) && s.round.Some? && unheld <= 1
    requires a.status == s.arenas[s.round.value.arena].status
    ensures RegionsOk(Moved(s, a, unheld, nextWorker))
  {
  }

  lemma MovedRefs(s: State, a: Arena, unheld: nat, nextWorker: nat)
    requires RefsOk(s) && s.round.Some? && s.round.value.arena in s.arenas
    requires a.status == s.arenas[s.round.value.arena].status && a.resurrect == s.arenas[s.round.value.arena].resurrect
    ensures RefsOk(Moved(s, a, unheld, nextWorker))
  {
    RefsKept(s, s.round.value.arena, a);
    assert RefsOk(s.WithArena(s.round.value.arena, a));
  }

  lemma RoundMoves(s: State, a: Arena, unheld: nat, nextWorker: nat)
    requires Inv(s) && s.round.Some? && nextWorker >= s.nextWorker && unheld <= 1
    requires ArenaOk(a, unheld, nextWorker) && a.status == s.arenas[s.round.value.arena].status
    requires a.resurrect == s.arenas[s.round.value.arena].resurrect
    ensures Inv(Moved(s, a, unheld, nextWorker))
  {
    MovedArenas(s, a, unheld, nextWorker);
    MovedList(s, a, unheld, nextWorker);
    MovedRegions(s, a, unheld, nextWorker);
    MovedRefs(s, a, unheld, nextWorker);
    ArenaSideChanged(s, Moved(s, a, unheld, nextWorker));
  }

  lemma JobKeepsArenaOk(a: Arena, nextWorker: nat)
    requires ArenaOk(a, 0, nextWorker) && a.status.WaitsForHolds()
    ensures ArenaOk(a.(workers := a.workers[nextWorker := Worker(a.status, None)]), 1, nextWorker + 1)
  {
  }

  lemma QueueWorkKeeps(s: State)
    requires Inv(s) && s.round.Some? && s.round.value.arena in s.arenas && s.round.value.unheld == 0
    ensures Inv(LaunchWorker(s))
  {
    var id := s.round.value.arena;
    var a := s.arenas[id];
    assert ArenaOk(a, UnheldOf(s, id), s.nextWorker);
    JobKeepsArenaOk(a, s.nextWorker);
    var a' := a.(workers := a.workers[s.nextWorker := Worker(a.status, None)]);
    assert LaunchWorker(s) == Moved(s, a', 1, s.nextWorker + 1);
    RoundMoves(s, a', 1, s.nextWorker + 1);
  }

  lemma HoldKeepsArenaOk(a: Arena, unheld: nat, nextWorker: nat)
    requires ArenaOk(a, unheld, nextWorker) && unheld > 0 && a.status.WaitsForHolds()
    ensures ArenaOk(Hold(a), unheld - 1, nextWorker)
  {
  }

  lemma HoldIsMoved(s: State)
    requires s.round.Some? && s.round.value.arena in s.arenas && s.round.value.unheld > 0
    ensures HoldRound(s) == Moved(s, Hold(s.arenas[s.round.value.arena]), s.round.value.unheld - 1, s.nextWorker)
  {
  }

  lemma HoldForWorkKeeps(s: State)
    requires Inv(s) && s.round.Some? && s.round.value.arena in s.arenas && s.round.value.unheld > 0
    ensures Inv(HoldRound(s))
  {
    var id := s.round.value.arena;
    var a := s.arenas[id];
    assert ArenaOk(a, UnheldOf(s, id), s.nextWorker);
    HoldKeepsArenaOk(a, s.round.value.unheld, s.nextWorker);
    HoldIsMoved(s);
    RoundMoves(s, Hold(a), s.round.value.unheld - 1, s.nextWorker);
  }

  /** The Hold call of a callback round is never refused. */
  lemma HoldIsCounted(s: State)
    requires RegionsOk(s) && s.round.Some? && s.round.value.unheld > 0
    ensures HoldRound(s).arenas[s.round.value.arena].holds == s.arenas[s.round.value.arena].holds + 1
  {
  }

  lemma EndCallbacksKeeps(s: State)
    requires Inv(s) && s.round.Some? && s.round.value.unheld == 0
    ensures Inv(s.(round := None))
  {
    var s' := s.(round := None);
    assert ArenasOk(s') by {
      forall b | b in s'.arenas ensures ArenaOk(s'.arenas[b], UnheldOf(s', b), s'.nextWorker) {
        assert ArenaOk(s.arenas[b], UnheldOf(s, b), s.nextWorker);
      }
    }
    assert ArenaListOk(s') && RegionsOk(s') && RefsOk(s');
    ArenaSideChanged(s, s');
  }

  lemma ReadKeepsArenaOk(a: Arena, unheld: nat, nextWorker: nat, w: WorkerId)
    requires ArenaOk(a, unheld, nextWorker) && w in a.workers
    ensures ArenaOk(a.(workers := a.workers[w := a.workers[w].(sawBefore := Some(a.status.BeforeRunning()))]),
                    unheld, nextWorker)
  {
  }

  lemma WorkReadsKeeps(s: State, id: ArenaId, w: WorkerId)
    requires Inv(s) && id in s.arenas && w in s.arenas[id].workers
    ensures Inv(WorkerReads(s, id, w))
  {
    var a := s.arenas[id];
    ReadKeepsArenaOk(a, UnheldOf(s, id), s.nextWorker, w);
    ArenaTouched(s, id, a.(workers := a.workers[w := a.workers[w].(sawBefore := Some(a.status.BeforeRunning()))]));
  }

  /** A job that calls Unhold always finds a hold to give back. */
  lemma UnholdFindsHold(s: State, id: ArenaId, w: WorkerId)
    requires Inv(s) && s.ArenaLockFree() && id in s.arenas && w in s.arenas[id].workers
    ensures s.arenas[id].status.WaitsForHolds() && s.arenas[id].holds > 0
  {
  }

  lemma WorkUnholdsKeeps(s: State, id: ArenaId, w: WorkerId)
    requires Inv(s) && s.ArenaLockFree() && id in s.arenas && w in s.arenas[id].workers
    ensures Inv(WorkerUnholds(s, id, w))
  {
    UnholdFindsHold(s, id, w);
    var a := s.arenas[id];
    assert ArenaOk(a, 0, s.nextWorker);
    var workers := a.workers - {w};
    assert workers.Keys == a.workers.Keys - {w};
    assert |workers| == |workers.Keys| && |a.workers| == |a.workers.Keys|;
    ArenaChanged(s, id, Unhold(a).(workers := workers));
  }

  /** The completion of an arena's persist request always finds it waiting. */
  lemma ArenaSyncFindsWaiting(s: State, id: ArenaId)
    requires ArenasOk(s) && s.ArenaLockFree() && id in s.arenas && s.arenas[id].syncs > 0
    ensures s.arenas[id].status.WaitsForSync() && Settled(s.arenas[id])
  {
  }

  lemma ArenaSyncKeeps(s: State, id: ArenaId)
    requires Inv(s) && s.ArenaLockFree() && id in s.arenas && s.arenas[id].syncs > 0
    ensures Inv(s.WithArena(id, ArenaSynced(s.arenas[id]).(syncs := s.arenas[id].syncs - 1)))
  {
    ArenaSyncFindsWaiting(s, id);
    var a := s.arenas[id];
    var a' := ArenaSynced(a).(syncs := a.syncs - 1);
    SettledOk(a', s.nextWorker);
    ArenaChanged(s, id, a');
  }

}
