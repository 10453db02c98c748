/** What the safety theorems are about: the protocol does bring players into arenas and
    out of them again, with and without persist. */
module LifecycleReaches {
  import opened Options
  import opened Lifecycle
  import opened LifecycleInvariant

  ghost predicate Leads(s: State, s': State) {
    exists steps :: Runs(s, steps, s')
  }

  lemma {:induction false} RunsOn(s: State, steps: seq<Step>, s1: State, more: seq<Step>, s2: State)
    requires Runs(s, steps, s1) && Runs(s1, more, s2)
    ensures Runs(s, steps + more, s2)
    decreases |steps|
  {
    if steps == [] {
      assert steps + more == more;
    } else {
      RunsOn(Apply(s, steps[0]), steps[1..], s1, more, s2);
      assert (steps + more)[1..] == steps[1..] + more;
    }
  }

  lemma LeadsOn(s: State, s1: State, s2: State)
    requires Leads(s, s1) && Leads(s1, s2)
    ensures Leads(s, s2)
  {
    var steps :| Runs(s, steps, s1);
    var more :| Runs(s1, more, s2);
    RunsOn(s, steps, s1, more, s2);
  }

  lemma OneStep(s: State, step: Step, s': State)
    requires Enabled(s, step) && Apply(s, step) == s'
    ensures Leads(s, s')
  {
    assert Runs(s', [], s');
    assert [step][1..] == [];
    assert Runs(s, [step], s');
  }

  // ----------------------------------------- one player, and perhaps one arena

  /** A server with one listed player, with nothing in progress. */
  function With(persist: bool, arena: Option<Arena>, p: Player): State {
    State(persist, if arena.Some? then map[0 := arena.value] else map[], if arena.Some? then [0] else [],
          if arena.Some? then 1 else 0, None, None, 0, map[0 := p], [0], 1, [], [])
  }

  /** The player after a pass and the completion of the sync it asks for. */
  function PassOver(p: Player): Player
    requires Automatic(p.status).Some?
  {
    var p1 := Act(Advance(p), true);
    if SyncFollows(p.status) then p1.(status := SyncedStatus(p1)) else p1
  }

  lemma PassScansHim(persist: bool, arena: Option<Arena>, p: Player)
    requires Automatic(p.status).Some?
    ensures Leads(With(persist, arena, p), With(persist, arena, Advance(p)).(actions := [0]))
  {
    var s := With(persist, arena, p);
    var s1 := s.(scan := [0]);
    OneStep(s, OfPass(PassBegins), s1);
    assert s1.players[0 := Advance(p)] == map[0 := Advance(p)] && [0][1..] == [] && [] + [0] == [0];
    OneStep(s1, OfPass(PassScans), With(persist, arena, Advance(p)).(actions := [0]));
    LeadsOn(s, s1, With(persist, arena, Advance(p)).(actions := [0]));
  }

  /** His pending action, and the sync that may follow. */
  lemma PassActsForHim(persist: bool, arena: Option<Arena>, p: Player)
    requires Automatic(p.status).Some? && p.replacedBy.None? && p.syncs == 0
    ensures Leads(With(persist, arena, Advance(p)).(actions := [0]), With(persist, arena, PassOver(p)))
  {
    var s := With(persist, arena, Advance(p)).(actions := [0]);
    var p1 := Act(Advance(p), true);
    assert [0][1..] == [];
    assert s.players[0 := p1] == map[0 := p1];
    if SyncFollows(p.status) && AsksPersist(persist, Advance(p)) {
      var s1 := With(persist, arena, p1.(syncs := 1));
      assert map[0 := p1][0 := p1.(syncs := 1)] == map[0 := p1.(syncs := 1)];
      OneStep(s, OfPass(PassActs(true)), s1);
      SyncEnds(persist, arena, p1);
      LeadsOn(s, s1, With(persist, arena, PassOver(p)));
    } else {
      assert map[0 := p1][0 := PassOver(p)] == map[0 := PassOver(p)];
      OneStep(s, OfPass(PassActs(true)), With(persist, arena, PassOver(p)));
    }
  }

  lemma SyncEnds(persist: bool, arena: Option<Arena>, p: Player)
    requires p.replacedBy.None? && p.syncs == 0
    ensures Leads(With(persist, arena, p.(syncs := 1)), With(persist, arena, p.(status := SyncedStatus(p))))
  {
    var s, s' := With(persist, arena, p.(syncs := 1)), With(persist, arena, p.(status := SyncedStatus(p)));
    HisSync(persist, arena, p);
    assert s.players[0 := p] == map[0 := p];
    assert s.WithPlayer(0, p.(syncs := 1).(syncs := 0)) == With(persist, arena, p);
    OneStep(s, OfPass(SyncCompletes(0)), s');
  }

  lemma HisSync(persist: bool, arena: Option<Arena>, p: Player)
    requires p.replacedBy.None?
    ensures SyncDone(With(persist, arena, p), 0) == With(persist, arena, p.(status := SyncedStatus(p)))
  {
    assert map[0 := p][0 := p.(status := SyncedStatus(p))] == map[0 := p.(status := SyncedStatus(p))];
  }

  /** One pass takes him from p to p'. */
  predicate Passes(p: Player, p': Player) {
    Automatic(p.status).Some? && p.replacedBy.None? && p.syncs == 0 && PassOver(p) == p'
  }

  lemma OnePass(s0: State, persist: bool, arena: Option<Arena>, p: Player, p': Player)
    requires Leads(s0, With(persist, arena, p)) && Passes(p, p')
    ensures Leads(s0, With(persist, arena, p'))
  {
    PassScansHim(persist, arena, p);
    PassActsForHim(persist, arena, p);
    LeadsOn(s0, With(persist, arena, p), With(persist, arena, Advance(p)).(actions := [0]));
    LeadsOn(s0, With(persist, arena, Advance(p)).(actions := [0]), With(persist, arena, PassOver(p)));
  }

  /** A pass that finds him waiting for an arena, or for nothing. */
  lemma WaitingPass(s0: State, persist: bool, arena: Option<Arena>, p: Player)
    requires Leads(s0, With(persist, arena, p)) && (p.status.Connected? || p.status.LoggedIn?)
    ensures Leads(s0, With(persist, arena, AwaitArena(p, NextArenaRuns(With(persist, arena, p), p))))
  {
    var s := With(persist, arena, p);
    var p' := AwaitArena(p, NextArenaRuns(s, p));
    var s1 := s.(scan := [0]);
    OneStep(s, OfPass(PassBegins), s1);
    assert s1.players[0 := p'] == map[0 := p'] && [0][1..] == [];
    OneStep(s1, OfPass(PassScans), With(persist, arena, p'));
    LeadsOn(s0, s, s1);
    LeadsOn(s0, s1, With(persist, arena, p'));
  }

  /** A step of the player's own. */
  lemma HisStep(s0: State, persist: bool, arena: Option<Arena>, p: Player, step: Step, p': Player)
    requires Leads(s0, With(persist, arena, p)) && Enabled(With(persist, arena, p), step)
    requires Apply(With(persist, arena, p), step) == With(persist, arena, p).WithPlayer(0, p')
    ensures Leads(s0, With(persist, arena, p'))
  {
    assert With(persist, arena, p).players[0 := p'] == map[0 := p'];
    OneStep(With(persist, arena, p), step, With(persist, arena, p'));
    LeadsOn(s0, With(persist, arena, p), With(persist, arena, p'));
  }

  // --------------------------------------------------------------- the arena

  /** The timer visits the arena while nobody is in it, and the callbacks it runs queue no
      work. */
  lemma Visit(s0: State, persist: bool, a: Arena, p: Player, a': Arena)
    requires Leads(s0, With(persist, Some(a), p)) && p.arena.None?
    requires TimerOn(a, persist, false, true, "") in {Keep(a'), Callbacks(a')}
    ensures Leads(s0, With(persist, Some(a'), p))
  {
    var s, s' := With(persist, Some(a), p), With(persist, Some(a'), p);
    assert !Occupied(s, 0);
    assert s.arenas[0 := a'] == map[0 := a'];
    if TimerOn(a, persist, false, true, "") == Keep(a') {
      OneStep(s, OfArena(ArenaTimer(0, true, "")), s');
    } else {
      var s1 := s'.(round := Some(Round(0, 0)));
      OneStep(s, OfArena(ArenaTimer(0, true, "")), s1);
      OneStep(s1, OfArena(EndCallbacks), s');
      LeadsOn(s, s1, s');
    }
    LeadsOn(s0, s, s');
  }

  lemma ArenaSyncs(s0: State, persist: bool, a: Arena, p: Player)
    requires Leads(s0, With(persist, Some(a), p)) && a.syncs == 1
    ensures Leads(s0, With(persist, Some(ArenaSynced(a).(syncs := 0)), p))
  {
    var s, a' := With(persist, Some(a), p), ArenaSynced(a).(syncs := 0);
    assert s.arenas[0 := a'] == map[0 := a'];
    OneStep(s, OfArena(ArenaSyncCompletes(0)), With(persist, Some(a'), p));
    LeadsOn(s0, s, With(persist, Some(a'), p));
  }

  function ArenaIn(name: string, status: ArenaStatus): Arena { Arena(name, status, 0, false, false, false, 0, map[]) }

  lemma ArenaComesUp(s0: State, persist: bool, name: string, p: Player)
    requires Leads(s0, With(persist, Some(ArenaIn(name, DoInit0)), p)) && p.arena.None?
    ensures Leads(s0, With(persist, Some(ArenaIn(name, Running)), p))
  {
    Visit(s0, persist, ArenaIn(name, DoInit0), p, ArenaIn(name, WaitHolds0));
    Visit(s0, persist, ArenaIn(name, WaitHolds0), p, ArenaIn(name, WaitHolds1));
    var a := ArenaIn(name, WaitHolds1);
    if persist {
      Visit(s0, persist, a, p, ArenaIn(name, WaitSync1).(syncs := 1));
      ArenaSyncs(s0, persist, ArenaIn(name, WaitSync1).(syncs := 1), p);
      assert ArenaSynced(ArenaIn(name, WaitSync1).(syncs := 1)).(syncs := 0) == ArenaIn(name, Running);
    } else {
      Visit(s0, persist, a, p, ArenaIn(name, Running));
    }
  }

  // ---------------------------------------------------------------- the story

  /** A player in a given status, with nothing asked for and nothing outstanding. */
  function In(status: PlayerStatus, globally: bool, log: seq<Event>): Player {
    NEW_PLAYER.(status := status, doneGlobalSync := globally, doneGlobalCallbacks := log != [], log := log)
  }

  lemma HeConnects(persist: bool) returns (s0: State)
    ensures Initial(s0) && Leads(s0, With(persist, None, In(Connected, false, [])))
  {
    s0 := State(persist, map[], [], 0, None, None, 0, map[], [], 0, [], []);
    var s1 := s0.(players := map[0 := NEW_PLAYER], nextPlayer := 1);
    var s2 := s1.(players := map[0 := In(Connected, false, [])]);
    OneStep(s0, OfPlayer(Connects), s1);
    assert s1.players[0 := In(Connected, false, [])] == s2.players;
    OneStep(s1, OfPlayer(BecomesReady(0)), s2);
    LeadsOn(s0, s1, s2);
    assert [] + [0] == [0];
    OneStep(s2, OfPlayer(Listed(0)), With(persist, None, In(Connected, false, [])));
    LeadsOn(s0, s2, With(persist, None, In(Connected, false, [])));
  }

  lemma AuthPasses()
    ensures Passes(In(NeedAuth, false, []), In(WaitAuth, false, []).(auths := 1))
  {
  }

  lemma GlobalPasses()
    ensures Passes(In(NeedGlobalSync, false, []), In(DoGlobalCallbacks, true, []))
    ensures Passes(In(DoGlobalCallbacks, true, []), In(SendLoginResponse, true, [Connect]))
  {
    assert [] + [Connect] == [Connect];
  }

  lemma ResponsePasses()
    ensures Passes(In(SendLoginResponse, true, [Connect]), In(LoggedIn, true, [Connect]))
  {
  }

  lemma HeIsAuthenticated(s0: State, persist: bool)
    requires Leads(s0, With(persist, None, In(Connected, false, [])))
    ensures Leads(s0, With(persist, None, In(NeedGlobalSync, false, [])))
  {
    var waiting := In(WaitAuth, false, []).(auths := 1);
    AuthPasses();
    HisStep(s0, persist, None, In(Connected, false, []), OfPlayer(Logins(0)), In(NeedAuth, false, []));
    OnePass(s0, persist, None, In(NeedAuth, false, []), waiting);
    HisStep(s0, persist, None, waiting, OfPass(AuthCompletes(0, true, None)), In(NeedGlobalSync, false, []));
  }

  lemma HeLogsIn(s0: State, persist: bool)
    requires Leads(s0, With(persist, None, In(Connected, false, [])))
    ensures Leads(s0, With(persist, None, In(LoggedIn, true, [Connect])))
  {
    HeIsAuthenticated(s0, persist);
    GlobalPasses();
    ResponsePasses();
    OnePass(s0, persist, None, In(NeedGlobalSync, false, []), In(DoGlobalCallbacks, true, []));
    OnePass(s0, persist, None, In(DoGlobalCallbacks, true, []), In(SendLoginResponse, true, [Connect]));
    OnePass(s0, persist, None, In(SendLoginResponse, true, [Connect]), In(LoggedIn, true, [Connect]));
  }

  lemma HeGoes(s0: State, persist: bool, name: string)
    requires Leads(s0, With(persist, None, In(LoggedIn, true, [Connect])))
    ensures Leads(s0, With(persist, Some(ArenaIn(name, DoInit0)), In(LoggedIn, true, [Connect]).(newarena := Some(0))))
  {
    var p, p' := In(LoggedIn, true, [Connect]), In(LoggedIn, true, [Connect]).(newarena := Some(0));
    var s, s' := With(persist, None, p), With(persist, Some(ArenaIn(name, DoInit0)), p');
    assert FindArena(s, name).None?;
    assert s.arenas[0 := ArenaIn(name, DoInit0)] == s'.arenas && s.players[0 := p'] == s'.players && [] + [0] == [0];
    OneStep(s, OfPlayer(Goes(0, name)), s');
    LeadsOn(s0, s, s');
  }

  /** Where he is on his way in. */
  function Entering(status: PlayerStatus, synced: bool, log: seq<Event>): Player {
    In(status, true, log).(arena := Some(0), doneArenaSync := synced)
  }

  const ENTERED := [Connect, PreEnter(Some(0)), Enter(Some(0))]

  lemma EntryPasses()
    ensures Passes(Entering(DoFreqAndArenaSync, false, [Connect]), Entering(ArenaRespAndCbs, true, [Connect, PreEnter(Some(0))]))
    ensures Passes(Entering(ArenaRespAndCbs, true, [Connect, PreEnter(Some(0))]), Entering(Playing, true, ENTERED))
  {
    assert [Connect] + [PreEnter(Some(0))] == [Connect, PreEnter(Some(0))];
    assert [Connect, PreEnter(Some(0))] + [Enter(Some(0))] == ENTERED;
  }

  lemma HeEnters(s0: State, persist: bool, name: string)
    requires Leads(s0, With(persist, Some(ArenaIn(name, Running)), In(LoggedIn, true, [Connect]).(newarena := Some(0))))
    ensures Leads(s0, With(persist, Some(ArenaIn(name, Running)), Entering(Playing, true, ENTERED)))
  {
    var a := Some(ArenaIn(name, Running));
    var p := In(LoggedIn, true, [Connect]).(newarena := Some(0));
    WaitingPass(s0, persist, a, p);
    assert AwaitArena(p, true) == Entering(DoFreqAndArenaSync, false, [Connect]);
    EntryPasses();
    OnePass(s0, persist, a, Entering(DoFreqAndArenaSync, false, [Connect]),
            Entering(ArenaRespAndCbs, true, [Connect, PreEnter(Some(0))]));
    OnePass(s0, persist, a, Entering(ArenaRespAndCbs, true, [Connect, PreEnter(Some(0))]), Entering(Playing, true, ENTERED));
  }

  /** Somebody plays: with persist or without it, in an arena of any name, a reachable
      state has a player PLAYING in a RUNNING arena after the documented callbacks. */
  lemma SomebodyPlays(persist: bool, name: string) returns (s: State)
    ensures Reachable(s) && s.persist == persist && 0 in s.players && 0 in s.arenas
    ensures s.arenas[0].name == name && s.arenas[0].status.Running?
    ensures s.players[0].status.Playing? && s.players[0].arena == Some(0)
    ensures s.players[0].log == ENTERED
  {
    var s0 := HeConnects(persist);
    HeLogsIn(s0, persist);
    HeGoes(s0, persist, name);
    ArenaComesUp(s0, persist, name, In(LoggedIn, true, [Connect]).(newarena := Some(0)));
    HeEnters(s0, persist, name);
    s := With(persist, Some(ArenaIn(name, Running)), Entering(Playing, true, ENTERED));
  }

  // ---------------------------------------------------------------- and back

  const LEFT := ENTERED + [Leave(Some(0))]

  /** He has been kicked and is on his way out. */
  function Going(status: PlayerStatus, synced: bool, log: seq<Event>): Player {
    Entering(status, synced, log).(kicked := true)
  }

  lemma LeavePasses()
    ensures Passes(Going(LeavingArena, true, ENTERED), Going(DoArenaSync2, true, LEFT))
  {
  }

  lemma SyncOutPasses()
    ensures Passes(Going(DoArenaSync2, true, LEFT), Going(LoggedIn, false, LEFT))
  {
  }

  lemma DisconnectPasses()
    ensures Passes(In(LeavingZone, true, LEFT), In(TimeWait, false, LEFT + [Disconnect]))
  {
  }

  lemma HeLeavesTheArena(s0: State, persist: bool, a: Option<Arena>)
    requires Leads(s0, With(persist, a, Entering(Playing, true, ENTERED)))
    ensures Leads(s0, With(persist, a, Going(LoggedIn, false, LEFT)))
  {
    HisStep(s0, persist, a, Entering(Playing, true, ENTERED), OfPlayer(Kicks(0)), Going(LeavingArena, true, ENTERED));
    LeavePasses();
    SyncOutPasses();
    OnePass(s0, persist, a, Going(LeavingArena, true, ENTERED), Going(DoArenaSync2, true, LEFT));
    OnePass(s0, persist, a, Going(DoArenaSync2, true, LEFT), Going(LoggedIn, false, LEFT));
  }

  lemma HeLeaves(s0: State, persist: bool, a: Option<Arena>)
    requires Leads(s0, With(persist, a, Entering(Playing, true, ENTERED)))
    ensures Leads(s0, With(persist, a, In(TimeWait, false, LEFT + [Disconnect])))
  {
    HeLeavesTheArena(s0, persist, a);
    WaitingPass(s0, persist, a, Going(LoggedIn, false, LEFT));
    assert AwaitArena(Going(LoggedIn, false, LEFT), false) == In(LeavingZone, true, LEFT);
    DisconnectPasses();
    OnePass(s0, persist, a, In(LeavingZone, true, LEFT), In(TimeWait, false, LEFT + [Disconnect]));
  }

  /** And leaves: a kick takes him through every callback to TIMEWAIT, from where he may
      be freed. */
  lemma SomebodyLeaves(persist: bool, name: string) returns (s: State)
    ensures Reachable(s) && s.persist == persist && 0 in s.players
    ensures s.players[0].status.TimeWait? && s.players[0].log == LEFT + [Disconnect]
    ensures Enabled(s, OfPlayer(Freed(0)))
  {
    var s0 := HeConnects(persist);
    HeLogsIn(s0, persist);
    HeGoes(s0, persist, name);
    ArenaComesUp(s0, persist, name, In(LoggedIn, true, [Connect]).(newarena := Some(0)));
    HeEnters(s0, persist, name);
    HeLeaves(s0, persist, Some(ArenaIn(name, Running)));
    s := With(persist, Some(ArenaIn(name, Running)), In(TimeWait, false, LEFT + [Disconnect]));
  }
}
