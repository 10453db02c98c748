/** The timers and handlers of arenaman.c, core.c and player.c as they update the
    server in place, each proved against the steps of the protocol. */
module Server {
  import opened Options
  import opened Lifecycle
  import opened LifecycleInvariant
  import opened LifecycleSafety
  import opened LifecyclePlayers
  import opened LifecyclePass
  import opened LifecycleArenas
  import opened LifecycleTheorems

  // ------------------------------------------- a player pass, as a run of steps

  function ScanAll(s: State): State
    decreases |s.scan|
  {
    if s.scan == [] || s.scan[0] !in s.players then s else ScanAll(Scan(s))
  }

  function ActAll(s: State, canAuth: PlayerId -> bool): State
    decreases |s.actions|
  {
    if s.actions == [] || s.actions[0] !in s.players || s.players[s.actions[0]].pending.None? then s
    else ActAll(RunAction(s, canAuth(s.actions[0])), canAuth)
  }

  /** process_player_states from start to end. */
  function PlayerPass(s: State, canAuth: PlayerId -> bool): State {
    ActAll(ScanAll(s.(scan := s.playerList)), canAuth)
  }

  /** One whole player pass: it begins, visits every listed player once, and then runs
      every pending action, each player being authenticated if he can be. */
  ghost predicate IsPlayerPass(steps: seq<Step>, listed: nat, acted: seq<PlayerId>, canAuth: PlayerId -> bool) {
    && |steps| == 1 + listed + |acted|
    && steps[0] == OfPass(PassBegins)
    && (forall i | 1 <= i <= listed :: steps[i] == OfPass(PassScans))
    && (forall i | 0 <= i < |acted| :: steps[1 + listed + i] == OfPass(PassActs(canAuth(acted[i]))))
  }

  /** Everyone with an entry in the pending-action list has something pending, and the
      players still to be scanned are there and have no entry. */
  ghost predicate MidPass(s: State) {
    && NoDup(s.actions) && NoDup(s.scan)
    && (forall p :: p in s.actions ==> p in s.players && s.players[p].pending.Some?)
    && (forall p :: p in s.scan ==> p in s.players && p !in s.actions)
  }

  lemma ScanMidPass(s: State)
    requires MidPass(s) && s.scan != []
    ensures s.scan[0] in s.players && MidPass(Scan(s))
  {
    assert s.scan[0] in s.scan;
    TailOfNoDup(s.scan);
  }

  lemma SyncKeepsPending(s: State, id: PlayerId, ask: bool)
    requires id in s.players
    ensures var s' := RequestSync(s, id, ask);
            && s'.actions == s.actions && s'.scan == s.scan && s'.players.Keys == s.players.Keys
            && forall p | p in s.players :: s'.players[p].pending == s.players[p].pending
  {
  }

  /** One action touches nobody else's pending action. */
  lemma RunActionPending(s: State, canAuth: bool)
    requires s.actions != [] && s.actions[0] in s.players && s.players[s.actions[0]].pending.Some?
    ensures var s' := RunAction(s, canAuth);
            && s'.actions == s.actions[1..] && s'.scan == s.scan && s'.players.Keys == s.players.Keys
            && forall p | p in s.players && p != s.actions[0] :: s'.players[p].pending == s.players[p].pending
  {
    var id := s.actions[0];
    var p := s.players[id];
    var p' := if p.pending.value.NeedAuth? && !canAuth then Kick(Act(p, canAuth)) else Act(p, canAuth);
    SyncKeepsPending(s.(actions := s.actions[1..]).WithPlayer(id, p'), id, AsksPersist(s.persist, p));
  }

  lemma RunActionMidPass(s: State, canAuth: bool)
    requires MidPass(s) && s.actions != []
    ensures s.actions[0] in s.players && s.players[s.actions[0]].pending.Some?
    ensures MidPass(RunAction(s, canAuth))
    ensures RunAction(s, canAuth).actions == s.actions[1..] && RunAction(s, canAuth).scan == s.scan
  {
    assert s.actions[0] in s.actions;
    RunActionPending(s, canAuth);
    TailOfNoDup(s.actions);
  }

  lemma RunsCons(s: State, step: Step, rest: seq<Step>, s': State)
    requires Enabled(s, step) && Runs(Apply(s, step), rest, s')
    ensures Runs(s, [step] + rest, s')
  {
  }

  lemma {:induction false} ScanAllRuns(s: State) returns (steps: seq<Step>)
    requires MidPass(s)
    ensures Runs(s, steps, ScanAll(s)) && MidPass(ScanAll(s)) && ScanAll(s).scan == []
    ensures |steps| == |s.scan| && forall i | 0 <= i < |steps| :: steps[i] == OfPass(PassScans)
    decreases |s.scan|
  {
    if s.scan == [] {
      steps := [];
    } else {
      ScanMidPass(s);
      var rest := ScanAllRuns(Scan(s));
      RunsCons(s, OfPass(PassScans), rest, ScanAll(s));
      steps := [OfPass(PassScans)] + rest;
    }
  }

  lemma {:induction false} ActAllRuns(s: State, canAuth: PlayerId -> bool) returns (steps: seq<Step>)
    requires MidPass(s) && s.scan == []
    ensures Runs(s, steps, ActAll(s, canAuth))
    ensures ActAll(s, canAuth).scan == [] && ActAll(s, canAuth).actions == []
    ensures |steps| == |s.actions| && forall i | 0 <= i < |steps| :: steps[i] == OfPass(PassActs(canAuth(s.actions[i])))
    decreases |s.actions|
  {
    if s.actions == [] {
      steps := [];
    } else {
      var auth := canAuth(s.actions[0]);
      RunActionMidPass(s, auth);
      var rest := ActAllRuns(RunAction(s, auth), canAuth);
      RunsCons(s, OfPass(PassActs(auth)), rest, ActAll(s, canAuth));
      steps := [OfPass(PassActs(auth))] + rest;
    }
  }

  lemma {:induction false} RunsChain(s: State, first: seq<Step>, middle: State, second: seq<Step>, s': State)
    requires Runs(s, first, middle) && Runs(middle, second, s')
    ensures Runs(s, first + second, s')
    decreases |first|
  {
    if first == [] {
      assert first + second == second;
    } else {
      RunsChain(Apply(s, first[0]), first[1..], middle, second, s');
      assert (first + second)[1..] == first[1..] + second;
    }
  }

  /** Where a pass can start: the list is in order and the last pass is over. */
  ghost predicate PassCanStart(s: State) {
    s.scan == [] && s.actions == [] && PlayerListOk(s)
  }

  lemma PassShape(first: seq<Step>, second: seq<Step>, acted: seq<PlayerId>, canAuth: PlayerId -> bool)
    requires forall i | 0 <= i < |first| :: first[i] == OfPass(PassScans)
    requires |second| == |acted| && forall i | 0 <= i < |second| :: second[i] == OfPass(PassActs(canAuth(acted[i])))
    ensures IsPlayerPass([OfPass(PassBegins)] + (first + second), |first|, acted, canAuth)
  {
    var steps := [OfPass(PassBegins)] + (first + second);
    forall i | 1 <= i <= |first| ensures steps[i] == OfPass(PassScans) {
      assert steps[i] == first[i - 1];
    }
    forall i | 0 <= i < |acted| ensures steps[1 + |first| + i] == OfPass(PassActs(canAuth(acted[i]))) {
      assert steps[1 + |first| + i] == second[i];
    }
  }

  /** A call of process_player_states is a run of the protocol: a pass that scans every
      listed player once, in order, and then runs every pending action. */
  lemma PlayerPassRuns(s: State, canAuth: PlayerId -> bool) returns (steps: seq<Step>, acted: seq<PlayerId>)
    requires PassCanStart(s)
    ensures IsPlayerPass(steps, |s.playerList|, acted, canAuth)
    ensures Runs(s, steps, PlayerPass(s, canAuth))
    ensures PlayerPass(s, canAuth).scan == [] && PlayerPass(s, canAuth).actions == []
  {
    var s1 := s.(scan := s.playerList);
    var first := ScanAllRuns(s1);
    var second := ActAllRuns(ScanAll(s1), canAuth);
    acted := ScanAll(s1).actions;
    RunsChain(s1, first, ScanAll(s1), second, PlayerPass(s, canAuth));
    RunsCons(s, OfPass(PassBegins), first + second, PlayerPass(s, canAuth));
    PassShape(first, second, acted, canAuth);
    steps := [OfPass(PassBegins)] + (first + second);
  }

  // ------------------------------------------------------ telling the arena

  /** The statuses in which a player who leaves is said to be leaving: those of someone
      playing, and those in which he should not have an arena at all. */
  predicate TellsArena(status: PlayerStatus) { status.Playing? || status.TimeWait? || status.BeforeLogin() }

  // ------------------------------------------------------------- arena names

  const NAME_SIZE := 16

  predicate IsLower(c: char) { 'a' <= c <= 'z' || '0' <= c <= '9' }

  predicate IsUpper(c: char) { 'A' <= c <= 'Z' }

  /** One character of a requested name, cleaned up. */
  function Legal(c: char, first: bool): char {
    if c == '#' && first then c
    else if IsLower(c) then c
    else if IsUpper(c) then c - 'A' + 'a'
    else 'x'
  }

  /** A requested name, cut to what the buffer holds and cleaned up. */
  function Cleaned(req: string): (name: string) {
    seq(if |req| < NAME_SIZE then |req| else NAME_SIZE - 1, i requires 0 <= i < |req| => Legal(req[i], i == 0))
  }

  /** The arena a request is for: an empty name is placed by another module. */
  function NameFor(req: string, placed: string): string {
    if Cleaned(req) == "" then placed else Cleaned(req)
  }

  /** Names of arenas made from requests are short, lower case, alphanumeric but for a
      leading pound sign, and requesting such a name gets that very name. */
  lemma CleanedIsClean(req: string)
    ensures |Cleaned(req)| < NAME_SIZE && Cleaned(Cleaned(req)) == Cleaned(req)
    ensures forall i | 0 <= i < |Cleaned(req)| :: IsLower(Cleaned(req)[i]) || (i == 0 && Cleaned(req)[i] == '#')
    ensures |req| < NAME_SIZE && (forall i | 0 <= i < |req| :: IsLower(req[i]) || (i == 0 && req[i] == '#')) ==>
              Cleaned(req) == req
  {
  }

  /** What cleaning a name up does: at most 15 characters are kept, each in its place;
      a pound sign only in front, digits and lower case anywhere, capitals in lower case,
      and anything else becomes an x. */
  lemma CleanedIs(req: string, i: nat)
    ensures |Cleaned(req)| == if |req| <= 15 then |req| else 15
    ensures i < |Cleaned(req)| ==>
              var c, c' := req[i], Cleaned(req)[i];
              if 'a' <= c <= 'z' || '0' <= c <= '9' || (c == '#' && i == 0) then c' == c
              else if 'A' <= c <= 'Z' then c' as int == c as int + 32 && 'a' <= c' <= 'z'
              else c' == 'x'
  {
  }

  /** A request for an arena is two steps of the protocol: he leaves the arena he is in, and
      asks for the one named, or for the one he is placed in if he names none. */
  lemma RequestRuns(s: State, p: PlayerId, req: string, placed: string)
    requires s.PlayerLockFree() && s.ArenaLockFree() && p in s.players
    requires s.players[p].status.LoggedIn? || s.players[p].status.Playing? || s.players[p].status.LeavingArena?
    ensures Runs(s, [OfPlayer(Leaves(p)), OfPlayer(Goes(p, if req == "" then placed else Cleaned(req)))],
                 GoTo(s.WithPlayer(p, LeaveArena(s.players[p])), p, NameFor(req, placed)))
  {
    assert Cleaned(req) == "" <==> req == "";
    var s1 := s.WithPlayer(p, LeaveArena(s.players[p]));
    var go := OfPlayer(Goes(p, NameFor(req, placed)));
    RunsCons(s1, go, [], GoTo(s1, p, NameFor(req, placed)));
    assert [go] + [] == [go] && [OfPlayer(Leaves(p))] + [go] == [OfPlayer(Leaves(p)), go];
    RunsCons(s, OfPlayer(Leaves(p)), [go], GoTo(s1, p, NameFor(req, placed)));
  }

  /** A recycle is both its halves, with nothing in between. */
  lemma RecycleRuns(s: State, a: ArenaId)
    requires s.PlayerLockFree() && s.ArenaLockFree() && a in s.arenas && s.arenas[a].status.Running?
    ensures Runs(s, [OfArena(RecycleMarks(a)), OfArena(RecycleCloses)], RecycleClose(RecycleMark(s, a)))
  {
    var s1 := RecycleMark(s, a);
    RunsCons(s1, OfArena(RecycleCloses), [], RecycleClose(s1));
    assert [OfArena(RecycleCloses)] + [] == [OfArena(RecycleCloses)];
    RunsCons(s, OfArena(RecycleMarks(a)), [OfArena(RecycleCloses)], RecycleClose(s1));
    assert [OfArena(RecycleMarks(a))] + [OfArena(RecycleCloses)] == [OfArena(RecycleMarks(a)), OfArena(RecycleCloses)];
  }

  /** Whoever leaves is said to be leaving exactly if he is playing, or in TIMEWAIT with an
      arena, where somebody comes who was kicked just when his next arena was ready. */
  lemma ToldIff(s: State, p: PlayerId)
    requires Reachable(s) && p in s.players && s.players[p].arena.Some?
    ensures TellsArena(s.players[p].status) <==> s.players[p].status.Playing? || s.players[p].status.TimeWait?
  {
    ReachableOk(s);
    assert PlayerOk(s.players[p], p in s.playerList);
  }

  // ---------------------------------------------------------------- in place

  class Zone {
    const persist: bool
    var arenas: map<ArenaId, Arena>
    var arenaList: seq<ArenaId>
    var nextArena: nat
    var round: Option<Round>
    var recycling: Option<ArenaId>
    var nextWorker: nat
    var players: map<PlayerId, Player>
    var playerList: seq<PlayerId>
    var nextPlayer: nat
    var scan: seq<PlayerId>
    var actions: seq<PlayerId>

    ghost function Snapshot(): State
      reads this
    {
      State(persist, arenas, arenaList, nextArena, round, recycling, nextWorker,
            players, playerList, nextPlayer, scan, actions)
    }

    constructor (persist: bool)
      ensures Initial(Snapshot()) && Inv(Snapshot())
    {
      this.persist := persist;
      arenas, arenaList, nextArena := map[], [], 0;
      round, recycling, nextWorker := None, None, 0;
      players, playerList, nextPlayer := map[], [], 0;
      scan, actions := [], [];
      new;
      InitialOk(Snapshot());
    }

    // ------------------------------------------------------ small handlers

    /** initiate_leave_arena under LeaveArena's lock; `notify` tells the caller to tell
        the arena. */
    method LeaveArena(p: PlayerId) returns (notify: bool)
      requires p in players
      modifies this`players
      ensures players == old(players)[p := Lifecycle.LeaveArena(old(players)[p])]
      ensures notify <==> old(players)[p].arena.Some? && TellsArena(old(players)[p].status)
    {
      var player := players[p];
      notify := false;
      if player.arena.None? { return; }
      match player.status
      case LoggedIn =>
      case DoFreqAndArenaSync => players := players[p := player.(status := LoggedIn)];
      case WaitArenaSync1 => players := players[p := player.(leaveWhenDone := true)];
      case ArenaRespAndCbs => players := players[p := player.(status := DoArenaSync2)];
      case Playing =>
        players := players[p := player.(status := LeavingArena)];
        notify := true;
      case LeavingArena =>
      case DoArenaSync2 =>
      case WaitArenaSync2 =>
      case LeavingZone =>
      case WaitGlobalSync2 =>
      case _ => notify := true;
    }

    method KickPlayer(p: PlayerId)
      requires p in players
      modifies this`players
      ensures players == old(players)[p := Kick(old(players)[p])]
    {
      if players[p].arena.Some? {
        var _ := LeaveArena(p);
      }
      players := players[p := players[p].(kicked := true)];
    }

    method Hold(a: ArenaId)
      requires a in arenas
      modifies this`arenas
      ensures a in arenas && arenas[a].status == old(arenas)[a].status
      ensures arenas[a].holds == old(arenas)[a].holds + if old(arenas)[a].status.WaitsForHolds() then 1 else 0
      ensures arenas == old(arenas)[a := Lifecycle.Hold(old(arenas)[a])]
    {
      var status := arenas[a].status;
      if status.WaitHolds0? || status.WaitHolds1? || status.WaitHolds2? {
        arenas := arenas[a := arenas[a].(holds := arenas[a].holds + 1)];
      }
    }

    method Unhold(a: ArenaId)
      requires a in arenas
      modifies this`arenas
      ensures a in arenas && arenas[a].status == old(arenas)[a].status
      ensures arenas[a].holds == if old(arenas)[a].status.WaitsForHolds() && old(arenas)[a].holds > 0
                                 then old(arenas)[a].holds - 1 else old(arenas)[a].holds
      ensures arenas == old(arenas)[a := Lifecycle.Unhold(old(arenas)[a])]
    {
      var status := arenas[a].status;
      if (status.WaitHolds0? || status.WaitHolds1? || status.WaitHolds2?) && arenas[a].holds > 0 {
        arenas := arenas[a := arenas[a].(holds := arenas[a].holds - 1)];
      }
    }

    /** arena_sync_done. */
    method ArenaSyncDone(a: ArenaId)
      requires a in arenas
      modifies this`arenas
      ensures a in arenas && arenas[a].holds == old(arenas)[a].holds
      ensures arenas[a].status == match old(arenas)[a].status
                                  case WaitSync1 => Running
                                  case WaitSync2 => DoDestroy1
                                  case other => other
      ensures arenas == old(arenas)[a := ArenaSynced(old(arenas)[a])]
    {
      if arenas[a].status.WaitSync1? {
        arenas := arenas[a := arenas[a].(status := Running)];
      } else if arenas[a].status.WaitSync2? {
        arenas := arenas[a := arenas[a].(status := DoDestroy1)];
      }
    }

    // --------------------------------------------------------- player pass

    /** First loop of process_player_states, for one player. */
    method ScanOne(id: PlayerId)
      requires scan != [] && scan[0] == id && id in players
      modifies this`scan, this`players, this`actions
      ensures Snapshot() == Scan(old(Snapshot()))
    {
      scan := scan[1..];
      var player := players[id];
      var next: PlayerStatus;
      match player.status {
        case Connected => AwaitInPlace(id); return;
        case LoggedIn => AwaitInPlace(id); return;
        case NeedAuth => next := WaitAuth;
        case NeedGlobalSync => next := WaitGlobalSync1;
        case DoGlobalCallbacks => next := SendLoginResponse;
        case SendLoginResponse => next := LoggedIn;
        case DoFreqAndArenaSync => next := WaitArenaSync1;
        case ArenaRespAndCbs => next := Playing;
        case LeavingArena => next := DoArenaSync2;
        case DoArenaSync2 => next := WaitArenaSync2;
        case LeavingZone => next := WaitGlobalSync2;
        case _ => return;
      }
      players := players[id := player.(status := next, pending := Some(player.status))];
      actions := actions + [id];
    }

    method AwaitInPlace(id: PlayerId)
      requires id in players
      modifies this`players
      ensures players == old(players)[id := AwaitArena(old(players)[id], NextArenaRuns(old(Snapshot()), old(players)[id]))]
    {
      var player := players[id].(arena := None);
      if player.newarena.Some? && player.newarena.value in arenas && arenas[player.newarena.value].status.Running? {
        player := player.(arena := player.newarena, newarena := None, status := DoFreqAndArenaSync);
      }
      if player.kicked {
        player := player.(status := LeavingZone, kicked := false);
      }
      players := players[id := player];
    }

    /** The work that goes with each old status, on the player's own record. */
    method ActInPlace(id: PlayerId, canAuth: bool)
      requires id in players && players[id].pending.Some?
      modifies this`players
      ensures players == old(players)[id := Act(old(players)[id], canAuth)]
    {
      var p := ActOnRecord(players[id], canAuth);
      players := players[id := p];
    }

    method ActOnRecord(was: Player, canAuth: bool) returns (p: Player)
      requires was.pending.Some?
      ensures p == Act(was, canAuth)
    {
      match was.pending.value {
      case NeedAuth => p := was.(pending := None, auths := if canAuth then was.auths + 1 else was.auths);
      case NeedGlobalSync => p := was.(pending := None, doneGlobalSync := true);
      case DoGlobalCallbacks => p := was.(pending := None, log := was.log + [Connect], doneGlobalCallbacks := true);
      case DoFreqAndArenaSync =>
        p := was.(pending := None, log := was.log + [PreEnter(was.arena)], doneArenaSync := true);
      case ArenaRespAndCbs => p := was.(pending := None, log := was.log + [Enter(was.arena)]);
      case LeavingArena => p := was.(pending := None, log := was.log + [Leave(was.arena)]);
      case DoArenaSync2 => p := was.(pending := None, doneArenaSync := false);
      case LeavingZone => p := Disconnected(was);
      case _ => p := was.(pending := None);
      }
    }

    method Disconnected(was: Player) returns (p: Player)
      requires was.pending == Some(LeavingZone)
      ensures p == Act(was, false) == Act(was, true)
    {
      p := was.(pending := None, doneGlobalSync := false);
      if was.doneGlobalCallbacks { p := p.(log := p.log + [Disconnect]); }
    }

    /** Second loop of process_player_states, for one pending action: the record, and
        then the sync or the kick that ends the action. */
    method ActOne(id: PlayerId, canAuth: bool)
      requires actions != [] && actions[0] == id && id in players && players[id].pending.Some?
      modifies this`players, this`actions
      ensures Snapshot() == RunAction(old(Snapshot()), canAuth)
    {
      var p := players[id];
      var was := p.pending.value;
      actions := actions[1..];
      ActInPlace(id, canAuth);
      if was.NeedAuth? && !canAuth {
        KickPlayer(id);
        assert old(players)[id := Act(p, canAuth)][id := Kick(Act(p, canAuth))] == old(players)[id := Kick(Act(p, canAuth))];
      } else if SyncFollows(was) {
        if AsksPersist(persist, p) {
          players := players[id := players[id].(syncs := players[id].syncs + 1)];
        } else {
          PlayerSyncDone(id);
        }
      }
    }

    /** player_sync_done. */
    method PlayerSyncDone(id: PlayerId)
      requires id in players
      modifies this`players
      ensures Snapshot() == SyncDone(old(Snapshot()), id)
    {
      var p := players[id];
      match p.status
      case WaitArenaSync1 =>
        players := players[id := p.(status := if !p.leaveWhenDone then ArenaRespAndCbs else DoArenaSync2)];
      case WaitArenaSync2 => players := players[id := p.(status := LoggedIn)];
      case WaitGlobalSync1 => players := players[id := p.(status := DoGlobalCallbacks)];
      case WaitGlobalSync2 =>
        if p.replacedBy.Some? && p.replacedBy.value in players && players[p.replacedBy.value].status.WaitAuth? {
          Promote(id, p.replacedBy.value);
        } else {
          players := players[id := p.(status := TimeWait)];
        }
      case _ =>
        assert players[id := p] == players;
    }

    method Promote(id: PlayerId, q: PlayerId)
      requires id in players && q in players && players[id].replacedBy == Some(q)
      requires players[id].status.WaitGlobalSync2? && players[q].status.WaitAuth?
      modifies this`players
      ensures Snapshot() == SyncDone(old(Snapshot()), id)
    {
      var p' := players[id].(status := TimeWait, replacedBy := None);
      var q' := players[q].(status := NeedGlobalSync);
      assert players[q := q'][id := p'] == players[id := p'][q := q'];
      players := players[q := q'];
      players := players[id := p'];
    }

    /** AuthDone. `other` is what FindPlayer returns for the name. */
    method AuthDone(id: PlayerId, ok: bool, other: Option<PlayerId>)
      requires id in players && players[id].auths > 0
      requires other.Some? ==> other.value in players && other.value != id
      modifies this`players
      ensures Snapshot() == Lifecycle.AuthDone(old(Snapshot()), id, ok, other)
      ensures id in players && (!old(players)[id].status.WaitAuth? ==> players[id].status == old(players)[id].status)
      ensures old(players)[id].status.WaitAuth? ==>
                players[id].status == if !ok then Connected else if other.None? then NeedGlobalSync else WaitAuth
      ensures old(players)[id].status.WaitAuth? && ok && other.Some? ==>
                players[other.value].kicked && players[other.value].replacedBy == Some(id)
    {
      var p := players[id].(auths := players[id].auths - 1);
      if !p.status.WaitAuth? {
        players := players[id := p];
      } else if !ok {
        players := players[id := p.(status := Connected)];
      } else if other.None? {
        players := players[id := p.(status := NeedGlobalSync)];
      } else {
        players := players[id := p];
        var o := other.value;
        ghost var before := players;
        players := players[o := players[o].(replacedBy := Some(id))];
        KickPlayer(o);
        assert players == before[o := Kick(before[o].(replacedBy := Some(id)))];
      }
    }

    /** process_player_states: both loops. `canAuth` says whether each player can be
        authenticated when his turn comes. */
    method ProcessPlayerStates(canAuth: PlayerId -> bool)
      requires PassCanStart(Snapshot())
      modifies this`scan, this`players, this`actions
      ensures Snapshot() == PlayerPass(old(Snapshot()), canAuth)
    {
      scan := playerList;
      ghost var s1 := Snapshot();
      var i := 0;
      while i < |playerList|
        invariant 0 <= i <= |playerList| && scan == playerList[i..]
        invariant MidPass(Snapshot())
        invariant ScanAll(Snapshot()) == ScanAll(s1)
      {
        ScanMidPass(Snapshot());
        ScanOne(playerList[i]);
        i := i + 1;
      }
      while actions != []
        invariant MidPass(Snapshot())
        invariant ActAll(Snapshot(), canAuth) == ActAll(ScanAll(s1), canAuth)
        decreases |actions|
      {
        var id := actions[0];
        RunActionMidPass(Snapshot(), canAuth(id));
        ActOne(id, canAuth(id));
      }
    }

    // ------------------------------------------------- going and recycling

    /** do_find_arena. */
    method FindByName(name: string) returns (found: Option<ArenaId>)
      ensures found == FindArena(Snapshot(), name)
    {
      var i := 0;
      while i < |arenaList|
        invariant 0 <= i <= |arenaList|
        invariant FindArena(Snapshot(), name, i) == FindArena(Snapshot(), name)
      {
        if arenaList[i] in arenas && arenas[arenaList[i]].name == name {
          return Some(arenaList[i]);
        }
        i := i + 1;
      }
      return None;
    }

    /** complete_go: refuse a request from a bad status, clean the name up, leave the
        present arena, and set out for the named one. `placed` is the name an empty
        request gets. */
    method CompleteGo(p: PlayerId, req: string, placed: string) returns (accepted: bool)
      requires p in players
      modifies this`players, this`arenas, this`arenaList, this`nextArena
      ensures accepted <==> old(players)[p].status.LoggedIn? || old(players)[p].status.Playing?
                            || old(players)[p].status.LeavingArena?
      ensures !accepted ==> Snapshot() == old(Snapshot())
      ensures accepted ==>
                Snapshot() == GoTo(old(Snapshot()).WithPlayer(p, Lifecycle.LeaveArena(old(players)[p])), p, NameFor(req, placed))
    {
      var status := players[p].status;
      accepted := status.LoggedIn? || status.Playing? || status.LeavingArena?;
      if !accepted { return; }
      var name := CleanName(req);
      if name == "" { name := placed; }
      if players[p].arena.Some? {
        var _ := LeaveArena(p);
      } else {
        assert players == players[p := players[p]];
      }
      SetNewArena(p, name);
    }

    /** Remove all illegal characters, and lower the case. */
    method CleanName(req: string) returns (name: string)
      ensures name == Cleaned(req)
    {
      name := if |req| < NAME_SIZE then req else req[..NAME_SIZE - 1];
      var t := 0;
      while t < |name|
        invariant 0 <= t <= |name| == |Cleaned(req)|
        invariant forall i | 0 <= i < |name| :: name[i] == if i < t then Cleaned(req)[i] else req[i]
      {
        if name[t] == '#' && t == 0 {
        } else if !IsLower(name[t]) && !IsUpper(name[t]) {
          name := name[t := 'x'];
        } else if IsUpper(name[t]) {
          name := name[t := name[t] - 'A' + 'a'];
        }
        t := t + 1;
      }
    }

    method SetNewArena(p: PlayerId, name: string)
      requires p in players
      modifies this`players, this`arenas, this`arenaList, this`nextArena
      ensures Snapshot() == GoTo(old(Snapshot()), p, name)
    {
      FoundIsListed(Snapshot(), name, 0);
      var found := FindByName(name);
      var target;
      if found.None? {
        target := nextArena;
        arenas := arenas[target := Arena(name, DoInit0, 0, false, false, false, 0, map[])];
        arenaList := arenaList + [target];
        nextArena := nextArena + 1;
      } else {
        target := found.value;
        if arenas[target].status.PastRunning() {
          arenas := arenas[target := arenas[target].(resurrect := true)];
        }
      }
      players := players[p := players[p].(newarena := Some(target))];
    }

    /** RecycleArena, which refuses while a fake player is inside. */
    method RecycleArena(a: ArenaId, isFake: PlayerId -> bool) returns (ok: bool)
      requires a in arenas && recycling.None? && NoDup(playerList) && forall p :: p in playerList ==> p in players
      modifies this`players, this`arenas, this`recycling
      ensures ok <==> old(arenas)[a].status.Running? && !HoldsFake(old(Snapshot()), a, isFake)
      ensures !ok ==> Snapshot() == old(Snapshot())
      ensures ok ==> Snapshot() == RecycleClose(RecycleMark(old(Snapshot()), a))
    {
      if !arenas[a].status.Running? { return false; }
      var fake := FakeInside(a, isFake);
      if fake { return false; }
      MarkForReturn(a);
      recycling := Some(a);
      assert Snapshot() == RecycleMark(old(Snapshot()), a);
      arenas := arenas[a := arenas[a].(status := Closing, resurrect := true)];
      recycling := None;
      ok := true;
    }

    method FakeInside(a: ArenaId, isFake: PlayerId -> bool) returns (found: bool)
      ensures found == HoldsFake(Snapshot(), a, isFake)
    {
      for i := 0 to |playerList|
        invariant !exists j :: 0 <= j < i && InsideAndFake(Snapshot(), playerList[j], a, isFake)
      {
        if playerList[i] in players && players[playerList[i]].arena == Some(a) && isFake(playerList[i]) {
          assert InsideAndFake(Snapshot(), playerList[i], a, isFake);
          return true;
        }
      }
      return false;
    }

    method MarkForReturn(a: ArenaId)
      requires NoDup(playerList) && forall p :: p in playerList ==> p in players
      modifies this`players
      ensures players == RecycleMark(old(Snapshot()), a).players
    {
      var i := 0;
      while i < |playerList|
        invariant 0 <= i <= |playerList| && players.Keys == old(players).Keys
        invariant forall p :: p in players ==> players[p] == Marked(old(players)[p], a, p in playerList[..i])
      {
        var id := playerList[i];
        assert id !in playerList[..i];
        if players[id].arena == Some(a) {
          players := players[id := InitiateLeave(players[id]).(newarena := Some(a))];
        }
        i := i + 1;
      }
      assert playerList[..i] == playerList;
    }

    // --------------------------------------------------------- arena timers

    /** ProcessArenaStates, for one arena: the two switches. */
    method ProcessOne(id: ArenaId, detached: bool, rename: string)
      requires id in arenas
      modifies this`arenas, this`arenaList, this`round
      ensures Snapshot() == ProcessArena(old(Snapshot()), id, detached, rename)
    {
      var a := arenas[id];
      var status := FirstSwitch(a);
      match status {
        case DoInit0 => a := a.(status := WaitHolds0); round := Some(Round(id, 0));
        case DoInit1 => a := a.(status := WaitHolds1); round := Some(Round(id, 0));
        case DoInit2 =>
          if persist { a := a.(status := WaitSync1, syncs := a.syncs + 1); } else { a := a.(status := Running); }
        case DoWriteData =>
          var oops := SomebodyIn(id);
          if oops { a := a.(status := Running); }
          else if persist { a := a.(status := WaitSync2, syncs := a.syncs + 1); }
          else { a := a.(status := DoDestroy1); }
        case DoDestroy1 => a := a.(status := WaitHolds2); round := Some(Round(id, 0));
        case DoDestroy2 =>
          if !detached {
            a := a.(resurrect := false, reap := false, keepAlive := true, status := Running, name := rename);
          } else if a.resurrect {
            a := a.(resurrect := false, reap := false, holds := 0, status := DoInit0);
          } else {
            arenaList := Without(arenaList, id);
            arenas := arenas - {id};
            return;
          }
        case _ =>
      }
      arenas := arenas[id := a];
    }

    method FirstSwitch(a: Arena) returns (status: ArenaStatus)
      ensures status == AfterHolds(a)
    {
      status := a.status;
      match status
      case WaitHolds0 => if a.holds == 0 { status := DoInit1; }
      case WaitHolds1 => if a.holds == 0 { status := DoInit2; }
      case WaitHolds2 => if a.holds == 0 { status := DoDestroy2; }
      case _ =>
    }

    method SomebodyIn(id: ArenaId) returns (oops: bool)
      ensures oops == Occupied(Snapshot(), id)
    {
      oops := false;
      var i := 0;
      while i < |playerList|
        invariant 0 <= i <= |playerList|
        invariant oops <==> exists j :: 0 <= j < i && playerList[j] in players && players[playerList[j]].arena == Some(id)
      {
        if playerList[i] in players && players[playerList[i]].arena == Some(id) {
          oops := true;
          return;
        }
        i := i + 1;
      }
    }

    /** md_aaction and its like: queue the work first, hold for it afterwards. */
    method QueueAndHold()
      requires round.Some? && round.value.arena in arenas && round.value.unheld == 0
      modifies this`arenas, this`round, this`nextWorker
      ensures Snapshot() == MapCallback(old(Snapshot()))
    {
      var id := round.value.arena;
      var a := arenas[id];
      arenas := arenas[id := a.(workers := a.workers[nextWorker := Worker(a.status, None)])];
      nextWorker := nextWorker + 1;
      Hold(id);
      round := None;
    }

    /** ProcessArenaStates. */
    method ProcessArenaStates(detached: ArenaId -> bool, rename: ArenaId -> string)
      requires round.None?
      modifies this`arenas, this`arenaList, this`round, this`nextWorker
      ensures Snapshot() == ArenaPass(old(Snapshot()), old(arenaList), detached, rename)
    {
      var list := arenaList;
      var i := 0;
      while i < |list|
        invariant 0 <= i <= |list| && round.None?
        invariant ArenaPass(Snapshot(), list[i..], detached, rename)
                  == ArenaPass(old(Snapshot()), list, detached, rename)
      {
        var id := list[i];
        assert list[i..][0] == id && list[i..][1..] == list[i + 1..];
        if id in arenas {
          ProcessOne(id, detached(id), rename(id));
          if round.Some? { QueueAndHold(); }
        }
        i := i + 1;
      }
    }

    /** ReapArenas: guess who can go, spare the ones in use, and send the rest off. */
    method ReapArenas()
      requires NoDup(arenaList) && forall a :: a in arenaList <==> a in arenas
      modifies this`arenas
      ensures Snapshot() == Reap(old(Snapshot()))
      ensures forall a :: a in old(arenas) ==> a in arenas && Reaped(old(Snapshot()), a, old(arenas)[a], arenas[a].status)
    {
      MarkIdle();
      SpareUsed();
      StartReaping();
      forall a | a in arenas
        ensures arenas[a] == Doomed(Judged(old(arenas)[a], Occupied(old(Snapshot()), a), Wanted(old(Snapshot()), a)))
      {
        SparedByAll(players, playerList, a, old(arenas)[a]);
      }
      ReapByParts(old(Snapshot()), arenas);
      forall a | a in old(arenas) ensures a in arenas && Reaped(old(Snapshot()), a, old(arenas)[a], arenas[a].status) {
        ReapIsReaped(old(Snapshot()), a);
      }
    }

    method MarkIdle()
      requires NoDup(arenaList) && forall a :: a in arenaList <==> a in arenas
      modifies this`arenas
      ensures arenas.Keys == old(arenas).Keys
      ensures forall a :: a in arenas ==> arenas[a] == Judged(old(arenas)[a], false, false)
    {
      var i := 0;
      while i < |arenaList|
        invariant 0 <= i <= |arenaList| && arenas.Keys == old(arenas).Keys
        invariant forall j | 0 <= j < i :: arenas[arenaList[j]] == Judged(old(arenas)[arenaList[j]], false, false)
        invariant forall a :: a in arenas && a !in arenaList[..i] ==> arenas[a] == old(arenas)[a]
      {
        var id := arenaList[i];
        assert id !in arenaList[..i];
        var a := arenas[id];
        if a.status.Running? || a.status.Closing? {
          arenas := arenas[id := a.(reap := true)];
        } else {
          arenas := arenas[id := a.(reap := false)];
        }
        i := i + 1;
      }
      forall a | a in arenas ensures arenas[a] == Judged(old(arenas)[a], false, false) {
        assert a in arenaList;
      }
    }

    method SpareUsed()
      modifies this`arenas
      ensures arenas.Keys == old(arenas).Keys
      ensures forall a :: a in arenas ==> arenas[a] == SparedBy(players, playerList, |playerList|, a, old(arenas)[a])
    {
      var i := 0;
      while i < |playerList|
        invariant 0 <= i <= |playerList| && arenas.Keys == old(arenas).Keys
        invariant forall a :: a in arenas ==> arenas[a] == SparedBy(players, playerList, i, a, old(arenas)[a])
      {
        if playerList[i] in players {
          SpareFor(players[playerList[i]]);
        }
        i := i + 1;
      }
    }

    /** What one listed player changes: his arena stays, and the one he is waiting for
        stays too or, if it is closing, comes back. */
    method SpareFor(p: Player)
      modifies this`arenas
      ensures arenas.Keys == old(arenas).Keys
      ensures forall a :: a in arenas ==> arenas[a] == Spared(p, a, old(arenas)[a])
    {
      if p.arena.Some? { KeepArena(p.arena.value); }
      if p.newarena.Some? && p.arena != p.newarena { AwaitedArena(p.newarena.value); }
    }

    method KeepArena(id: ArenaId)
      modifies this`arenas
      ensures arenas.Keys == old(arenas).Keys
      ensures forall a :: a in arenas ==> arenas[a] == if a == id then Kept(old(arenas)[a]) else old(arenas)[a]
    {
      if id in arenas {
        arenas := arenas[id := arenas[id].(reap := false)];
      }
    }

    method AwaitedArena(id: ArenaId)
      modifies this`arenas
      ensures arenas.Keys == old(arenas).Keys
      ensures forall a :: a in arenas ==> arenas[a] == if a == id then Awaited(old(arenas)[a]) else old(arenas)[a]
    {
      if id in arenas {
        if arenas[id].status.Closing? {
          arenas := arenas[id := arenas[id].(resurrect := true)];
        } else {
          arenas := arenas[id := arenas[id].(reap := false)];
        }
      }
    }

    method StartReaping()
      requires NoDup(arenaList) && forall a :: a in arenaList <==> a in arenas
      modifies this`arenas
      ensures arenas.Keys == old(arenas).Keys
      ensures forall a :: a in arenas ==> arenas[a] == Doomed(old(arenas)[a])
    {
      var i := 0;
      while i < |arenaList|
        invariant 0 <= i <= |arenaList| && arenas.Keys == old(arenas).Keys
        invariant forall j | 0 <= j < i :: arenas[arenaList[j]] == Doomed(old(arenas)[arenaList[j]])
        invariant forall a :: a in arenas && a !in arenaList[..i] ==> arenas[a] == old(arenas)[a]
      {
        var id := arenaList[i];
        assert id !in arenaList[..i];
        var a := arenas[id];
        if a.reap && (a.status.Closing? || !a.keepAlive) {
          arenas := arenas[id := a.(status := DoWriteData)];
        }
        i := i + 1;
      }
      forall a | a in arenas ensures arenas[a] == Doomed(old(arenas)[a]) {
        assert a in arenaList;
      }
    }
  }

  predicate InsideAndFake(s: State, p: PlayerId, a: ArenaId, isFake: PlayerId -> bool) {
    p in s.players && s.players[p].arena == Some(a) && isFake(p)
  }

  predicate HoldsFake(s: State, a: ArenaId, isFake: PlayerId -> bool) {
    exists i :: 0 <= i < |s.playerList| && InsideAndFake(s, s.playerList[i], a, isFake)
  }

  /** A player after RecycleArena's loop has come past him, or not. */
  function Marked(p: Player, a: ArenaId, visited: bool): Player {
    if visited && p.arena == Some(a) then InitiateLeave(p).(newarena := Some(a)) else p
  }

  /** What a reaping makes of an arena's status: a RUNNING one goes that need not be kept and
      that no listed player is in or on his way into, a CLOSING one that nobody is in. */
  predicate Reaped(s: State, id: ArenaId, a: Arena, now: ArenaStatus) {
    match a.status
    case Running => now == if !a.keepAlive && !SomebodyIsIn(s, id) && !SomebodyAwaits(s, id) then DoWriteData else Running
    case Closing => now == if !SomebodyIsIn(s, id) then DoWriteData else Closing
    case _ => now == a.status
  }

  lemma ReapIsReaped(s: State, a: ArenaId)
    requires a in s.arenas
    ensures a in Reap(s).arenas && Reaped(s, a, s.arenas[a], Reap(s).arenas[a].status)
  {
    OccupiedMeans(s, a);
  }

  // -------------------------------------------- an arena pass, as a run of steps

  function MapCallback(s: State): State
    requires s.round.Some? && s.round.value.arena in s.arenas && s.round.value.unheld == 0
  {
    HoldRound(LaunchWorker(s)).(round := None)
  }

  function TimerVisit(s: State, id: ArenaId, detached: bool, rename: string): State
    requires s.round.None? && id in s.arenas
    ensures TimerVisit(s, id, detached, rename).round.None?
  {
    var s1 := ProcessArena(s, id, detached, rename);
    if s1.round.Some? then MapCallback(s1) else s1
  }

  /** ProcessArenaStates from start to end, one job being queued in each round of
      callbacks (mapdata.c for two of them, mapnewsdl.c for the third). */
  function ArenaPass(s: State, ids: seq<ArenaId>, detached: ArenaId -> bool, rename: ArenaId -> string): State
    requires s.round.None?
    decreases |ids|
  {
    if ids == [] then s
    else if ids[0] in s.arenas then
      ArenaPass(TimerVisit(s, ids[0], detached(ids[0]), rename(ids[0])), ids[1..], detached, rename)
    else ArenaPass(s, ids[1..], detached, rename)
  }

  /** The arenas the timer visits in a run, in order. */
  function Visits(steps: seq<Step>): seq<ArenaId> {
    if steps == [] then []
    else (if steps[0].OfArena? && steps[0].arenaStep.ArenaTimer? then [steps[0].arenaStep.arena] else []) + Visits(steps[1..])
  }

  lemma {:induction false} VisitsConcat(a: seq<Step>, b: seq<Step>)
    ensures Visits(a + b) == Visits(a) + Visits(b)
    decreases |a|
  {
    if a == [] {
      assert a + b == b;
    } else {
      assert (a + b)[1..] == a[1..] + b;
      VisitsConcat(a[1..], b);
    }
  }

  /** A visit by the timer, or a callback that queues a job and holds for it. */
  predicate IsVisit(step: Step, detached: ArenaId -> bool, rename: ArenaId -> string) {
    && step.OfArena?
    && match step.arenaStep
       case ArenaTimer(a, d, r) => d == detached(a) && r == rename(a)
       case QueueWork => true
       case HoldForWork => true
       case EndCallbacks => true
       case _ => false
  }

  lemma OtherArenasStay(s: State, id: ArenaId, detached: bool, rename: string)
    requires s.round.None? && id in s.arenas
    ensures s.arenas.Keys - {id} <= TimerVisit(s, id, detached, rename).arenas.Keys
  {
  }

  lemma VisitRuns(s: State, id: ArenaId, detached: bool, rename: string) returns (steps: seq<Step>)
    requires s.ArenaLockFree() && id in s.arenas
    ensures Runs(s, steps, TimerVisit(s, id, detached, rename))
    ensures TimerVisit(s, id, detached, rename).ArenaLockFree()
    ensures 1 <= |steps| <= 4 && steps[0] == OfArena(ArenaTimer(id, detached, rename))
    ensures forall i | 1 <= i < |steps| ::
              steps[i] in [OfArena(QueueWork), OfArena(HoldForWork), OfArena(EndCallbacks)]
  {
    var s1 := ProcessArena(s, id, detached, rename);
    if s1.round.Some? {
      var s2 := LaunchWorker(s1);
      var s3 := HoldRound(s2);
      RunsCons(s3, OfArena(EndCallbacks), [], s3.(round := None));
      RunsCons(s2, OfArena(HoldForWork), [OfArena(EndCallbacks)], s3.(round := None));
      RunsCons(s1, OfArena(QueueWork), [OfArena(HoldForWork), OfArena(EndCallbacks)], s3.(round := None));
      steps := [OfArena(QueueWork), OfArena(HoldForWork), OfArena(EndCallbacks)];
      assert [OfArena(HoldForWork)] + [OfArena(EndCallbacks)] == steps[1..];
    } else {
      steps := [];
    }
    RunsCons(s, OfArena(ArenaTimer(id, detached, rename)), steps, TimerVisit(s, id, detached, rename));
    steps := [OfArena(ArenaTimer(id, detached, rename))] + steps;
  }

  lemma OneVisit(steps: seq<Step>, id: ArenaId)
    requires 1 <= |steps| <= 4 && steps[0].OfArena? && steps[0].arenaStep.ArenaTimer? && steps[0].arenaStep.arena == id
    requires forall i | 1 <= i < |steps| ::
               steps[i] in [OfArena(QueueWork), OfArena(HoldForWork), OfArena(EndCallbacks)]
    ensures Visits(steps) == [id]
  {
    NoVisits(steps[1..]);
  }

  lemma {:induction false} NoVisits(steps: seq<Step>)
    requires forall i | 0 <= i < |steps| ::
               steps[i] in [OfArena(QueueWork), OfArena(HoldForWork), OfArena(EndCallbacks)]
    ensures Visits(steps) == []
  {
    if steps != [] { NoVisits(steps[1..]); }
  }

  /** Only visits and what their callbacks do, and one visit of each arena in order. */
  ghost predicate IsArenaPass(
      arenas: set<ArenaId>, steps: seq<Step>, ids: seq<ArenaId>, detached: ArenaId -> bool, rename: ArenaId -> string)
  {
    && (forall step | step in steps :: IsVisit(step, detached, rename))
    && (NoDup(ids) && (forall a :: a in ids ==> a in arenas) ==> Visits(steps) == ids)
  }

  lemma PassBeginsWith(
      before: set<ArenaId>, after: set<ArenaId>, first: seq<Step>, rest: seq<Step>, ids: seq<ArenaId>,
      detached: ArenaId -> bool, rename: ArenaId -> string)
    requires ids != [] && before - {ids[0]} <= after && IsArenaPass(after, rest, ids[1..], detached, rename)
    requires 1 <= |first| <= 4 && first[0] == OfArena(ArenaTimer(ids[0], detached(ids[0]), rename(ids[0])))
    requires forall i | 1 <= i < |first| ::
               first[i] in [OfArena(QueueWork), OfArena(HoldForWork), OfArena(EndCallbacks)]
    ensures IsArenaPass(before, first + rest, ids, detached, rename)
  {
    OneVisit(first, ids[0]);
    VisitsConcat(first, rest);
    if NoDup(ids) {
      TailOfNoDup(ids);
      assert [ids[0]] + ids[1..] == ids;
    }
  }

  /** A call of ProcessArenaStates is a run of the protocol, in which the timer visits every
      arena of the list once, in order. */
  lemma {:induction false} ArenaPassRuns(s: State, ids: seq<ArenaId>, detached: ArenaId -> bool, rename: ArenaId -> string)
    returns (steps: seq<Step>)
    requires s.ArenaLockFree()
    ensures Runs(s, steps, ArenaPass(s, ids, detached, rename))
    ensures IsArenaPass(s.arenas.Keys, steps, ids, detached, rename)
    decreases |ids|
  {
    if ids == [] {
      steps := [];
    } else if ids[0] in s.arenas {
      var s1 := TimerVisit(s, ids[0], detached(ids[0]), rename(ids[0]));
      var first := VisitRuns(s, ids[0], detached(ids[0]), rename(ids[0]));
      var rest := ArenaPassRuns(s1, ids[1..], detached, rename);
      RunsChain(s, first, s1, rest, ArenaPass(s, ids, detached, rename));
      steps := first + rest;
      OtherArenasStay(s, ids[0], detached(ids[0]), rename(ids[0]));
      PassBeginsWith(s.arenas.Keys, s1.arenas.Keys, first, rest, ids, detached, rename);
    } else {
      steps := ArenaPassRuns(s, ids[1..], detached, rename);
    }
  }

  // ------------------------------------------------------- reaping, by parts

  /** An arena after ReapArenas' first two loops. */
  function Judged(a: Arena, occupied: bool, wanted: bool): Arena {
    a.(reap := (a.status.Running? || a.status.Closing?) && !occupied && !(wanted && !a.status.Closing?),
       resurrect := a.resurrect || (wanted && a.status.Closing?))
  }

  /** ReapArenas' third loop. */
  function Doomed(a: Arena): Arena {
    a.(status := if a.reap && (a.status.Closing? || !a.keepAlive) then DoWriteData else a.status)
  }

  /** ReapArenas' second loop: one player's effect on one arena, and that of the first n. */
  function Spared(p: Player, id: ArenaId, a: Arena): Arena {
    var b := if p.arena == Some(id) then Kept(a) else a;
    if p.newarena == Some(id) && p.arena != Some(id) then Awaited(b) else b
  }

  function Kept(a: Arena): Arena { a.(reap := false) }

  function Awaited(a: Arena): Arena {
    if a.status.Closing? then a.(resurrect := true) else a.(reap := false)
  }

  function SparedBy(players: map<PlayerId, Player>, list: seq<PlayerId>, n: nat, id: ArenaId, a: Arena): Arena
    requires n <= |list|
  {
    if n == 0 then a
    else
      var b := SparedBy(players, list, n - 1, id, a);
      if list[n - 1] in players then Spared(players[list[n - 1]], id, b) else b
  }

  lemma {:induction false} SparedByFirst(players: map<PlayerId, Player>, list: seq<PlayerId>, n: nat, id: ArenaId, a: Arena)
    requires n <= |list|
    ensures SparedBy(players, list, n, id, Judged(a, false, false))
            == Judged(a, exists i :: 0 <= i < n && list[i] in players && players[list[i]].arena == Some(id),
                         exists i :: 0 <= i < n && list[i] in players && players[list[i]].newarena == Some(id)
                                     && players[list[i]].arena != Some(id))
  {
    if n > 0 { SparedByFirst(players, list, n - 1, id, a); }
  }

  lemma SparedByAll(players: map<PlayerId, Player>, list: seq<PlayerId>, id: ArenaId, a: Arena)
    ensures forall s: State | s.players == players && s.playerList == list ::
              SparedBy(players, list, |list|, id, Judged(a, false, false)) == Judged(a, Occupied(s, id), Wanted(s, id))
  {
    SparedByFirst(players, list, |list|, id, a);
  }

  lemma ReapByParts(s: State, arenas: map<ArenaId, Arena>)
    requires arenas.Keys == s.arenas.Keys
    requires forall a :: a in arenas ==> arenas[a] == Doomed(Judged(s.arenas[a], Occupied(s, a), Wanted(s, a)))
    ensures s.(arenas := arenas) == Reap(s)
  {
    assert forall a :: a in arenas ==> arenas[a] == ReapArena(s.arenas[a], Occupied(s, a), Wanted(s, a));
    assert arenas == Reap(s).arenas;
  }
}
