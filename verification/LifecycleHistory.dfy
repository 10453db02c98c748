/** What must have happened before: theorems about whole runs that say which steps lead to
    a state. */
module LifecycleHistory {
  import opened Options
  import opened Lifecycle
  import opened LifecycleInvariant
  import opened LifecycleArenas
  import opened LifecyclePass
  import opened LifecycleMoves
  import opened LifecycleTheorems

  // ------------------------------------------------------------ being let in

  /** Beyond WAIT_AUTH, and not yet on the way out of the zone. */
  predicate PastAuth(status: PlayerStatus) {
    && !status.Uninitialized? && !status.Connected? && !status.NeedAuth? && !status.WaitAuth?
    && !status.LeavingZone? && !status.WaitGlobalSync2? && !status.TimeWait?
  }

  ghost predicate Named(s: State, p: PlayerId) { exists q :: Replaces(s, p, q) }

  /** Let in, announced to anybody, or about to take over from a namesake. */
  ghost predicate Admitted(s: State, p: PlayerId) {
    p in s.players && (PastAuth(s.players[p].status) || s.players[p].log != [] || Named(s, p))
  }

  predicate Accepts(step: Step, p: PlayerId) {
    step.OfPass? && step.passStep.AuthCompletes? && step.passStep.player == p && step.passStep.ok
  }

  /** Only WAIT_AUTH leads past it. */
  lemma OnlyWayIn(from: PlayerStatus, to: PlayerStatus)
    requires Moves(from, to) && !PastAuth(from) && PastAuth(to)
    ensures from.WaitAuth? && to.NeedGlobalSync?
  {
  }

  /** Who starts his global sync, and who is named as a replacement, in one step. */
  lemma AuthAdmits(s: State, id: PlayerId, ok: bool, other: Option<PlayerId>, p: PlayerId)
    requires PassEnabled(s, AuthCompletes(id, ok, other)) && p in s.players && !Admitted(s, p)
    requires id != p || !ok
    ensures !Admitted(AuthDone(s, id, ok, other), p)
  {
    var s' := AuthDone(s, id, ok, other);
    AuthDoneMoves(s, id, ok, other, p);
    forall q ensures !Replaces(s', p, q) {
      assert !Replaces(s, p, q);
    }
  }

  /** Nobody is named who was not. */
  ghost predicate NamesKept(s: State, s': State) {
    && s'.players.Keys == s.players.Keys
    && forall q :: q in s.players ==> s'.players[q].replacedBy.None? || s'.players[q].replacedBy == s.players[q].replacedBy
  }

  lemma SyncDoneNames(s: State, id: PlayerId)
    requires id in s.players
    ensures NamesKept(s, SyncDone(s, id))
  {
  }

  lemma SyncDoneTells(s: State, id: PlayerId, p: PlayerId)
    requires id in s.players && p in s.players
    ensures SyncDone(s, id).players[p].log == s.players[p].log
    ensures p == id ==> SyncDone(s, id).players[p].status == SyncedStatus(s.players[id])
    ensures p == id || s.players[id].replacedBy == Some(p) || SyncDone(s, id).players[p].status == s.players[p].status
  {
  }

  lemma SyncedIsOut(p: Player)
    requires p.status.WaitsForSync() && !PastAuth(p.status)
    ensures !PastAuth(SyncedStatus(p))
  {
  }

  lemma StaysOut(s: State, s': State, p: PlayerId)
    requires p in s.players && !Admitted(s, p) && NamesKept(s, s')
    requires s'.players[p].log == s.players[p].log && !PastAuth(s'.players[p].status)
    ensures !Admitted(s', p)
  {
    forall q ensures !Replaces(s', p, q) {
      assert !Replaces(s, p, q);
    }
  }

  lemma NobodyNames(s: State, p: PlayerId, q: PlayerId)
    requires p in s.players && !Admitted(s, p) && q in s.players
    ensures s.players[q].replacedBy != Some(p) && !PastAuth(s.players[p].status)
  {
    assert !Replaces(s, p, q);
  }

  lemma SyncAdmits(s: State, id: PlayerId, p: PlayerId)
    requires id in s.players && p in s.players && !Admitted(s, p) && s.players[id].status.WaitsForSync()
    ensures !Admitted(SyncDone(s, id), p)
  {
    NobodyNames(s, p, id);
    SyncDoneNames(s, id);
    SyncDoneTells(s, id, p);
    if p == id { SyncedIsOut(s.players[id]); }
    StaysOut(s, SyncDone(s, id), p);
  }

  /** A step that only changes players, and names nobody. */
  lemma OthersAdmit(s: State, s': State, p: PlayerId)
    requires p in s.players && !Admitted(s, p) && NamesKept(s, s')
    requires s'.players[p].log == s.players[p].log && Moves(s.players[p].status, s'.players[p].status)
    requires s.players[p].status.WaitAuth? ==> !s'.players[p].status.NeedGlobalSync?
    ensures !Admitted(s', p)
  {
    if PastAuth(s'.players[p].status) { OnlyWayIn(s.players[p].status, s'.players[p].status); }
    StaysOut(s, s', p);
  }

  lemma ActionAdmits(s: State, canAuth: bool, p: PlayerId)
    requires Inv(s) && PassEnabled(s, PassActs(canAuth)) && p in s.players && !Admitted(s, p)
    ensures !Admitted(RunAction(s, canAuth), p)
  {
    var id := s.actions[0];
    assert PlayerOk(s.players[id], id in s.playerList);
    ActKeepsOut(s.players[id], canAuth);
    RanKeepsOut(s, canAuth, p, id);
  }

  /** The pending action of somebody who was not let in fires nothing. */
  lemma ActKeepsOut(p: Player, canAuth: bool)
    requires PlayerOk(p, true) && p.pending.Some?
    ensures Act(p, canAuth).log == p.log || p.log != [] || PastAuth(p.status)
    ensures SyncFollows(p.pending.value) ==> p.status.WaitsForSync()
  {
  }

  lemma RanKeepsOut(s: State, canAuth: bool, p: PlayerId, id: PlayerId)
    requires PassEnabled(s, PassActs(canAuth)) && p in s.players && !Admitted(s, p) && id == s.actions[0]
    requires Act(s.players[id], canAuth).log == s.players[id].log || s.players[id].log != [] || PastAuth(s.players[id].status)
    requires SyncFollows(s.players[id].pending.value) ==> s.players[id].status.WaitsForSync()
    ensures !Admitted(RunAction(s, canAuth), p)
  {
    var was := s.players[id];
    var acted := if was.pending.value.NeedAuth? && !canAuth then Kick(Act(was, canAuth)) else Act(was, canAuth);
    KickMoves(Act(was, canAuth));
    OthersAdmit(s, s.(actions := s.actions[1..]).WithPlayer(id, acted), p);
    if SyncFollows(was.pending.value) {
      RequestAdmits(s.(actions := s.actions[1..]).WithPlayer(id, acted), id, AsksPersist(s.persist, was), p);
    }
  }

  lemma RequestAdmits(s: State, id: PlayerId, ask: bool, p: PlayerId)
    requires id in s.players && p in s.players && !Admitted(s, p) && s.players[id].status.WaitsForSync()
    ensures !Admitted(RequestSync(s, id, ask), p)
  {
    if ask { StaysOut(s, RequestSync(s, id, ask), p); } else { SyncAdmits(s, id, p); }
  }

  lemma ScanAdmits(s: State, p: PlayerId)
    requires Inv(s) && PassEnabled(s, PassScans) && p in s.players && !Admitted(s, p)
    ensures !Admitted(Scan(s), p)
  {
    PassStepMoves(s, PassScans, p);
    ScanNames(s, p);
    OthersAdmit(s, Scan(s), p);
  }

  lemma ScanNames(s: State, p: PlayerId)
    requires PassEnabled(s, PassScans) && p in s.players
    ensures NamesKept(s, Scan(s)) && Scan(s).players[p].log == s.players[p].log
    ensures s.players[p].status.WaitAuth? ==> Scan(s).players[p].status.WaitAuth?
  {
    ScanIs(s, s.scan[0], s.players[s.scan[0]]);
  }

  lemma CompletionAdmits(s: State, id: PlayerId, p: PlayerId)
    requires id in s.players && s.players[id].syncs > 0 && s.players[id].status.WaitsForSync()
    requires p in s.players && !Admitted(s, p)
    ensures !Admitted(SyncAnswered(s, id), p)
  {
    var s1 := s.WithPlayer(id, s.players[id].(syncs := s.players[id].syncs - 1));
    StaysOut(s, s1, p);
    SyncAdmits(s1, id, p);
  }

  lemma PassAdmits(s: State, step: PassStep, p: PlayerId)
    requires Inv(s) && PassEnabled(s, step) && p in s.players && !Admitted(s, p) && !Accepts(OfPass(step), p)
    ensures !Admitted(PassApply(s, step), p)
  {
    match step
    case PassBegins => BeginAdmits(s, p);
    case PassScans => ScanAdmits(s, p);
    case PassActs(canAuth) => ActionAdmits(s, canAuth, p);
    case SyncCompletes(id) =>
      SyncFindsWaiting(s, id);
      CompletionAdmits(s, id, p);
    case AuthCompletes(id, ok, other) => AuthAdmits(s, id, ok, other, p);
  }

  lemma BeginAdmits(s: State, p: PlayerId)
    requires p in s.players && !Admitted(s, p)
    ensures !Admitted(s.(scan := s.playerList), p)
  {
    StaysOut(s, s.(scan := s.playerList), p);
  }

  // -------------------------------------------------- the other steps, and runs

  lemma PlayerAdmits(s: State, step: PlayerStep, p: PlayerId)
    requires PlayerEnabled(s, step) && p in s.players && !Admitted(s, p) && s.nextPlayer !in s.players
    ensures !Admitted(PlayerApply(s, step), p)
  {
    var s' := PlayerApply(s, step);
    if p in s'.players {
      PlayerStepTells(s, step, p);
      PlayerStepStays(s, step, p);
      forall q ensures !Replaces(s', p, q) {
        assert !Replaces(s, p, q);
        if q in s'.players && q in s.players { PlayerStepTells(s, step, q); }
      }
    }
  }

  lemma PlayerStepTells(s: State, step: PlayerStep, p: PlayerId)
    requires PlayerEnabled(s, step) && p in s.players && p in PlayerApply(s, step).players && s.nextPlayer !in s.players
    ensures PlayerApply(s, step).players[p].log == s.players[p].log
    ensures PlayerApply(s, step).players[p].replacedBy == s.players[p].replacedBy
  {
  }

  lemma PlayerStepStays(s: State, step: PlayerStep, p: PlayerId)
    requires PlayerEnabled(s, step) && p in s.players && p in PlayerApply(s, step).players && s.nextPlayer !in s.players
    requires !PastAuth(s.players[p].status)
    ensures !PastAuth(PlayerApply(s, step).players[p].status)
  {
    var from, to := s.players[p].status, PlayerApply(s, step).players[p].status;
    if step != LoginRejected(p) && PastAuth(to) {
      PlayerStepMoves(s, step, p);
      OnlyWayIn(from, to);
      NotByHimself(s, step, p);
    }
  }

  lemma NotByHimself(s: State, step: PlayerStep, p: PlayerId)
    requires PlayerEnabled(s, step) && p in s.players && p in PlayerApply(s, step).players && s.nextPlayer !in s.players
    requires s.players[p].status.WaitAuth?
    ensures !PlayerApply(s, step).players[p].status.NeedGlobalSync?
  {
  }

  lemma ArenaAdmits(s: State, step: ArenaStep, p: PlayerId)
    requires ArenaEnabled(s, step) && p in s.players && !Admitted(s, p)
    requires !s.players[p].status.NeedsArena()
    ensures !Admitted(ArenaApply(s, step), p)
  {
    ArenaStepTells(s, step, p);
    StaysOut(s, ArenaApply(s, step), p);
  }

  lemma ArenaStepTells(s: State, step: ArenaStep, p: PlayerId)
    requires ArenaEnabled(s, step) && p in s.players
    ensures NamesKept(s, ArenaApply(s, step)) && ArenaApply(s, step).players[p].log == s.players[p].log
    ensures !s.players[p].status.NeedsArena() ==> ArenaApply(s, step).players[p].status == s.players[p].status
  {
  }

  /** A player is there who was not: he has just connected. */
  lemma NewcomerIsOut(s: State, step: Step, p: PlayerId)
    requires Inv(s) && Enabled(s, step) && p !in s.players
    ensures !Admitted(Apply(s, step), p)
  {
    match step
    case OfArena(a) => SameCrowd(s, a);
    case OfPlayer(q) => if q.Connects? { NobodyNamesNew(s); } else { NoNewcomer(s, q, p); }
    case OfPass(q) => SameCrowdInPass(s, q);
  }

  lemma SameCrowd(s: State, step: ArenaStep)
    requires ArenaEnabled(s, step)
    ensures ArenaApply(s, step).players.Keys == s.players.Keys
  {
  }

  lemma NoNewcomer(s: State, step: PlayerStep, p: PlayerId)
    requires PlayerEnabled(s, step) && !step.Connects? && p !in s.players
    ensures p !in PlayerApply(s, step).players
  {
  }

  lemma SameCrowdInPass(s: State, step: PassStep)
    requires PassEnabled(s, step)
    ensures PassApply(s, step).players.Keys == s.players.Keys
  {
    match step
    case PassActs(canAuth) => SameCrowdInAction(s, canAuth);
    case _ =>
  }

  lemma SameCrowdInAction(s: State, canAuth: bool)
    requires PassEnabled(s, PassActs(canAuth))
    ensures RunAction(s, canAuth).players.Keys == s.players.Keys
  {
    var id := s.actions[0];
    SyncDoneNames(s.(actions := s.actions[1..]).WithPlayer(id, Act(s.players[id], canAuth)), id);
  }

  lemma NobodyNamesNew(s: State)
    requires Inv(s)
    ensures !Admitted(AddPlayer(s), s.nextPlayer)
  {
    forall q ensures !Replaces(AddPlayer(s), s.nextPlayer, q) {
      if q in s.players { assert ReplacementOf(s, s.players[q]); }
    }
  }

  lemma StepAdmits(s: State, step: Step, p: PlayerId)
    requires Inv(s) && Enabled(s, step) && !Admitted(s, p) && !Accepts(step, p)
    ensures !Admitted(Apply(s, step), p)
  {
    if p !in s.players {
      NewcomerIsOut(s, step, p);
    } else {
      match step
      case OfArena(a) => ArenaAdmits(s, a, p);
      case OfPlayer(q) =>
        assert s.nextPlayer !in s.players;
        PlayerAdmits(s, q, p);
      case OfPass(q) => PassAdmits(s, q, p);
    }
  }

  lemma {:induction false} RunAdmits(s: State, steps: seq<Step>, s': State, p: PlayerId) returns (i: nat)
    requires Inv(s) && Runs(s, steps, s') && !Admitted(s, p) && Admitted(s', p)
    ensures i < |steps| && Accepts(steps[i], p)
    decreases |steps|
  {
    if Accepts(steps[0], p) {
      i := 0;
    } else {
      StepAdmits(s, steps[0], p);
      StepKeeps(s, steps[0]);
      var j := RunAdmits(Apply(s, steps[0]), steps[1..], s', p);
      i := j + 1;
    }
  }

  /** Over every run: nobody gets past WAIT_AUTH, and no callback is fired for anybody, but
      by an authentication of his own that succeeded. */
  lemma NobodySkipsLogin(s0: State, steps: seq<Step>, s: State, p: PlayerId) returns (i: nat)
    requires Initial(s0) && Runs(s0, steps, s) && p in s.players
    requires PastAuth(s.players[p].status) || s.players[p].log != []
    ensures i < |steps| && steps[i].OfPass? && steps[i].passStep.AuthCompletes?
    ensures steps[i].passStep.player == p && steps[i].passStep.ok
  {
    InitialOk(s0);
    i := RunAdmits(s0, steps, s, p);
  }

  // ------------------------------------------------------- asking for an arena

  ghost predicate Has(s: State, p: PlayerId, a: ArenaId) {
    p in s.players && (s.players[p].arena == Some(a) || s.players[p].newarena == Some(a))
  }

  /** He asked for an arena by the name this one has afterwards. */
  ghost predicate AsksFor(step: Step, s': State, p: PlayerId, a: ArenaId) {
    && step.OfPlayer? && step.playerStep.Goes? && step.playerStep.player == p
    && a in s'.arenas && s'.arenas[a].name == step.playerStep.name
  }

  lemma GoGives(s: State, q: PlayerId, name: string, p: PlayerId, a: ArenaId)
    requires Reachable(s) && Enabled(s, OfPlayer(Goes(q, name))) && !Has(s, p, a)
    ensures Has(Apply(s, OfPlayer(Goes(q, name))), p, a) ==>
              AsksFor(OfPlayer(Goes(q, name)), Apply(s, OfPlayer(Goes(q, name))), p, a)
  {
    var b := GoesDoes(s, q, name);
  }

  lemma PlayerStepGives(s: State, step: PlayerStep, p: PlayerId, a: ArenaId)
    requires PlayerEnabled(s, step) && !step.Goes? && !Has(s, p, a)
    ensures !Has(PlayerApply(s, step), p, a)
  {
  }

  lemma ArenaStepGives(s: State, step: ArenaStep, p: PlayerId, a: ArenaId)
    requires ArenaEnabled(s, step) && !Has(s, p, a)
    ensures !Has(ArenaApply(s, step), p, a)
  {
  }

  lemma SyncDoneGives(s: State, id: PlayerId, p: PlayerId, a: ArenaId)
    requires id in s.players && !Has(s, p, a)
    ensures !Has(SyncDone(s, id), p, a)
  {
  }

  lemma CompletionGives(s: State, id: PlayerId, p: PlayerId, a: ArenaId)
    requires id in s.players && s.players[id].syncs > 0 && !Has(s, p, a)
    ensures !Has(SyncAnswered(s, id), p, a)
  {
    var s1 := s.WithPlayer(id, s.players[id].(syncs := s.players[id].syncs - 1));
    assert !Has(s1, p, a);
    SyncDoneGives(s1, id, p, a);
  }

  lemma RequestGives(s: State, id: PlayerId, ask: bool, p: PlayerId, a: ArenaId)
    requires id in s.players && !Has(s, p, a)
    ensures !Has(RequestSync(s, id, ask), p, a)
  {
    if !ask { SyncDoneGives(s, id, p, a); }
  }

  lemma ActionGives(s: State, canAuth: bool, p: PlayerId, a: ArenaId)
    requires PassEnabled(s, PassActs(canAuth)) && !Has(s, p, a)
    ensures !Has(RunAction(s, canAuth), p, a)
  {
    var id := s.actions[0];
    var was := s.players[id];
    var acted := if was.pending.value.NeedAuth? && !canAuth then Kick(Act(was, canAuth)) else Act(was, canAuth);
    var s1 := s.(actions := s.actions[1..]).WithPlayer(id, acted);
    assert !Has(s1, p, a);
    RequestGives(s1, id, AsksPersist(s.persist, was), p, a);
  }

  lemma ScanGives(s: State, p: PlayerId, a: ArenaId)
    requires PassEnabled(s, PassScans) && !Has(s, p, a)
    ensures !Has(Scan(s), p, a)
  {
    ScanIs(s, s.scan[0], s.players[s.scan[0]]);
  }

  lemma AuthGives(s: State, id: PlayerId, ok: bool, other: Option<PlayerId>, p: PlayerId, a: ArenaId)
    requires PassEnabled(s, AuthCompletes(id, ok, other)) && !Has(s, p, a)
    ensures !Has(AuthDone(s, id, ok, other), p, a)
  {
  }

  lemma PassStepGives(s: State, step: PassStep, p: PlayerId, a: ArenaId)
    requires PassEnabled(s, step) && !Has(s, p, a)
    ensures !Has(PassApply(s, step), p, a)
  {
    match step
    case PassBegins =>
    case PassScans => ScanGives(s, p, a);
    case PassActs(canAuth) => ActionGives(s, canAuth, p, a);
    case SyncCompletes(q) => CompletionGives(s, q, p, a);
    case AuthCompletes(q, ok, other) => AuthGives(s, q, ok, other, p, a);
  }

  lemma StepGives(s: State, step: Step, p: PlayerId, a: ArenaId)
    requires Reachable(s) && Enabled(s, step) && !Has(s, p, a) && Has(Apply(s, step), p, a)
    ensures AsksFor(step, Apply(s, step), p, a)
  {
    match step
    case OfArena(x) => ArenaStepGives(s, x, p, a);
    case OfPlayer(x) => if x.Goes? { GoGives(s, x.player, x.name, p, a); } else { PlayerStepGives(s, x, p, a); }
    case OfPass(x) => PassStepGives(s, x, p, a);
  }

  lemma OneMore(s0: State, steps: seq<Step>, s: State, step: Step)
    requires Runs(s0, steps, s) && Enabled(s, step)
    ensures Runs(s0, steps + [step], Apply(s, step))
    decreases |steps|
  {
    if steps == [] {
      assert [] + [step] == [step] && [step][1..] == [];
    } else {
      OneMore(Apply(s0, steps[0]), steps[1..], s, step);
      assert (steps + [step])[1..] == steps[1..] + [step];
    }
  }

  lemma StillReachable(s: State, step: Step)
    requires Reachable(s) && Enabled(s, step)
    ensures Reachable(Apply(s, step))
  {
    var s0, steps :| Initial(s0) && Runs(s0, steps, s);
    OneMore(s0, steps, s, step);
  }

  lemma {:induction false} RunGives(s: State, steps: seq<Step>, s': State, p: PlayerId, a: ArenaId) returns (i: nat, si: State)
    requires Reachable(s) && Runs(s, steps, s') && !Has(s, p, a) && Has(s', p, a)
    ensures i < |steps| && Runs(s, steps[..i], si) && Enabled(si, steps[i]) && AsksFor(steps[i], Apply(si, steps[i]), p, a)
    decreases |steps|
  {
    var s1 := Apply(s, steps[0]);
    if Has(s1, p, a) {
      StepGives(s, steps[0], p, a);
      i, si := 0, s;
    } else {
      StillReachable(s, steps[0]);
      var j, sj := RunGives(s1, steps[1..], s', p, a);
      i, si := j + 1, sj;
      assert steps[..i][1..] == steps[1..][..j] && steps[..i][0] == steps[0];
    }
  }

  /** Over every run: an arena is only ever the one a player is in, or his next, if at some
      point of the run he asked to go to an arena of the name it then had. */
  lemma NobodyIsMovedUnasked(s0: State, steps: seq<Step>, s: State, p: PlayerId, a: ArenaId) returns (i: nat, si: State)
    requires Initial(s0) && Runs(s0, steps, s) && p in s.players
    requires s.players[p].arena == Some(a) || s.players[p].newarena == Some(a)
    ensures i < |steps| && Runs(s0, steps[..i], si) && Enabled(si, steps[i])
    ensures steps[i].OfPlayer? && steps[i].playerStep.Goes? && steps[i].playerStep.player == p
    ensures a in Apply(si, steps[i]).arenas && Apply(si, steps[i]).arenas[a].name == steps[i].playerStep.name
  {
    assert Runs(s0, [], s0);
    i, si := RunGives(s0, steps, s, p, a);
  }
}
