/** Who is sent out of the zone, and who can never enter an arena again: a mark that is
    set when somebody leaves while his scores are being loaded is not cleared. */
module LifecycleShutOut {
  import opened Options
  import opened Lifecycle
  import opened LifecycleArenas
  import opened LifecycleHistory
  import opened LifecycleInvariant
  import opened LifecycleMarks
  import opened LifecycleMoves
  import opened LifecyclePass
  import opened LifecycleReaches
  import opened LifecycleTheorems

  // -------------------------------------------------------- leaving the zone

  /** Marked for the zone's exit, or past it. */
  predicate IsGoing(p: Player) { p.kicked || p.status.LeavingZone? || p.status.WaitGlobalSync2? || p.status.TimeWait? }

  ghost predicate Going(s: State, p: PlayerId) { p in s.players && IsGoing(s.players[p]) }

  /** A kick, a namesake who logs in, or a login nobody can check. */
  predicate Expels(s: State, step: Step, p: PlayerId) {
    match step
    case OfArena(_) => false
    case OfPlayer(x) => x == Kicks(p)
    case OfPass(x) =>
      || (x.AuthCompletes? && x.ok && x.other == Some(p))
      || (x == PassActs(false) && s.actions != [] && s.actions[0] == p && p in s.players && s.players[p].pending == Some(NeedAuth))
  }

  lemma PlayerStepExpels(s: State, step: PlayerStep, p: PlayerId)
    requires PlayerEnabled(s, step) && !Going(s, p) && step != Kicks(p)
    ensures !Going(PlayerApply(s, step), p)
  {
  }

  lemma ArenaStepExpels(s: State, step: ArenaStep, p: PlayerId)
    requires ArenaEnabled(s, step) && !Going(s, p)
    ensures !Going(ArenaApply(s, step), p)
  {
  }

  /** A sync leads on to TIMEWAIT only from the zone's exit. */
  lemma SyncDoneExpels(s: State, id: PlayerId, p: PlayerId)
    requires id in s.players && !Going(s, p)
    ensures !Going(SyncDone(s, id), p)
  {
  }

  lemma ActExpels(p: Player, canAuth: bool)
    requires p.pending.Some?
    ensures IsGoing(Act(p, canAuth)) <==> IsGoing(p)
  {
  }

  lemma ActionExpels(s: State, canAuth: bool, p: PlayerId)
    requires PassEnabled(s, PassActs(canAuth)) && !Going(s, p) && !Expels(s, OfPass(PassActs(canAuth)), p)
    ensures !Going(RunAction(s, canAuth), p)
  {
    var id := s.actions[0];
    var was := s.players[id];
    ActExpels(was, canAuth);
    var acted := if was.pending.value.NeedAuth? && !canAuth then Kick(Act(was, canAuth)) else Act(was, canAuth);
    var s1 := s.(actions := s.actions[1..]).WithPlayer(id, acted);
    assert !Going(s1, p);
    SyncDoneExpels(s1, id, p);
  }

  lemma PassStepExpels(s: State, step: PassStep, p: PlayerId)
    requires PassEnabled(s, step) && !Going(s, p) && !Expels(s, OfPass(step), p)
    ensures !Going(PassApply(s, step), p)
  {
    match step
    case PassBegins =>
    case PassScans => ScanExpels(s, p);
    case PassActs(canAuth) => ActionExpels(s, canAuth, p);
    case SyncCompletes(q) => CompletionExpels(s, q, p);
    case AuthCompletes(q, ok, other) => AuthExpels(s, q, ok, other, p);
  }

  lemma ScanExpels(s: State, p: PlayerId)
    requires PassEnabled(s, PassScans) && !Going(s, p)
    ensures !Going(Scan(s), p)
  {
  }

  lemma CompletionExpels(s: State, id: PlayerId, p: PlayerId)
    requires id in s.players && s.players[id].syncs > 0 && !Going(s, p)
    ensures !Going(SyncAnswered(s, id), p)
  {
    var s1 := s.WithPlayer(id, s.players[id].(syncs := s.players[id].syncs - 1));
    assert !Going(s1, p);
    SyncDoneExpels(s1, id, p);
  }

  lemma AuthExpels(s: State, id: PlayerId, ok: bool, other: Option<PlayerId>, p: PlayerId)
    requires PassEnabled(s, AuthCompletes(id, ok, other)) && !Going(s, p)
    requires !Expels(s, OfPass(AuthCompletes(id, ok, other)), p)
    ensures !Going(AuthDone(s, id, ok, other), p)
  {
  }

  lemma {:induction false} RunExpels(s: State, steps: seq<Step>, s': State, p: PlayerId) returns (i: nat, si: State)
    requires Runs(s, steps, s') && !Going(s, p) && Going(s', p)
    ensures i < |steps| && Runs(s, steps[..i], si) && Expels(si, steps[i], p)
    decreases |steps|
  {
    if Expels(s, steps[0], p) {
      i, si := 0, s;
    } else {
      match steps[0] {
        case OfArena(x) => ArenaStepExpels(s, x, p);
        case OfPlayer(x) => PlayerStepExpels(s, x, p);
        case OfPass(x) => PassStepExpels(s, x, p);
      }
      var j, sj := RunExpels(Apply(s, steps[0]), steps[1..], s', p);
      i, si := j + 1, sj;
      assert steps[..i][1..] == steps[1..][..j] && steps[..i][0] == steps[0];
    }
  }

  /** Over every run: nobody is on his way out of the zone who was not kicked, was not
      replaced by a namesake, and did not log in where nobody could check it. */
  lemma NobodyLeavesByHimself(s0: State, steps: seq<Step>, s: State, p: PlayerId) returns (i: nat, si: State)
    requires Initial(s0) && Runs(s0, steps, s) && p in s.players
    requires s.players[p].kicked || !s.players[p].status.BeforeLeavingZone()
    ensures i < |steps| && Runs(s0, steps[..i], si) && Expels(si, steps[i], p)
  {
    i, si := RunExpels(s0, steps, s, p);
  }

  // ------------------------------------------------------- being shut out

  /** The mark of somebody who left while his scores were being loaded. */
  ghost predicate Marks(s: State, p: PlayerId) { p in s.players && s.players[p].leaveWhenDone }

  /** He leaves by himself, is kicked, is replaced, or is sent out by a recycle, and his
      scores are being loaded. */
  predicate LeavesWhileLoading(s: State, step: Step, p: PlayerId) {
    && p in s.players && s.players[p].status.WaitArenaSync1?
    && match step
       case OfArena(x) => x.RecycleMarks? && p in s.playerList && s.players[p].arena == Some(x.arena)
       case OfPlayer(x) => x == Leaves(p) || x == Kicks(p)
       case OfPass(x) => x.AuthCompletes? && x.ok && x.other == Some(p)
  }

  lemma PlayerStepLeaves(s: State, step: PlayerStep, p: PlayerId)
    requires PlayerEnabled(s, step) && !Marks(s, p) && !LeavesWhileLoading(s, OfPlayer(step), p)
    ensures !Marks(PlayerApply(s, step), p)
  {
  }

  lemma ArenaStepLeaves(s: State, step: ArenaStep, p: PlayerId)
    requires ArenaEnabled(s, step) && !Marks(s, p) && !LeavesWhileLoading(s, OfArena(step), p)
    ensures !Marks(ArenaApply(s, step), p)
  {
  }

  lemma SyncDoneLeaves(s: State, id: PlayerId, p: PlayerId)
    requires id in s.players
    ensures Marks(SyncDone(s, id), p) <==> Marks(s, p)
  {
  }

  lemma ActionLeaves(s: State, canAuth: bool, p: PlayerId)
    requires Reachable(s) && PassEnabled(s, PassActs(canAuth)) && !Marks(s, p)
    ensures !Marks(RunAction(s, canAuth), p)
  {
    ActionIsReady(s, canAuth);
    ActionKeepsMarks(s, canAuth, p);
  }

  lemma ActionKeepsMarks(s: State, canAuth: bool, p: PlayerId)
    requires PassEnabled(s, PassActs(canAuth))
    requires s.players[s.actions[0]].pending.value.NeedAuth? ==> s.players[s.actions[0]].arena.None?
    ensures Marks(RunAction(s, canAuth), p) <==> Marks(s, p)
  {
    var id := s.actions[0];
    var was := s.players[id];
    var acted := if was.pending.value.NeedAuth? && !canAuth then Kick(Act(was, canAuth)) else Act(was, canAuth);
    var s1 := s.(actions := s.actions[1..]).WithPlayer(id, acted);
    assert Marks(s1, p) <==> Marks(s, p);
    SyncDoneLeaves(s1, id, p);
  }

  lemma PassStepLeaves(s: State, step: PassStep, p: PlayerId)
    requires Reachable(s) && PassEnabled(s, step) && !Marks(s, p) && !LeavesWhileLoading(s, OfPass(step), p)
    ensures !Marks(PassApply(s, step), p)
  {
    match step
    case PassBegins =>
    case PassScans => ScanLeaves(s, p);
    case PassActs(canAuth) => ActionLeaves(s, canAuth, p);
    case SyncCompletes(q) => CompletionLeaves(s, q, p);
    case AuthCompletes(q, ok, other) => AuthLeaves(s, q, ok, other, p);
  }

  lemma ScanLeaves(s: State, p: PlayerId)
    requires PassEnabled(s, PassScans) && !Marks(s, p)
    ensures !Marks(Scan(s), p)
  {
  }

  lemma CompletionLeaves(s: State, id: PlayerId, p: PlayerId)
    requires id in s.players && s.players[id].syncs > 0 && !Marks(s, p)
    ensures !Marks(SyncAnswered(s, id), p)
  {
    SyncDoneLeaves(s.WithPlayer(id, s.players[id].(syncs := s.players[id].syncs - 1)), id, p);
  }

  lemma AuthLeaves(s: State, id: PlayerId, ok: bool, other: Option<PlayerId>, p: PlayerId)
    requires PassEnabled(s, AuthCompletes(id, ok, other)) && !Marks(s, p)
    requires !LeavesWhileLoading(s, OfPass(AuthCompletes(id, ok, other)), p)
    ensures !Marks(AuthDone(s, id, ok, other), p)
  {
  }

  lemma {:induction false} RunLeaves(s: State, steps: seq<Step>, s': State, p: PlayerId) returns (i: nat, si: State)
    requires Reachable(s) && Runs(s, steps, s') && !Marks(s, p) && Marks(s', p)
    ensures i < |steps| && Runs(s, steps[..i], si) && LeavesWhileLoading(si, steps[i], p)
    decreases |steps|
  {
    if LeavesWhileLoading(s, steps[0], p) {
      i, si := 0, s;
    } else {
      match steps[0] {
        case OfArena(x) => ArenaStepLeaves(s, x, p);
        case OfPlayer(x) => PlayerStepLeaves(s, x, p);
        case OfPass(x) => PassStepLeaves(s, x, p);
      }
      StillReachable(s, steps[0]);
      var j, sj := RunLeaves(Apply(s, steps[0]), steps[1..], s', p);
      i, si := j + 1, sj;
      assert steps[..i][1..] == steps[1..][..j] && steps[..i][0] == steps[0];
    }
  }

  /** Over every run: the mark is only there if at some point he left while his scores were
      being loaded. */
  lemma OnlyLeavingShutsOut(s0: State, steps: seq<Step>, s: State, p: PlayerId) returns (i: nat, si: State)
    requires Initial(s0) && Runs(s0, steps, s) && p in s.players && s.players[p].leaveWhenDone
    ensures i < |steps| && Runs(s0, steps[..i], si) && LeavesWhileLoading(si, steps[i], p)
  {
    assert Runs(s0, [], s0);
    i, si := RunLeaves(s0, steps, s, p);
  }

  /** No ENTER from place n of the log on. */
  predicate NoneEntered(log: seq<Event>, n: nat) { forall i | n <= i < |log| :: !log[i].Enter? }

  /** One step on, the mark stays and no ENTER is fired. */
  predicate KeptOut(p: Player, p': Player) {
    p'.leaveWhenDone && p.log <= p'.log && NoneEntered(p'.log, |p.log|)
  }

  ghost predicate StaysShutOut(s: State, s': State, p: PlayerId) {
    p in s.players && p in s'.players ==> KeptOut(s.players[p], s'.players[p])
  }

  lemma PlayerStepShutsOut(s: State, step: PlayerStep, p: PlayerId)
    requires PlayerEnabled(s, step) && Marks(s, p) && s.nextPlayer !in s.players
    ensures StaysShutOut(s, PlayerApply(s, step), p)
  {
  }

  lemma ArenaStepShutsOut(s: State, step: ArenaStep, p: PlayerId)
    requires ArenaEnabled(s, step) && Marks(s, p)
    ensures StaysShutOut(s, ArenaApply(s, step), p)
  {
  }

  lemma SyncDoneShutsOut(s: State, id: PlayerId, p: PlayerId)
    requires id in s.players && p in s.players
    ensures SyncDone(s, id).players[p].log == s.players[p].log
    ensures SyncDone(s, id).players[p].leaveWhenDone == s.players[p].leaveWhenDone
  {
  }

  lemma ActShutsOut(p: Player, canAuth: bool)
    requires PlayerOk(p, true) && MarksOk(p) && p.pending.Some? && p.leaveWhenDone
    ensures KeptOut(p, if p.pending.value.NeedAuth? && !canAuth then Kick(Act(p, canAuth)) else Act(p, canAuth))
  {
  }

  lemma ActionShutsOut(s: State, canAuth: bool, p: PlayerId)
    requires Reachable(s) && PassEnabled(s, PassActs(canAuth)) && Marks(s, p)
    ensures StaysShutOut(s, RunAction(s, canAuth), p)
  {
    var id := s.actions[0];
    ActionFinds(s, id);
    if id == p { ActShutsOut(s.players[id], canAuth); }
    ActedShutsOut(s, canAuth, p, id);
  }

  lemma ActedShutsOut(s: State, canAuth: bool, p: PlayerId, id: PlayerId)
    requires PassEnabled(s, PassActs(canAuth)) && Marks(s, p) && id == s.actions[0]
    requires var was := s.players[id];
             id == p ==> KeptOut(was, if was.pending.value.NeedAuth? && !canAuth then Kick(Act(was, canAuth)) else Act(was, canAuth))
    ensures StaysShutOut(s, RunAction(s, canAuth), p)
  {
    var was := s.players[id];
    var acted := if was.pending.value.NeedAuth? && !canAuth then Kick(Act(was, canAuth)) else Act(was, canAuth);
    var s1 := s.(actions := s.actions[1..]).WithPlayer(id, acted);
    assert KeptOut(s.players[p], s1.players[p]);
    SyncDoneShutsOut(s1, id, p);
  }

  lemma ScanShutsOut(s: State, p: PlayerId)
    requires PassEnabled(s, PassScans) && Marks(s, p)
    ensures StaysShutOut(s, Scan(s), p)
  {
  }

  lemma AuthShutsOut(s: State, id: PlayerId, ok: bool, other: Option<PlayerId>, p: PlayerId)
    requires PassEnabled(s, AuthCompletes(id, ok, other)) && Marks(s, p)
    ensures StaysShutOut(s, AuthDone(s, id, ok, other), p)
  {
  }

  lemma CompletionShutsOut(s: State, id: PlayerId, p: PlayerId)
    requires id in s.players && s.players[id].syncs > 0 && Marks(s, p)
    ensures StaysShutOut(s, SyncAnswered(s, id), p)
  {
    SyncDoneShutsOut(s.WithPlayer(id, s.players[id].(syncs := s.players[id].syncs - 1)), id, p);
  }

  lemma PassStepShutsOut(s: State, step: PassStep, p: PlayerId)
    requires Reachable(s) && PassEnabled(s, step) && Marks(s, p)
    ensures StaysShutOut(s, PassApply(s, step), p)
  {
    match step
    case PassBegins =>
    case PassScans => ScanShutsOut(s, p);
    case PassActs(canAuth) => ActionShutsOut(s, canAuth, p);
    case SyncCompletes(q) => CompletionShutsOut(s, q, p);
    case AuthCompletes(q, ok, other) => AuthShutsOut(s, q, ok, other, p);
  }

  lemma StepShutsOut(s: State, step: Step, p: PlayerId)
    requires Reachable(s) && Enabled(s, step) && Marks(s, p)
    ensures StaysShutOut(s, Apply(s, step), p)
  {
    match step
    case OfArena(x) => ArenaStepShutsOut(s, x, p);
    case OfPlayer(x) =>
      ArenaFacts(s);
      NewIsNew(s);
      PlayerStepShutsOut(s, x, p);
    case OfPass(x) => PassStepShutsOut(s, x, p);
  }

  lemma NewIsNew(s: State)
    requires Reachable(s)
    ensures s.nextPlayer !in s.players
  {
    ReachableOk(s);
  }

  /** Whoever has gone does not come back under the same number. */
  lemma GoneStaysGone(s: State, step: Step, p: PlayerId)
    requires Enabled(s, step) && p < s.nextPlayer && p !in s.players
    ensures p < Apply(s, step).nextPlayer && p !in Apply(s, step).players
  {
    match step
    case OfArena(x) => SameCrowd(s, x);
    case OfPlayer(x) =>
    case OfPass(x) => SameCrowdInPass(s, x);
  }

  lemma {:induction false} RunShutsOut(s: State, steps: seq<Step>, s': State, p: PlayerId)
    requires Reachable(s) && Runs(s, steps, s') && Marks(s, p)
    ensures StaysShutOut(s, s', p)
    decreases |steps|
  {
    if steps != [] {
      var s1 := Apply(s, steps[0]);
      StepShutsOut(s, steps[0], p);
      StillReachable(s, steps[0]);
      if p in s1.players {
        RunShutsOut(s1, steps[1..], s', p);
      } else {
        OldNumber(s, steps[0], p);
        RunStaysGone(s1, steps[1..], s', p);
      }
    }
  }

  lemma OldNumber(s: State, step: Step, p: PlayerId)
    requires Reachable(s) && Enabled(s, step) && p in s.players
    ensures p < Apply(s, step).nextPlayer
  {
    ReachableOk(s);
    NumbersGrow(s, step);
  }

  lemma NumbersGrow(s: State, step: Step)
    requires Enabled(s, step)
    ensures s.nextPlayer <= Apply(s, step).nextPlayer
  {
    match step
    case OfArena(x) => ArenaNumbers(s, x);
    case OfPlayer(x) => PlayerNumbers(s, x);
    case OfPass(x) => PassNumbers(s, x);
  }

  lemma ArenaNumbers(s: State, step: ArenaStep)
    requires ArenaEnabled(s, step)
    ensures s.nextPlayer <= ArenaApply(s, step).nextPlayer
  {
  }

  lemma PlayerNumbers(s: State, step: PlayerStep)
    requires PlayerEnabled(s, step)
    ensures s.nextPlayer <= PlayerApply(s, step).nextPlayer
  {
  }

  lemma PassNumbers(s: State, step: PassStep)
    requires PassEnabled(s, step)
    ensures s.nextPlayer <= PassApply(s, step).nextPlayer
  {
  }

  lemma {:induction false} RunStaysGone(s: State, steps: seq<Step>, s': State, p: PlayerId)
    requires Runs(s, steps, s') && p < s.nextPlayer && p !in s.players
    ensures p !in s'.players
    decreases |steps|
  {
    if steps != [] {
      GoneStaysGone(s, steps[0], p);
      RunStaysGone(Apply(s, steps[0]), steps[1..], s', p);
    }
  }

  /** Whoever has left while his scores were being loaded never enters an arena again: as
      long as he is there, whatever he or anybody does, he is not PLAYING and no ENTER is
      fired for him. */
  lemma ShutOutForGood(s: State, steps: seq<Step>, s': State, p: PlayerId)
    requires Reachable(s) && Runs(s, steps, s') && p in s.players && s.players[p].leaveWhenDone && p in s'.players
    ensures !s'.players[p].status.Playing? && s.players[p].log <= s'.players[p].log
    ensures forall i | |s.players[p].log| <= i < |s'.players[p].log| :: !s'.players[p].log[i].Enter?
  {
    RunShutsOut(s, steps, s', p);
    RunReaches(s, steps, s');
    KickedIsLeaving(s', p);
  }

  lemma RunReaches(s: State, steps: seq<Step>, s': State)
    requires Reachable(s) && Runs(s, steps, s')
    ensures Reachable(s')
  {
    var s0, first :| Initial(s0) && Runs(s0, first, s);
    RunsOn(s0, first, s, steps, s');
  }

  // ------------------------------------------------------- exactly then

  /** After i steps of the run he left while his scores were being loaded. */
  ghost predicate LeftAt(s0: State, steps: seq<Step>, p: PlayerId, i: nat, si: State) {
    i < |steps| && Runs(s0, steps[..i], si) && LeavesWhileLoading(si, steps[i], p)
  }

  lemma {:induction false} RestRuns(s0: State, steps: seq<Step>, s: State, i: nat, si: State)
    requires Runs(s0, steps, s) && i < |steps| && Runs(s0, steps[..i], si)
    ensures Enabled(si, steps[i]) && Runs(Apply(si, steps[i]), steps[i + 1..], s)
    decreases |steps|
  {
    if i > 0 {
      assert steps[..i][1..] == steps[1..][..i - 1] && steps[..i][0] == steps[0];
      RestRuns(Apply(s0, steps[0]), steps[1..], s, i - 1, si);
      assert steps[1..][i..] == steps[i + 1..];
    }
  }

  lemma LeavingMarks(s: State, step: Step, p: PlayerId)
    requires Reachable(s) && Enabled(s, step) && LeavesWhileLoading(s, step, p)
    ensures Marks(Apply(s, step), p)
  {
    ReachableOk(s);
    assert PlayerOk(s.players[p], p in s.playerList);
    LeavingIsMarked(s, step, p);
  }

  lemma LeavingIsMarked(s: State, step: Step, p: PlayerId)
    requires Enabled(s, step) && LeavesWhileLoading(s, step, p) && s.players[p].arena.Some?
    requires step.OfPass? ==> s.players[step.passStep.player].status.WaitAuth?
    ensures Marks(Apply(s, step), p)
  {
  }

  /** Over every run: the mark is there exactly if he left while his scores were being
      loaded, for whatever arena and however long ago. */
  lemma ShutOutIff(s0: State, steps: seq<Step>, s: State, p: PlayerId)
    requires Initial(s0) && Runs(s0, steps, s) && p in s.players
    ensures s.players[p].leaveWhenDone <==> exists i: nat, si :: LeftAt(s0, steps, p, i, si)
  {
    if s.players[p].leaveWhenDone {
      var i, si := OnlyLeavingShutsOut(s0, steps, s, p);
      assert LeftAt(s0, steps, p, i, si);
    }
    if i: nat, si :| LeftAt(s0, steps, p, i, si) {
      RestRuns(s0, steps, s, i, si);
      LeavingMarks(si, steps[i], p);
      StillReachable(si, steps[i]);
      RunShutsOut(Apply(si, steps[i]), steps[i + 1..], s, p);
    }
  }

  /** So when his scores have come, he goes on into the arena exactly if he has never left
      while they were being loaded, and is sent out again otherwise. */
  lemma GoesInIff(s0: State, steps: seq<Step>, s: State, p: PlayerId)
    requires Initial(s0) && Runs(s0, steps, s) && Enabled(s, OfPass(SyncCompletes(p))) && s.players[p].status.WaitArenaSync1?
    ensures var s' := Apply(s, OfPass(SyncCompletes(p)));
            p in s'.players
            && s'.players[p].status == if exists i: nat, si :: LeftAt(s0, steps, p, i, si) then DoArenaSync2 else ArenaRespAndCbs
  {
    ShutOutIff(s0, steps, s, p);
    SyncCompletesDoes(s, p);
  }

  // ------------------------------------------------- and it does happen

  const WAITING := Entering(WaitArenaSync1, true, [Connect, PreEnter(Some(0))])

  const SHUT_OUT := Entering(LoggedIn, false, [Connect, PreEnter(Some(0))]).(leaveWhenDone := true)

  /** His scores are asked for. */
  lemma HeWaits(s0: State, name: string)
    requires Leads(s0, With(true, Some(ArenaIn(name, Running)), In(LoggedIn, true, [Connect]).(newarena := Some(0))))
    ensures Leads(s0, With(true, Some(ArenaIn(name, Running)), WAITING.(syncs := 1)))
  {
    var a := Some(ArenaIn(name, Running));
    var p := Entering(DoFreqAndArenaSync, false, [Connect]);
    WaitingPass(s0, true, a, In(LoggedIn, true, [Connect]).(newarena := Some(0)));
    assert AwaitArena(In(LoggedIn, true, [Connect]).(newarena := Some(0)), true) == p;
    PassScansHim(true, a, p);
    var s1, s2 := With(true, a, Advance(p)).(actions := [0]), With(true, a, WAITING.(syncs := 1));
    LeadsOn(s0, With(true, a, p), s1);
    assert [Connect] + [PreEnter(Some(0))] == [Connect, PreEnter(Some(0))] && [0][1..] == [];
    assert Act(Advance(p), true) == WAITING;
    assert s1.players[0 := WAITING] == map[0 := WAITING];
    assert map[0 := WAITING][0 := WAITING.(syncs := 1)] == map[0 := WAITING.(syncs := 1)];
    OneStep(s1, OfPass(PassActs(true)), s2);
    LeadsOn(s0, s1, s2);
  }

  /** He leaves meanwhile, and comes back to LOGGEDIN with the mark. */
  lemma HeGivesUp(s0: State, name: string)
    requires Leads(s0, With(true, Some(ArenaIn(name, Running)), WAITING.(syncs := 1)))
    ensures Leads(s0, With(true, Some(ArenaIn(name, Running)), SHUT_OUT))
  {
    var a := Some(ArenaIn(name, Running));
    var q := WAITING.(leaveWhenDone := true);
    HisStep(s0, true, a, WAITING.(syncs := 1), OfPlayer(Leaves(0)), q.(syncs := 1));
    SyncEnds(true, a, q);
    LeadsOn(s0, With(true, a, q.(syncs := 1)), With(true, a, q.(status := DoArenaSync2)));
    OnePass(s0, true, a, q.(status := DoArenaSync2), SHUT_OUT);
  }

  /** A reachable state: the arena runs, the player is LOGGEDIN, nobody has kicked him, he may
      ask to go there, and will never get in. */
  lemma SomebodyIsShutOut(name: string) returns (s: State)
    ensures Reachable(s) && 0 in s.players && 0 in s.arenas
    ensures s.arenas[0].name == name && s.arenas[0].status.Running?
    ensures s.players[0].status.LoggedIn? && !s.players[0].kicked && s.players[0].leaveWhenDone
    ensures Enabled(s, OfPlayer(Goes(0, name)))
  {
    var s0 := HeConnects(true);
    HeLogsIn(s0, true);
    HeGoes(s0, true, name);
    ArenaComesUp(s0, true, name, In(LoggedIn, true, [Connect]).(newarena := Some(0)));
    HeWaits(s0, name);
    HeGivesUp(s0, name);
    s := With(true, Some(ArenaIn(name, Running)), SHUT_OUT);
  }
}
