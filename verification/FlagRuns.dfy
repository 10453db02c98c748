/** Whole games: what every finite sequence of operations on the flag table keeps, with
    handlers that may differ from one operation to the next. */
module FlagRuns {
  import opened Options
  import opened Flags
  import opened FlagCounts
  import opened FlagClients
  import opened FlagTrails
  import opened FlagDrops
  import opened FlagKills
  import opened FlagWarzone

  /** The entry points of the flag core. `Cleans` is a cleanup nobody is told of: a change
      of ship, or leaving the arena. */
  datatype Op =
    | Sets(fid: int, fis: seq<FlagInfo>)
    | Drops(p: PlayerId, reason: Reason, h: Handler)
    | Cleans(p: PlayerId, reason: Reason, h: Handler)
    | ChangesFreq(p: PlayerId, freq: int, h: Handler)
    | Kills(killer: PlayerId, victim: PlayerId, limit: int, fake: bool, h: Handler)
    | Resets
    | Enters(p: PlayerId)

  function Do(t: Table, op: Op): Table {
    match op
    case Sets(fid, fis) => SetFlags(t, fid, fis)
    case Drops(p, reason, h) => DropFlags(t, p, reason, h)
    case Cleans(p, reason, h) => Cleanup(t, p, reason, h, 0)
    case ChangesFreq(p, freq, h) => ChangeFreq(t, p, freq, h)
    case Kills(killer, victim, limit, fake, h) => Kill(t.Sent(Killed(killer, victim)), killer, victim, limit, fake, h)
    case Resets => FlagReset(t)
    case Enters(p) => EnterArena(t, p)
  }

  /** A player who enters carries nothing. */
  predicate CanDo(t: Table, op: Op) { op.Enters? ==> t.Count(op.p) == 0 }

  ghost predicate Plays(t: Table, ops: seq<Op>, t': Table)
    decreases |ops|
  {
    if ops == [] then t == t' else CanDo(t, ops[0]) && Plays(Do(t, ops[0]), ops[1..], t')
  }

  /** A game without flags, with any freqs. */
  function NewGame(freqs: map<PlayerId, int>): Table { Table([], map[], freqs, []) }

  // ------------------------------------------------------ counters and freqs

  lemma {:induction false} OverflowFreqs(t: Table, killer: PlayerId, victim: PlayerId, h: Handler, i: nat)
    requires Consistent(t) && FreqsOkExcept(t, None, 0)
    ensures FreqsOkExcept(Overflow(t, killer, victim, h, i), None, 0)
    decreases MAXFLAGS - i
  {
    if i >= |t.fis| || i >= MAXFLAGS {
    } else if CarriedBy(t.fis[i], killer) {
      SentConsistent(t, Pickup(i, killer));
      OverflowFreqs(t.Sent(Pickup(i, killer)), killer, victim, h, i + 1);
    } else if CarriedBy(t.fis[i], victim) {
      var t1 := Lost(t, i, victim);
      var requests := h(t1, i, KillCantCarry, victim, t.FreqOf(victim));
      LostConsistent(t, i, victim);
      SetAllConsistent(t1, requests);
      SetAllFreqs(t1, requests, None, 0);
      OverflowFreqs(SetAll(t1, requests), killer, victim, h, i + 1);
    } else {
      OverflowFreqs(t, killer, victim, h, i + 1);
    }
  }

  lemma KillFreqs(t: Table, killer: PlayerId, victim: PlayerId, limit: int, fake: bool, h: Handler)
    requires Consistent(t) && FreqsOkExcept(t, None, 0)
    ensures FreqsOkExcept(Kill(t, killer, victim, limit, fake, h), None, 0)
  {
    TransferConsistent(t, killer, victim, limit, fake, h, 0);
    TransferFreqs(t, killer, victim, limit, fake, h, 0);
    var (t1, overflow) := Transfer(t, killer, victim, limit, fake, h, 0);
    SentConsistent(t1, Drop(killer));
    OverflowFreqs(t1.Sent(Drop(killer)), killer, victim, h, 0);
  }

  lemma CleanKeeps(t: Table, p: PlayerId, reason: Reason, h: Handler)
    requires Consistent(t) && FreqsOkExcept(t, None, 0)
    ensures Consistent(Cleanup(t, p, reason, h, 0)) && FreqsOkExcept(Cleanup(t, p, reason, h, 0), None, 0)
  {
    CleanupConsistent(t, p, reason, h, 0);
    CleanupFreqs(t, p, reason, h, 0);
  }

  lemma ResetKeeps(t: Table)
    requires Consistent(t)
    ensures Consistent(FlagReset(t)) && FreqsOkExcept(FlagReset(t), None, 0)
  {
    ResetFromConsistent(t, 0);
    var t1 := ResetFrom(t, 0);
    SentConsistent(t1, Victory);
    forall j | 0 <= j < |t1.fis| ensures t1.fis[j].carrier.None? { assert WellFormed(t1.fis[j]); }
  }

  /** Every operation keeps the counters and the freqs, whatever its handler does. */
  lemma DoKeeps(t: Table, op: Op)
    requires Consistent(t) && FreqsOkExcept(t, None, 0) && CanDo(t, op)
    ensures Consistent(Do(t, op)) && FreqsOkExcept(Do(t, op), None, 0)
  {
    match op
    case Sets(fid, fis) => SetFlagsConsistent(t, fid, fis); SetFlagsFreqs(t, fid, fis, None, 0);
    case Drops(p, reason, h) => SentConsistent(t, Drop(p)); CleanKeeps(t.Sent(Drop(p)), p, reason, h);
    case Cleans(p, reason, h) => CleanKeeps(t, p, reason, h);
    case ChangesFreq(p, freq, h) => ChangeFreqOk(t, p, freq, h);
    case Kills(killer, victim, limit, fake, h) =>
      var t0 := t.Sent(Killed(killer, victim));
      SentConsistent(t, Killed(killer, victim));
      KillConsistent(t0, killer, victim, limit, fake, h);
      KillFreqs(t0, killer, victim, limit, fake, h);
    case Resets => ResetKeeps(t);
    case Enters(p) => EnterArenaConsistent(t, p);
  }

  lemma {:induction false} PlaysKeeps(t: Table, ops: seq<Op>, t': Table)
    requires Consistent(t) && FreqsOkExcept(t, None, 0) && Plays(t, ops, t')
    ensures Consistent(t') && FreqsOkExcept(t', None, 0)
    decreases |ops|
  {
    if ops != [] {
      DoKeeps(t, ops[0]);
      PlaysKeeps(Do(t, ops[0]), ops[1..], t');
    }
  }

  /** At every moment of every game, with any handlers: every player's counter is the
      number of flags that name him as their carrier, a flag is carried exactly when it
      names one, and carried flags have their carrier's freq. */
  lemma GamesAreConsistent(freqs: map<PlayerId, int>, ops: seq<Op>, t: Table)
    requires Plays(NewGame(freqs), ops, t)
    ensures Consistent(t) && FreqsOkExcept(t, None, 0)
  {
    PlaysKeeps(NewGame(freqs), ops, t);
  }

  // --------------------------------------------------------------- the clients

  /** Handlers and situations in which one operation keeps the clients in agreement.
      Nothing tells clients of a change of ship or freq here, so the player must have no
      flags to lose by it. */
  ghost predicate Admissible(t: Table, op: Op) {
    match op
    case Drops(p, reason, h) =>
      || HarmlessCleanup(t.Sent(Drop(p)), p, reason, h, 0)
      || (exists moved: set<nat>, shown: set<nat> :: DropIsRight(t, p, reason, h, moved, shown))
    case Cleans(p, _, _) => t.Count(p) == 0
    case ChangesFreq(p, _, _) => t.Count(p) == 0
    case Kills(killer, victim, limit, fake, h) =>
      && killer != victim
      && (exists taken: set<nat>, back: set<nat>, told: set<nat> ::
            KillIsRight(t, killer, victim, limit, fake, h, taken, back, told))
    case _ => true
  }

  /** The handler keeps to its flags in the drop, and leaves none of them wrong. */
  predicate DropIsRight(t: Table, p: PlayerId, reason: Reason, h: Handler, moved: set<nat>, shown: set<nat>) {
    && OwnCleanup(t.Sent(Drop(p)), p, reason, h, 0, moved, shown)
    && (!AnyIn(t.fis, p, moved, 0, |t.fis|) || RestIn(t.fis, p, moved, shown))
  }

  /** The handler makes one request at a time for its flag in the kill, and leaves none of
      the flags wrong. */
  predicate KillIsRight(
      t: Table, killer: PlayerId, victim: PlayerId, limit: int, fake: bool, h: Handler, taken: set<nat>, back: set<nat>,
      told: set<nat>)
  {
    && AnswersKill(t.Sent(Killed(killer, victim)), killer, victim, limit, fake, h, taken, back, told)
    && (if Overflows(t, killer, victim, limit, taken) then !AnyIn(t.fis, victim, back - told, 0, |t.fis|)
        else !AnyIn(t.fis, victim, taken, 0, |t.fis|) || HighestIn(t.fis, victim, taken))
  }

  lemma {:induction false} NothingToClean(t: Table, p: PlayerId, reason: Reason, h: Handler, i: nat)
    requires forall j | 0 <= j < |t.fis| :: !CarriedBy(t.fis[j], p)
    ensures Cleanup(t, p, reason, h, i) == t
    decreases MAXFLAGS - i
  {
    if i < |t.fis| && i < MAXFLAGS { NothingToClean(t, p, reason, h, i + 1); }
  }

  lemma DoAgrees(v: View, t: Table, op: Op)
    requires Consistent(t) && Agrees(v, t) && CanDo(t, op) && Admissible(t, op)
    ensures Agrees(v, Do(t, op))
  {
    match op
    case Sets(fid, fis) => SetFlagsAgrees(v, t, fid, fis);
    case Drops(p, reason, h) =>
      if HarmlessCleanup(t.Sent(Drop(p)), p, reason, h, 0) {
        DropFlagsAgrees(v, t, p, reason, h);
      } else {
        var moved: set<nat>, shown: set<nat> :| DropIsRight(t, p, reason, h, moved, shown);
        DropAgreesIff(v, t, p, reason, h, moved, shown);
      }
    case Cleans(p, reason, h) =>
      HeldZero(t.fis, p, |t.fis|);
      NothingToClean(t, p, reason, h, 0);
    case ChangesFreq(p, freq, h) =>
      HeldZero(t.fis, p, |t.fis|);
      NothingToClean(t.(freqs := t.freqs[p := freq]), p, FreqChange, h, 0);
    case Kills(killer, victim, limit, fake, h) =>
      var taken: set<nat>, back: set<nat>, told: set<nat> :| KillIsRight(t, killer, victim, limit, fake, h, taken, back, told);
      KillAgreesIff(v, t, killer, victim, limit, fake, h, taken, back, told);
    case Resets => FlagResetAgrees(v, t);
    case Enters(p) =>
  }

  /** A game in which every operation is admissible when it happens. */
  ghost predicate PlaysFair(t: Table, ops: seq<Op>, t': Table)
    decreases |ops|
  {
    if ops == [] then t == t'
    else CanDo(t, ops[0]) && Admissible(t, ops[0]) && PlaysFair(Do(t, ops[0]), ops[1..], t')
  }

  lemma {:induction false} FairKeeps(v: View, t: Table, ops: seq<Op>, t': Table)
    requires Consistent(t) && FreqsOkExcept(t, None, 0) && Agrees(v, t) && PlaysFair(t, ops, t')
    ensures Agrees(v, t')
    decreases |ops|
  {
    if ops != [] {
      DoKeeps(t, ops[0]);
      DoAgrees(v, t, ops[0]);
      FairKeeps(v, Do(t, ops[0]), ops[1..], t');
    }
  }

  /** A client that has seen every packet of such a game from its start sees every flag
      where the server has it. */
  lemma FairGamesAgree(freqs: map<PlayerId, int>, ops: seq<Op>, t: Table)
    requires PlaysFair(NewGame(freqs), ops, t)
    ensures Agrees(map[], t)
  {
    FairKeeps(map[], NewGame(freqs), ops, t);
  }

  // ------------------------------------------------------------ a whole game

  /** The operations of a game of fg_wz.py. */
  ghost predicate IsWarzone(op: Op, h: Handler) {
    match op
    case Drops(_, _, h') => h' == h
    case Cleans(_, _, h') => h' == h
    case ChangesFreq(_, _, h') => h' == h
    case Kills(killer, victim, _, _, h') => h' == h && killer != victim
    case _ => true
  }

  /** A game in which nobody changes ship or freq, or leaves, with flags in his hands. */
  ghost predicate PlaysWarzone(t: Table, ops: seq<Op>, t': Table, h: Handler)
    decreases |ops|
  {
    if ops == [] then t == t'
    else
      && CanDo(t, ops[0]) && IsWarzone(ops[0], h)
      && (ops[0].Cleans? || ops[0].ChangesFreq? ==> t.Count(ops[0].p) == 0)
      && PlaysWarzone(Do(t, ops[0]), ops[1..], t', h)
  }

  lemma WarzoneKillIsRight(
      t: Table, killer: PlayerId, victim: PlayerId, limit: int, fake: bool, sets: Settings, place: Placing, pos: Position)
    returns (taken: set<nat>, told: set<nat>)
    requires Consistent(t) && killer != victim && AlwaysPlaces(place)
    ensures KillIsRight(t, killer, victim, limit, fake, WarzoneCleanup(sets, place, pos), taken, {}, told)
  {
    taken := if Transfers(sets, t, killer, victim, fake) then {} else ALL_FLAGS;
    WarzoneTakes(t, killer, victim, fake, sets, place, pos, ALL_FLAGS);
    told := KnownKill(t, killer, victim, limit, fake, WarzoneCleanup(sets, place, pos), taken);
    AllOrNone(t.fis, victim);
  }

  /** With fg_wz.py's Cleanup everything is admissible at any time, apart from cleanups
      nobody is told of. */
  lemma WarzoneIsAdmissible(t: Table, op: Op, sets: Settings, place: Placing, pos: Position)
    requires Consistent(t) && AlwaysPlaces(place) && IsWarzone(op, WarzoneCleanup(sets, place, pos))
    requires op.Cleans? || op.ChangesFreq? ==> t.Count(op.p) == 0
    ensures Admissible(t, op)
  {
    match op
    case Drops(p, reason, h) =>
      SentConsistent(t, Drop(p));
      WarzoneHarmless(t.Sent(Drop(p)), p, reason, sets, place, pos, 0);
    case Kills(killer, victim, limit, fake, h) =>
      var taken, told := WarzoneKillIsRight(t, killer, victim, limit, fake, sets, place, pos);
    case _ =>
  }

  lemma {:induction false} WarzoneIsFair(t: Table, ops: seq<Op>, t': Table, sets: Settings, place: Placing, pos: Position)
    requires Consistent(t) && FreqsOkExcept(t, None, 0) && AlwaysPlaces(place)
    requires PlaysWarzone(t, ops, t', WarzoneCleanup(sets, place, pos))
    ensures PlaysFair(t, ops, t')
    decreases |ops|
  {
    if ops != [] {
      DoKeeps(t, ops[0]);
      WarzoneIsAdmissible(t, ops[0], sets, place, pos);
      WarzoneIsFair(Do(t, ops[0]), ops[1..], t', sets, place, pos);
    }
  }

  /** In every game of fg_wz.py, with any settings, in which spawn_flag finds a place for
      a flag whenever it looks for one, clients see every flag where the server has it. */
  lemma WarzoneGamesAgree(
      freqs: map<PlayerId, int>, ops: seq<Op>, t: Table, sets: Settings, place: Placing, pos: Position)
    requires AlwaysPlaces(place) && PlaysWarzone(NewGame(freqs), ops, t, WarzoneCleanup(sets, place, pos))
    ensures Agrees(map[], t)
  {
    WarzoneIsFair(NewGame(freqs), ops, t, sets, place, pos);
    FairGamesAgree(freqs, ops, t);
  }
}
