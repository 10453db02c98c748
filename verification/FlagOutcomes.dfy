/** What becomes of each single flag in the warzone game when its carrier drops it or is
    killed: where it is put, and whose it is then. */
module FlagOutcomes {
  import opened Options
  import opened Flags
  import opened FlagCounts
  import opened FlagClients
  import opened FlagRequests
  import opened FlagSpoils
  import opened FlagWarzone

  /** A lost flag is put where spawn_flag finds a place for it, owned by that freq, or is
      missing, otherwise unchanged, if there is none. */
  ghost predicate PutAt(place: Placing, fid: nat, p: PlayerId, center: bool, freq: int, was: FlagInfo, now: FlagInfo) {
    exists s: Table ::
      match place(s, fid, p, center)
      case Some(xy) => now == FlagInfo(OnMap, None, xy.0, xy.1, freq)
      case None => now == FlagInfo(Missing, None, was.x, was.y, was.freq)
  }

  /** The freq a flag goes to that is lost owned, or neutral. */
  function Owner(owned: bool, freq: int): int { if owned then freq else -1 }

  /** What becomes of a flag whose carrier lost it for this reason. */
  ghost predicate Falls(
      sets: Settings, place: Placing, pos: Position, reason: Reason, fid: nat, p: PlayerId, freq: int,
      was: FlagInfo, now: FlagInfo)
  {
    match reason
    case Dropped => PutAt(place, fid, p, sets.dropCenter, Owner(sets.dropOwned, freq), was, now)
    case KillCantCarry => PutAt(place, fid, p, sets.dropCenter, Owner(sets.dropOwned, freq), was, now)
    case InSafe => PutAt(place, fid, p, sets.safeCenter, Owner(sets.safeOwned, freq), was, now)
    case ShipChange => Vanishes(sets, pos, p, freq, now)
    case FreqChange => Vanishes(sets, pos, p, freq, now)
    case LeftArena => Vanishes(sets, pos, p, freq, now)
    case _ => true
  }

  /** It is gone until the game spawns it again, near where it was lost. */
  predicate Vanishes(sets: Settings, pos: Position, p: PlayerId, freq: int, now: FlagInfo) {
    && now.state.Missing? && now.carrier.None? && now.freq == Owner(sets.neutOwned, freq)
    && (now.x, now.y) == if sets.neutCenter then (sets.spawnX, sets.spawnY) else pos(p)
  }

  lemma OneRequest(t: Table, fid: nat, nfi: FlagInfo)
    ensures SetAll(t, [Request(fid, [nfi])]) == SetFlag(t, fid, nfi)
  {
    assert [nfi][1..] == [] && [Request(fid, [nfi])][1..] == [];
    assert SetFlags(t, fid, [nfi]) == SetFlags(SetFlag(t, fid, nfi), fid + 1, []) == SetFlag(t, fid, nfi);
    assert SetAll(t, [Request(fid, [nfi])]) == SetAll(SetFlags(t, fid, [nfi]), []);
  }

  /** The handler's answer for one flag that has just been lost. */
  lemma AnsweredFalls(
      sets: Settings, place: Placing, pos: Position, t: Table, fid: nat, reason: Reason, p: PlayerId, freq: int,
      was: FlagInfo)
    requires Consistent(t) && fid < |t.fis| && t.fis[fid] == was.(state := Missing, carrier := None)
    requires reason.Dropped? || reason.KillCantCarry? || reason.InSafe? || reason.ShipChange? || reason.FreqChange?
             || reason.LeftArena?
    ensures var t' := SetAll(t, Cleans(sets, place, pos, t, fid, reason, p, freq));
            && Consistent(t') && |t'.fis| == |t.fis| && OnlyAt(t, t', fid)
            && Falls(sets, place, pos, reason, fid, p, freq, was, t'.fis[fid])
  {
    var requests := Cleans(sets, place, pos, t, fid, reason, p, freq);
    SetAllConsistent(t, requests);
    match reason
    case Dropped => SpawnedFalls(place, t, fid, p, sets.dropCenter, Owner(sets.dropOwned, freq), was);
    case KillCantCarry => SpawnedFalls(place, t, fid, p, sets.dropCenter, Owner(sets.dropOwned, freq), was);
    case InSafe => SpawnedFalls(place, t, fid, p, sets.safeCenter, Owner(sets.safeOwned, freq), was);
    case ShipChange => NeutedVanishes(sets, pos, t, fid, p, freq);
    case FreqChange => NeutedVanishes(sets, pos, t, fid, p, freq);
    case LeftArena => NeutedVanishes(sets, pos, t, fid, p, freq);
    case _ =>
  }

  lemma NeutedVanishes(sets: Settings, pos: Position, t: Table, fid: nat, p: PlayerId, freq: int)
    requires Consistent(t) && fid < |t.fis| && t.fis[fid].state.Missing?
    ensures var t' := SetAll(t, Neuted(fid, if sets.neutCenter then sets.spawnX else pos(p).0,
                                       if sets.neutCenter then sets.spawnY else pos(p).1, if sets.neutOwned then freq else -1));
            |t'.fis| == |t.fis| && OnlyAt(t, t', fid) && Vanishes(sets, pos, p, freq, t'.fis[fid])
  {
    var nfi := FlagInfo(Missing, None, if sets.neutCenter then sets.spawnX else pos(p).0,
                        if sets.neutCenter then sets.spawnY else pos(p).1, if sets.neutOwned then freq else -1);
    OneRequest(t, fid, nfi);
    SetFlagStores(t, fid, nfi);
  }

  lemma SpawnedFalls(place: Placing, t: Table, fid: nat, p: PlayerId, center: bool, freq: int, was: FlagInfo)
    requires Consistent(t) && fid < |t.fis| && t.fis[fid] == was.(state := Missing, carrier := None)
    ensures var t' := SetAll(t, Spawned(fid, place(t, fid, p, center), freq));
            |t'.fis| == |t.fis| && OnlyAt(t, t', fid) && PutAt(place, fid, p, center, freq, was, t'.fis[fid])
  {
    match place(t, fid, p, center)
    case Some(xy) =>
      var nfi := FlagInfo(OnMap, None, xy.0, xy.1, freq);
      OneRequest(t, fid, nfi);
      SetFlagStores(t, fid, nfi);
    case None =>
  }

  lemma LostOne(t: Table, i: nat, p: PlayerId)
    requires Consistent(t) && i < |t.fis| && CarriedBy(t.fis[i], p)
    ensures var t1 := Lost(t, i, p);
            && Consistent(t1) && |t1.fis| == |t.fis| && OnlyAt(t, t1, i)
            && t1.fis[i] == t.fis[i].(state := Missing, carrier := None)
  {
    LostConsistent(t, i, p);
  }

  /** Every way of losing flags but being killed: each of the player's flags falls as the
      settings for that way say, with the freq it had, and nobody else's flag changes. */
  lemma {:induction false} CleanupFalls(
      t: Table, p: PlayerId, reason: Reason, sets: Settings, place: Placing, pos: Position, i: nat, f: nat)
    requires Consistent(t) && f < |t.fis|
    requires reason.Dropped? || reason.InSafe? || reason.ShipChange? || reason.FreqChange? || reason.LeftArena?
    ensures var t' := Cleanup(t, p, reason, WarzoneCleanup(sets, place, pos), i);
            && |t'.fis| == |t.fis|
            && if i <= f && CarriedBy(t.fis[f], p) then Falls(sets, place, pos, reason, f, p, t.fis[f].freq, t.fis[f], t'.fis[f])
               else t'.fis[f] == t.fis[f]
    decreases MAXFLAGS - i
  {
    if i >= |t.fis| {
    } else if CarriedBy(t.fis[i], p) {
      var t1 := Lost(t, i, p);
      LostOne(t, i, p);
      var requests := Cleans(sets, place, pos, t1, i, reason, p, t1.fis[i].freq);
      AnsweredFalls(sets, place, pos, t1, i, reason, p, t1.fis[i].freq, t.fis[i]);
      CleanupFalls(SetAll(t1, requests), p, reason, sets, place, pos, i + 1, f);
      assert f != i ==> FlagOf(SetAll(t1, requests), f) == FlagOf(t, f);
    } else {
      CleanupFalls(t, p, reason, sets, place, pos, i + 1, f);
    }
  }

  /** A drop packet, in safe or not. */
  lemma WarzoneDropFalls(t: Table, p: PlayerId, reason: Reason, sets: Settings, place: Placing, pos: Position, f: nat)
    requires Consistent(t) && f < |t.fis| && (reason.Dropped? || reason.InSafe?)
    ensures var t' := DropFlags(t, p, reason, WarzoneCleanup(sets, place, pos));
            && |t'.fis| == |t.fis|
            && if CarriedBy(t.fis[f], p) then
                 PutAt(place, f, p, if reason.Dropped? then sets.dropCenter else sets.safeCenter,
                       Owner(if reason.Dropped? then sets.dropOwned else sets.safeOwned, t.fis[f].freq), t.fis[f], t'.fis[f])
               else t'.fis[f] == t.fis[f]
  {
    assert Consistent(t.Sent(Drop(p)));
    CleanupFalls(t.Sent(Drop(p)), p, reason, sets, place, pos, 0, f);
  }

  // ------------------------------------------------------------------- kills

  /** The killer's once he has taken it. */
  predicate Taken(t: Table, killer: PlayerId, was: FlagInfo, now: FlagInfo) {
    now == FlagInfo(Carried, Some(killer), was.x, was.y, t.FreqOf(killer))
  }

  lemma TransferredOne(t: Table, i: nat, killer: PlayerId, victim: PlayerId)
    requires Consistent(t) && i < |t.fis| && CarriedBy(t.fis[i], victim) && killer != victim
    ensures var t1 := Transferred(t, i, killer, victim);
            && Consistent(t1) && OnlyAt(t, t1, i) && |t1.fis| == |t.fis| && Taken(t, killer, t.fis[i], t1.fis[i])
            && t1.Count(killer) == t.Count(killer) + 1
  {
    TransferredConsistent(t, i, killer, victim);
    TransferredCounts(t, i, killer, victim);
  }

  /** How many of the victim's flags come before f, from i on. */
  function Before(fis: seq<FlagInfo>, victim: PlayerId, i: nat, f: nat): int
    requires i <= f <= |fis|
  {
    Held(fis, victim, f) - Held(fis, victim, i)
  }

  lemma BeforeStep(fis: seq<FlagInfo>, victim: PlayerId, i: nat, f: nat, fi: FlagInfo)
    requires i < f <= |fis| && CarriedBy(fis[i], victim) && !CarriedBy(fi, victim)
    ensures Before(fis[i := fi], victim, i + 1, f) == Before(fis, victim, i, f) - 1
  {
    HeldUpdate(fis, i, fi, victim, f);
    HeldUpdate(fis, i, fi, victim, i + 1);
  }

  lemma BeforeNonnegative(fis: seq<FlagInfo>, victim: PlayerId, i: nat, f: nat)
    requires i <= f <= |fis|
    ensures Before(fis, victim, i, f) >= 0
  {
    HeldMonotone(fis, victim, i, f);
  }

  /** The first loop of a kill in which the killer keeps what he is given: the victim's
      flags go to him in order for as long as he has room. */
  lemma {:induction false} TransferGives(
      t: Table, killer: PlayerId, victim: PlayerId, limit: int, sets: Settings, place: Placing, pos: Position, i: nat, f: nat)
    requires Consistent(t) && killer != victim && Transfers(sets, t, killer, victim, false) && f < |t.fis|
    ensures var t' := Transfer(t, killer, victim, limit, false, WarzoneCleanup(sets, place, pos), i).0;
            && Consistent(t') && |t'.fis| == |t.fis| && t'.freqs == t.freqs
            && if i <= f && CarriedBy(t.fis[f], victim) && t.Count(killer) + Before(t.fis, victim, i, f) < limit
               then Taken(t, killer, t.fis[f], t'.fis[f]) else t'.fis[f] == t.fis[f]
    ensures i <= f && CarriedBy(t.fis[f], victim) && t.Count(killer) + Before(t.fis, victim, i, f) >= limit
            ==> Transfer(t, killer, victim, limit, false, WarzoneCleanup(sets, place, pos), i).1
    decreases MAXFLAGS - i
  {
    if i < |t.fis| {
      if i < f { BeforeNonnegative(t.fis, victim, i + 1, f); }
      if CarriedBy(t.fis[i], victim) && t.Count(killer) < limit {
        var t1 := Transferred(t, i, killer, victim);
        TransferredOne(t, i, killer, victim);
        if i < f { BeforeStep(t.fis, victim, i, f, t1.fis[i]); }
        assert f != i ==> FlagOf(t1, f) == FlagOf(t, f);
        TransferGives(t1, killer, victim, limit, sets, place, pos, i + 1, f);
      } else {
        TransferGives(t, killer, victim, limit, sets, place, pos, i + 1, f);
      }
    }
  }

  /** The second loop: what is still the victim's falls, with the victim's freq. */
  lemma {:induction false} OverflowFalls(
      t: Table, killer: PlayerId, victim: PlayerId, sets: Settings, place: Placing, pos: Position, i: nat, f: nat)
    requires Consistent(t) && killer != victim && f < |t.fis|
    ensures var t' := Overflow(t, killer, victim, WarzoneCleanup(sets, place, pos), i);
            && |t'.fis| == |t.fis|
            && if i <= f && CarriedBy(t.fis[f], victim)
               then PutAt(place, f, victim, sets.dropCenter, Owner(sets.dropOwned, t.FreqOf(victim)), t.fis[f], t'.fis[f])
               else t'.fis[f] == t.fis[f]
    decreases MAXFLAGS - i
  {
    if i >= |t.fis| {
    } else if CarriedBy(t.fis[i], killer) {
      assert Consistent(t.Sent(Pickup(i, killer)));
      OverflowFalls(t.Sent(Pickup(i, killer)), killer, victim, sets, place, pos, i + 1, f);
    } else if CarriedBy(t.fis[i], victim) {
      var t1 := Lost(t, i, victim);
      LostOne(t, i, victim);
      AnsweredFalls(sets, place, pos, t1, i, KillCantCarry, victim, t.FreqOf(victim), t.fis[i]);
      var t2 := SetAll(t1, Cleans(sets, place, pos, t1, i, KillCantCarry, victim, t.FreqOf(victim)));
      assert f != i ==> FlagOf(t2, f) == FlagOf(t, f);
      OverflowFalls(t2, killer, victim, sets, place, pos, i + 1, f);
    } else {
      OverflowFalls(t, killer, victim, sets, place, pos, i + 1, f);
    }
  }

  lemma HasSome(t: Table, p: PlayerId, f: nat)
    requires Consistent(t) && f < |t.fis| && CarriedBy(t.fis[f], p)
    ensures t.Count(p) != 0
  {
    HeldMonotone(t.fis, p, 0, |t.fis|);
  }

  /** A kill in which the killer keeps what he can carry: each of the victim's flags is his,
      with his freq, as long as he has room for it and the victim's flags before it; the
      others fall, with the victim's freq; nobody else's flag changes. */
  lemma WarzoneKillGives(
      t: Table, killer: PlayerId, victim: PlayerId, limit: int, sets: Settings, place: Placing, pos: Position, f: nat)
    requires Consistent(t) && killer != victim && Transfers(sets, t, killer, victim, false) && f < |t.fis|
    ensures var t' := Kill(t, killer, victim, limit, false, WarzoneCleanup(sets, place, pos));
            && |t'.fis| == |t.fis|
            && if !CarriedBy(t.fis[f], victim) then t'.fis[f] == t.fis[f]
               else if t.Count(killer) + Held(t.fis, victim, f) < limit then Taken(t, killer, t.fis[f], t'.fis[f])
               else PutAt(place, f, victim, sets.dropCenter, Owner(sets.dropOwned, t.FreqOf(victim)), t.fis[f], t'.fis[f])
  {
    if CarriedBy(t.fis[f], victim) { HasSome(t, victim, f); }
    TransferGives(t, killer, victim, limit, sets, place, pos, 0, f);
    var (t1, overflow) := Transfer(t, killer, victim, limit, false, WarzoneCleanup(sets, place, pos), 0);
    assert Consistent(t1.Sent(Drop(killer)));
    OverflowFalls(t1.Sent(Drop(killer)), killer, victim, sets, place, pos, 0, f);
  }

  // -------------------------------------- kills whose flags the killer does not keep

  /** Where a flag goes that the killer had for a moment. */
  ghost predicate PassedOn(
      sets: Settings, place: Placing, fake: bool, fid: nat, victim: PlayerId, freq: int, was: FlagInfo, now: FlagInfo)
  {
    PutAt(place, fid, victim, if fake then sets.dropCenter else sets.tkCenter,
          Owner(if fake then sets.dropOwned else sets.tkOwned, freq), was, now)
  }

  /** One such flag: it is placed, and the killer has no more flags than before. */
  lemma PassesOn(
      t: Table, i: nat, killer: PlayerId, victim: PlayerId, fake: bool, sets: Settings, place: Placing, pos: Position)
    requires Consistent(t) && i < |t.fis| && CarriedBy(t.fis[i], victim) && killer != victim
    requires !Transfers(sets, t, killer, victim, fake) && AlwaysPlaces(place)
    ensures var t1 := Transferred(t, i, killer, victim);
            var t2 := SetAll(t1, Cleans(sets, place, pos, t1, i, KillReason(t, killer, victim, fake), victim, t.FreqOf(victim)));
            && Consistent(t2) && |t2.fis| == |t.fis| && OnlyAt(t, t2, i) && !CarriedBy(t2.fis[i], victim)
            && PassedOn(sets, place, fake, i, victim, t.FreqOf(victim), t.fis[i], t2.fis[i])
            && t2.Count(killer) == t.Count(killer)
  {
    var t1 := Transferred(t, i, killer, victim);
    TransferredOne(t, i, killer, victim);
    var center := if fake then sets.dropCenter else sets.tkCenter;
    var freq := Owner(if fake then sets.dropOwned else sets.tkOwned, t.FreqOf(victim));
    var at := place(t1, i, victim, center);
    assert at.Some?;
    var nfi := FlagInfo(OnMap, None, at.value.0, at.value.1, freq);
    assert Cleans(sets, place, pos, t1, i, KillReason(t, killer, victim, fake), victim, t.FreqOf(victim)) == [Request(i, [nfi])];
    OneRequest(t1, i, nfi);
    SetFlagStores(t1, i, nfi);
    SetFlagConsistent(t1, i, nfi);
    CountKept(t, SetFlag(t1, i, nfi), i, killer);
  }

  lemma CountKept(t: Table, t2: Table, i: nat, p: PlayerId)
    requires Consistent(t) && Consistent(t2) && i < |t.fis| && OnlyAt(t, t2, i)
    requires !CarriedBy(t.fis[i], p) && !CarriedBy(t2.fis[i], p)
    ensures t2.Count(p) == t.Count(p)
  {
    forall f | 0 <= f < |t.fis| ensures t2.fis[f] == t.fis[i := t2.fis[i]][f] {
      if f != i { assert FlagOf(t2, f) == FlagOf(t, f); }
    }
    assert t2.fis == t.fis[i := t2.fis[i]];
    HeldUpdate(t.fis, i, t2.fis[i], p, |t.fis|);
  }

  /** One turn of the first loop. */
  lemma TransferTurns(
      t: Table, killer: PlayerId, victim: PlayerId, limit: int, fake: bool, h: Handler, i: nat, t1: Table, requests: seq<Request>)
    requires i < |t.fis| && i < MAXFLAGS && CarriedBy(t.fis[i], victim) && t.Count(killer) < limit
    requires t1 == Transferred(t, i, killer, victim)
    requires requests == h(t1, i, KillReason(t, killer, victim, fake), victim, t.FreqOf(victim))
    ensures Transfer(t, killer, victim, limit, fake, h, i) == Transfer(SetAll(t1, requests), killer, victim, limit, fake, h, i + 1)
  {
  }

  lemma TransferSkips(t: Table, killer: PlayerId, victim: PlayerId, limit: int, fake: bool, h: Handler, i: nat)
    requires i < |t.fis| && i < MAXFLAGS && !(CarriedBy(t.fis[i], victim) && t.Count(killer) < limit)
    ensures var (t', overflow) := Transfer(t, killer, victim, limit, fake, h, i + 1);
            Transfer(t, killer, victim, limit, fake, h, i) == (t', overflow || CarriedBy(t.fis[i], victim))
  {
  }

  lemma {:induction false} TransferPassesOn(
      t: Table, killer: PlayerId, victim: PlayerId, limit: int, fake: bool, sets: Settings, place: Placing, pos: Position,
      i: nat, f: nat) returns (t': Table, overflow: bool)
    requires Consistent(t) && killer != victim && f < |t.fis|
    requires !Transfers(sets, t, killer, victim, fake) && AlwaysPlaces(place)
    ensures (t', overflow) == Transfer(t, killer, victim, limit, fake, WarzoneCleanup(sets, place, pos), i)
    ensures Consistent(t') && |t'.fis| == |t.fis| && t'.freqs == t.freqs
    ensures if i <= f && CarriedBy(t.fis[f], victim) && t.Count(killer) < limit
            then PassedOn(sets, place, fake, f, victim, t.FreqOf(victim), t.fis[f], t'.fis[f]) && !CarriedBy(t'.fis[f], victim)
            else t'.fis[f] == t.fis[f]
    ensures overflow ==> t.Count(killer) >= limit
    ensures i <= f && CarriedBy(t.fis[f], victim) && t.Count(killer) >= limit ==> overflow
    decreases MAXFLAGS - i
  {
    var h := WarzoneCleanup(sets, place, pos);
    if i >= |t.fis| {
      t', overflow := t, false;
    } else if CarriedBy(t.fis[i], victim) && t.Count(killer) < limit {
      PassesOn(t, i, killer, victim, fake, sets, place, pos);
      var t1 := Transferred(t, i, killer, victim);
      var requests := Cleans(sets, place, pos, t1, i, KillReason(t, killer, victim, fake), victim, t.FreqOf(victim));
      TransferTurns(t, killer, victim, limit, fake, h, i, t1, requests);
      assert f != i ==> FlagOf(SetAll(t1, requests), f) == FlagOf(t, f);
      t', overflow := TransferPassesOn(SetAll(t1, requests), killer, victim, limit, fake, sets, place, pos, i + 1, f);
    } else {
      TransferSkips(t, killer, victim, limit, fake, h, i);
      t', overflow := TransferPassesOn(t, killer, victim, limit, fake, sets, place, pos, i + 1, f);
      overflow := overflow || CarriedBy(t.fis[i], victim);
    }
  }

  /** A kill by a fake player, or by a teammate where that does not transfer flags: each of
      the victim's flags is put down with the victim's freq, as for a drop if the killer
      is a fake player or could not carry it, and nobody else's flag changes. */
  lemma WarzoneKillPlaces(
      t: Table, killer: PlayerId, victim: PlayerId, limit: int, fake: bool, sets: Settings, place: Placing, pos: Position,
      f: nat)
    requires Consistent(t) && killer != victim && f < |t.fis|
    requires !Transfers(sets, t, killer, victim, fake) && AlwaysPlaces(place)
    ensures var t' := Kill(t, killer, victim, limit, fake, WarzoneCleanup(sets, place, pos));
            && |t'.fis| == |t.fis|
            && if !CarriedBy(t.fis[f], victim) then t'.fis[f] == t.fis[f]
               else PassedOn(sets, place, fake || t.Count(killer) >= limit, f, victim, t.FreqOf(victim), t.fis[f], t'.fis[f])
  {
    if CarriedBy(t.fis[f], victim) { HasSome(t, victim, f); }
    var t1, overflow := TransferPassesOn(t, killer, victim, limit, fake, sets, place, pos, 0, f);
    assert Consistent(t1.Sent(Drop(killer)));
    OverflowFalls(t1.Sent(Drop(killer)), killer, victim, sets, place, pos, 0, f);
  }

  // ------------------------------------------------------------------- resets

  lemma {:induction false} ResetClears(t: Table, i: nat, f: nat)
    requires f < |t.fis|
    ensures |ResetFrom(t, i).fis| == |t.fis|
    ensures ResetFrom(t, i).fis[f] == if f < i then t.fis[f] else FlagInfo(Missing, None, t.fis[f].x, t.fis[f].y, -1)
    decreases |t.fis| - i
  {
    if i < |t.fis| {
      var fi := t.fis[i];
      var t1 := if fi.carrier.Some? then t.WithCount(fi.carrier.value, t.Count(fi.carrier.value) - 1) else t;
      ResetClears(t1.WithFlag(i, fi.(state := Missing, carrier := None, freq := -1)), i + 1, f);
    }
  }

  /** A reset takes every flag away and leaves it neutral, and nobody has any. */
  lemma FlagResetClears(t: Table, f: nat, p: PlayerId)
    requires Consistent(t) && f < |t.fis|
    ensures var t' := FlagReset(t);
            && |t'.fis| == |t.fis| && t'.fis[f] == FlagInfo(Missing, None, t.fis[f].x, t.fis[f].y, -1)
            && t'.Count(p) == 0 && t'.out == t.out + [Victory]
  {
    var t1 := ResetFrom(t, 0);
    ResetClears(t, 0, f);
    ResetFromConsistent(t, 0);
    ResetMissing(t, 0);
    forall j | 0 <= j < |t1.fis| ensures !CarriedBy(t1.fis[j], p) { ResetClears(t, 0, j); }
    HeldZero(t1.fis, p, |t1.fis|);
  }
}
