/** The carry game of fg_wz.py: what its Cleanup asks for, and what clients see of it. */
module FlagWarzone {
  import opened Options
  import opened Flags
  import opened FlagCounts
  import opened FlagClients
  import opened FlagTrails
  import opened FlagDrops
  import opened FlagKills
  import opened FlagSpoils

  /** Whether flags that are lost in each way are owned and go to the center. */
  datatype Settings = Settings(
    friendlyTransfer: bool, dropOwned: bool, dropCenter: bool, safeOwned: bool, safeCenter: bool,
    tkOwned: bool, tkCenter: bool, neutOwned: bool, neutCenter: bool, spawnX: int, spawnY: int)

  /** Where spawn_flag puts a flag lost by a player, near him or in the center: it tries
      random points, keeps off tiles, other flags and no-flag regions, and may find none. */
  type Placing = (Table, nat, PlayerId, bool) -> Option<(int, int)>

  /** The tile a player is at. */
  type Position = PlayerId -> (int, int)

  function Spawned(fid: nat, at: Option<(int, int)>, freq: int): seq<Request> {
    match at
    case Some(xy) => [Request(fid, [FlagInfo(OnMap, None, xy.0, xy.1, freq)])]
    case None => []
  }

  function Neuted(fid: nat, x: int, y: int, freq: int): seq<Request> {
    [Request(fid, [FlagInfo(Missing, None, x, y, freq)])]
  }

  /** WZFlagGame.Cleanup. */
  function Cleans(
      sets: Settings, place: Placing, pos: Position, t: Table, fid: nat, reason: Reason, carrier: PlayerId,
      freq: int): seq<Request>
  {
    match reason
    case Dropped => Spawned(fid, place(t, fid, carrier, sets.dropCenter), if sets.dropOwned then freq else -1)
    case KillCantCarry => Spawned(fid, place(t, fid, carrier, sets.dropCenter), if sets.dropOwned then freq else -1)
    case KillFake => Spawned(fid, place(t, fid, carrier, sets.dropCenter), if sets.dropOwned then freq else -1)
    case InSafe => Spawned(fid, place(t, fid, carrier, sets.safeCenter), if sets.safeOwned then freq else -1)
    case KillTeam =>
      if sets.friendlyTransfer then []
      else Spawned(fid, place(t, fid, carrier, sets.tkCenter), if sets.tkOwned then freq else -1)
    case KillNormal => []
    case _ =>
      Neuted(fid, if sets.neutCenter then sets.spawnX else pos(carrier).0,
             if sets.neutCenter then sets.spawnY else pos(carrier).1, if sets.neutOwned then freq else -1)
  }

  function WarzoneCleanup(sets: Settings, place: Placing, pos: Position): Handler {
    (t: Table, fid: nat, reason: Reason, carrier: PlayerId, freq: int) => Cleans(sets, place, pos, t, fid, reason, carrier, freq)
  }

  /** It asks at most once, for the flag it is called for, and gives it to nobody. */
  lemma CleansOnce(
      sets: Settings, place: Placing, pos: Position, t: Table, fid: nat, reason: Reason, carrier: PlayerId, freq: int)
    ensures var requests := Cleans(sets, place, pos, t, fid, reason, carrier, freq);
            && OwnOnce(requests, fid) && (Answer(requests).Some? <==> requests != [])
            && (requests != [] ==> Answer(requests).value.carrier.None?)
  {
  }

  // ------------------------------------------------------------------- drops

  lemma {:induction false} WarzoneHarmless(
      t: Table, p: PlayerId, reason: Reason, sets: Settings, place: Placing, pos: Position, i: nat)
    requires Consistent(t)
    ensures HarmlessCleanup(t, p, reason, WarzoneCleanup(sets, place, pos), i)
    decreases MAXFLAGS - i
  {
    if i >= |t.fis| || i >= MAXFLAGS {
    } else if CarriedBy(t.fis[i], p) {
      var t1 := Lost(t, i, p);
      var requests := Cleans(sets, place, pos, t1, i, reason, p, t1.fis[i].freq);
      LostConsistent(t, i, p);
      SetAllConsistent(t1, requests);
      OnceIsHarmless(t1, requests, p, i);
      WarzoneHarmless(SetAll(t1, requests), p, reason, sets, place, pos, i + 1);
    } else {
      WarzoneHarmless(t, p, reason, sets, place, pos, i + 1);
    }
  }

  lemma OnceIsHarmless(t: Table, requests: seq<Request>, p: PlayerId, fid: nat)
    requires fid < |t.fis| && !t.fis[fid].state.Carried?
    requires requests == [] || (exists fi: FlagInfo :: fi.carrier.None? && requests == [Request(fid, [fi])])
    ensures HarmlessAll(t, requests, p, fid + 1)
  {
    if requests != [] {
      var fi: FlagInfo :| fi.carrier.None? && requests == [Request(fid, [fi])];
      assert [fi][1..] == [] && requests[1..] == [];
      assert HarmlessFlags(t, fid, [fi], p, fid + 1);
    }
  }

  /** Every drop in this game keeps the clients in agreement. */
  lemma WarzoneDropAgrees(v: View, t: Table, p: PlayerId, reason: Reason, sets: Settings, place: Placing, pos: Position)
    requires Consistent(t) && Agrees(v, t)
    ensures Agrees(v, DropFlags(t, p, reason, WarzoneCleanup(sets, place, pos)))
  {
    SentConsistent(t, Drop(p));
    WarzoneHarmless(t.Sent(Drop(p)), p, reason, sets, place, pos, 0);
    DropFlagsAgrees(v, t, p, reason, WarzoneCleanup(sets, place, pos));
  }

  // ------------------------------------------------------------------- kills

  /** Kills in which the killer keeps the flags he can carry. */
  predicate Transfers(sets: Settings, t: Table, killer: PlayerId, victim: PlayerId, fake: bool) {
    !fake && (t.FreqOf(killer) == t.FreqOf(victim) ==> sets.friendlyTransfer)
  }

  /** Where a flag is put that the killer does not keep. */
  function Center(sets: Settings, fake: bool): bool { if fake then sets.dropCenter else sets.tkCenter }

  /** spawn_flag finds a place for exactly the flags in the set. */
  ghost predicate PlacesOnly(place: Placing, victim: PlayerId, center: bool, placed: set<nat>) {
    forall s: Table, fid: nat | Consistent(s) && fid < |s.fis| :: place(s, fid, victim, center).Some? <==> fid in placed
  }

  /** In this game a kill keeps the clients in agreement exactly when the killer keeps the
      flags, the kill overflows, or a place is found for the victim's highest-numbered
      flag or for none of his flags. */
  lemma WarzoneKillIff(
      v: View, t: Table, killer: PlayerId, victim: PlayerId, limit: int, fake: bool, sets: Settings, place: Placing,
      pos: Position, placed: set<nat>)
    requires Consistent(t) && Agrees(v, t) && killer != victim
    requires !Transfers(sets, t, killer, victim, fake) ==> PlacesOnly(place, victim, Center(sets, fake), placed)
    ensures var taken := if Transfers(sets, t, killer, victim, fake) then {} else placed;
            Agrees(v, Kill(t.Sent(Killed(killer, victim)), killer, victim, limit, fake, WarzoneCleanup(sets, place, pos)))
            <==> || Overflows(t, killer, victim, limit, taken)
                 || !AnyIn(t.fis, victim, taken, 0, |t.fis|)
                 || HighestIn(t.fis, victim, taken)
  {
    var taken := if Transfers(sets, t, killer, victim, fake) then {} else placed;
    WarzoneTakes(t, killer, victim, fake, sets, place, pos, placed);
    KnownKillAgreesIff(v, t, killer, victim, limit, fake, WarzoneCleanup(sets, place, pos), taken);
  }

  lemma WarzoneTakes(
      t: Table, killer: PlayerId, victim: PlayerId, fake: bool, sets: Settings, place: Placing, pos: Position,
      placed: set<nat>)
    requires !Transfers(sets, t, killer, victim, fake) ==> PlacesOnly(place, victim, Center(sets, fake), placed)
    ensures TakesAway(t, killer, victim, fake, WarzoneCleanup(sets, place, pos),
                      if Transfers(sets, t, killer, victim, fake) then {} else placed)
    ensures VoidsOnce(t, victim, WarzoneCleanup(sets, place, pos))
  {
    var h, taken := WarzoneCleanup(sets, place, pos), if Transfers(sets, t, killer, victim, fake) then {} else placed;
    forall s: Table, fid: nat | Consistent(s) && s.freqs == t.freqs && fid < |s.fis|
      ensures var requests := h(s, fid, KillReason(t, killer, victim, fake), victim, t.FreqOf(victim));
              OwnOnce(requests, fid) && !HandsTo(requests, victim) && (fid in taken <==> MovesFrom(requests, killer))
      ensures OwnOnce(h(s, fid, KillCantCarry, victim, t.FreqOf(victim)), fid)
    {
      CleansOnce(sets, place, pos, s, fid, KillReason(t, killer, victim, fake), victim, t.FreqOf(victim));
      CleansOnce(sets, place, pos, s, fid, KillCantCarry, victim, t.FreqOf(victim));
    }
  }

  /** spawn_flag always finds a place for a flag. */
  ghost predicate AlwaysPlaces(place: Placing) {
    forall s, fid, p, center :: place(s, fid, p, center).Some?
  }

  const ALL_FLAGS: set<nat> := set f: nat | f < MAXFLAGS

  /** So as long as spawn_flag finds a place, every kill does, whatever the settings are. */
  lemma WarzoneKillAgrees(
      v: View, t: Table, killer: PlayerId, victim: PlayerId, limit: int, fake: bool, sets: Settings, place: Placing,
      pos: Position)
    requires Consistent(t) && Agrees(v, t) && killer != victim
    requires Transfers(sets, t, killer, victim, fake) || AlwaysPlaces(place)
    ensures Agrees(v, Kill(t.Sent(Killed(killer, victim)), killer, victim, limit, fake, WarzoneCleanup(sets, place, pos)))
  {
    WarzoneKillIff(v, t, killer, victim, limit, fake, sets, place, pos, ALL_FLAGS);
    AllOrNone(t.fis, victim);
  }

  lemma AllOrNone(fis: seq<FlagInfo>, victim: PlayerId)
    requires |fis| <= MAXFLAGS
    ensures !AnyIn(fis, victim, ALL_FLAGS, 0, |fis|) || HighestIn(fis, victim, ALL_FLAGS)
  {
    if AnyIn(fis, victim, ALL_FLAGS, 0, |fis|) {
      var k := Highest(fis, victim, ALL_FLAGS, |fis|);
      forall f | k < f < |fis| ensures !CarriedBy(fis[f], victim) { assert f in ALL_FLAGS; }
    }
  }

  /** A placing that finds no room for flag 1. */
  function NoRoomForOne(t: Table, fid: nat, p: PlayerId, center: bool): Option<(int, int)> {
    if fid == 1 then None else Some((512, 512))
  }

  /** When it finds a place for the first of two flags and not for the second, the clients
      lose sight of the second: a kill by a fake player. */
  lemma WarzoneKillCanDisagree(sets: Settings, pos: Position)
    ensures !Agrees(BOTH_SEEN_WITH_1, Kill(BOTH_HELD_BY_1.Sent(Killed(2, 1)), 2, 1, MAXFLAGS, true,
                                           WarzoneCleanup(sets, NoRoomForOne, pos)))
  {
    var fis := BOTH_HELD_BY_1.fis;
    var placed := ALL_FLAGS - {1};
    BothHeld();
    NoOverflowOfTwo(placed);
    assert CarriedBy(fis[0], 1) && CarriedBy(fis[1], 1) && 0 in placed;
    assert AnyIn(fis, 1, placed, 0, 2);
    WarzoneKillIff(BOTH_SEEN_WITH_1, BOTH_HELD_BY_1, 2, 1, MAXFLAGS, true, sets, NoRoomForOne, pos, placed);
  }

  /** Who has the flags after a kill in which the killer keeps what he can carry. */
  lemma WarzoneOutcome(
      t: Table, killer: PlayerId, victim: PlayerId, limit: int, sets: Settings, place: Placing, pos: Position)
    requires Consistent(t) && killer != victim && Transfers(sets, t, killer, victim, false)
    ensures var t' := Kill(t, killer, victim, limit, false, WarzoneCleanup(sets, place, pos));
            && Consistent(t') && t'.Count(victim) == 0
            && t'.Count(killer) == (if t.Count(victim) == 0 then t.Count(killer)
                                    else Capped(t.Count(killer), t.Count(victim), limit))
            && (forall q :: q != killer && q != victim ==> t'.Count(q) == t.Count(q))
  {
    var h := WarzoneCleanup(sets, place, pos);
    WarzoneTakes(t, killer, victim, false, sets, place, pos, {});
    KnownAnswers(t, t, killer, victim, limit, false, h, 0, {});
    var t1 := Transfer(t, killer, victim, limit, false, h, 0).0;
    SentConsistent(t1, Drop(killer));
    WarzoneVoids(t1.Sent(Drop(killer)), killer, victim, sets, place, pos, 0);
    KillOutcome(t, killer, victim, limit, false, h);
  }

  lemma {:induction false} WarzoneVoids(
      t: Table, killer: PlayerId, victim: PlayerId, sets: Settings, place: Placing, pos: Position, i: nat)
    requires Consistent(t)
    ensures VoidsToNobody(t, killer, victim, WarzoneCleanup(sets, place, pos), i)
    decreases MAXFLAGS - i
  {
    if i >= |t.fis| || i >= MAXFLAGS {
    } else if CarriedBy(t.fis[i], killer) {
      SentConsistent(t, Pickup(i, killer));
      WarzoneVoids(t.Sent(Pickup(i, killer)), killer, victim, sets, place, pos, i + 1);
    } else if CarriedBy(t.fis[i], victim) {
      var t1 := Lost(t, i, victim);
      var requests := Cleans(sets, place, pos, t1, i, KillCantCarry, victim, t.FreqOf(victim));
      LostConsistent(t, i, victim);
      SetAllConsistent(t1, requests);
      CleansOnce(sets, place, pos, t1, i, KillCantCarry, victim, t.FreqOf(victim));
      WarzoneVoids(SetAll(t1, requests), killer, victim, sets, place, pos, i + 1);
    } else {
      WarzoneVoids(t, killer, victim, sets, place, pos, i + 1);
    }
  }
}
