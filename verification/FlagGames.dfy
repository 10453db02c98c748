/** What the theorems about whole games are about: a game in which a flag goes through
    every hand. */
module FlagGames {
  import opened Options
  import opened Flags
  import opened FlagCounts
  import opened FlagClients
  import opened FlagRequests
  import opened FlagOutcomes
  import opened FlagRuns
  import opened FlagWarzone

  /** Flag 0 is put on the map and picked up by player 1; player 2 of another freq kills him
      and drops it. */
  function Ops(x: int, y: int, h: Handler): seq<Op> {
    [Sets(0, [FlagInfo(OnMap, None, x, y, -1)]), Sets(0, [FlagInfo(Carried, Some(1), x, y, 0)]),
     Kills(2, 1, 255, false, h), Drops(2, Dropped, h)]
  }

  lemma OneSet(t: Table, nfi: FlagInfo)
    ensures Do(t, Sets(0, [nfi])) == SetFlag(t, 0, nfi)
  {
    assert [nfi][1..] == [];
    assert SetFlags(SetFlag(t, 0, nfi), 1, []) == SetFlag(t, 0, nfi);
  }

  ghost predicate HasFlag(t: Table, freqs: map<PlayerId, int>, fi: FlagInfo) {
    Consistent(t) && FreqsOkExcept(t, None, 0) && t.freqs == freqs && |t.fis| == 1 && t.fis[0] == fi
  }

  lemma SetStep(t: Table, nfi: FlagInfo)
    requires Consistent(t) && FreqsOkExcept(t, None, 0) && |t.fis| <= 1 && Valid(0, nfi) && !nfi.state.Missing?
    requires !FlagOf(t, 0).state.Carried?
    ensures var fi := FlagInfo(nfi.state, nfi.carrier, nfi.x, nfi.y,
                               if nfi.carrier.Some? then t.FreqOf(nfi.carrier.value) else nfi.freq);
            HasFlag(Do(t, Sets(0, [nfi])), t.freqs, fi)
  {
    OneSet(t, nfi);
    DoKeeps(t, Sets(0, [nfi]));
    SetFlagStores(t, 0, nfi);
  }

  lemma CountOne(t: Table, p: PlayerId)
    requires Consistent(t) && |t.fis| == 1
    ensures t.Count(p) == if CarriedBy(t.fis[0], p) then 1 else 0
  {
    assert Held(t.fis, p, 1) == Held(t.fis, p, 0) + if CarriedBy(t.fis[0], p) then 1 else 0;
  }

  lemma KillStep(t: Table, x: int, y: int, freq: int, sets: Settings, place: Placing, pos: Position)
    requires HasFlag(t, t.freqs, FlagInfo(Carried, Some(1), x, y, freq)) && t.FreqOf(1) != t.FreqOf(2)
    ensures var t' := Do(t, Kills(2, 1, 255, false, WarzoneCleanup(sets, place, pos)));
            HasFlag(t', t.freqs, FlagInfo(Carried, Some(2), x, y, t.FreqOf(2)))
  {
    var h := WarzoneCleanup(sets, place, pos);
    DoKeeps(t, Kills(2, 1, 255, false, h));
    var t0 := t.Sent(Killed(2, 1));
    assert Consistent(t0);
    CountOne(t0, 2);
    WarzoneKillGives(t0, 2, 1, 255, sets, place, pos, 0);
    KillKeepsFreqs(t0, sets, place, pos);
  }

  lemma KillKeepsFreqs(t: Table, sets: Settings, place: Placing, pos: Position)
    requires Consistent(t) && |t.fis| == 1 && t.FreqOf(1) != t.FreqOf(2) && t.Count(2) == 0
    ensures Kill(t, 2, 1, 255, false, WarzoneCleanup(sets, place, pos)).freqs == t.freqs
  {
    TransferGives(t, 2, 1, 255, sets, place, pos, 0, 0);
    TransferFits(t, sets, place, pos);
  }

  lemma TransferFits(t: Table, sets: Settings, place: Placing, pos: Position)
    requires Consistent(t) && |t.fis| == 1 && t.FreqOf(1) != t.FreqOf(2) && t.Count(2) == 0
    ensures !Transfer(t, 2, 1, 255, false, WarzoneCleanup(sets, place, pos), 0).1
  {
    var h := WarzoneCleanup(sets, place, pos);
    if CarriedBy(t.fis[0], 1) {
      TransferTurns(t, 2, 1, 255, false, h, 0, Transferred(t, 0, 2, 1), []);
      TransferredOne(t, 0, 2, 1);
    }
  }

  /** Somebody plays: with any settings, whenever a place is found, the flag ends where
      spawn_flag puts what player 2 dropped, and that is where every client sees it. */
  lemma AGameIsPlayed(
      freqs: map<PlayerId, int>, x: int, y: int, sets: Settings, place: Placing, pos: Position) returns (t: Table)
    requires AlwaysPlaces(place) && NewGame(freqs).FreqOf(1) != NewGame(freqs).FreqOf(2)
    ensures PlaysWarzone(NewGame(freqs), Ops(x, y, WarzoneCleanup(sets, place, pos)), t, WarzoneCleanup(sets, place, pos))
    ensures |t.fis| == 1 && t.fis[0].state.OnMap?
    ensures PutAt(place, 0, 2, sets.dropCenter, Owner(sets.dropOwned, NewGame(freqs).FreqOf(2)),
                  FlagInfo(Carried, Some(2), x, y, NewGame(freqs).FreqOf(2)), t.fis[0])
    ensures Agrees(map[], t)
  {
    var h := WarzoneCleanup(sets, place, pos);
    var ops, t0 := Ops(x, y, h), NewGame(freqs);
    assert Consistent(t0) && FreqsOkExcept(t0, None, 0);
    var t1 := Do(t0, ops[0]);
    SetStep(t0, FlagInfo(OnMap, None, x, y, -1));
    var t2 := Do(t1, ops[1]);
    SetStep(t1, FlagInfo(Carried, Some(1), x, y, 0));
    var t3 := Do(t2, ops[2]);
    KillStep(t2, x, y, t2.FreqOf(1), sets, place, pos);
    t := Do(t3, ops[3]);
    WarzoneDropFalls(t3, 2, Dropped, sets, place, pos, 0);
    FourSteps(t0, ops, t1, t2, t3, t, h);
    WarzoneGamesAgree(freqs, ops, t, sets, place, pos);
  }

  lemma FourSteps(t0: Table, ops: seq<Op>, t1: Table, t2: Table, t3: Table, t: Table, h: Handler)
    requires |ops| == 4 && t1 == Do(t0, ops[0]) && t2 == Do(t1, ops[1]) && t3 == Do(t2, ops[2]) && t == Do(t3, ops[3])
    requires forall i | 0 <= i < 4 :: IsWarzone(ops[i], h) && !ops[i].Enters? && !ops[i].Cleans? && !ops[i].ChangesFreq?
    ensures PlaysWarzone(t0, ops, t, h)
  {
    assert PlaysWarzone(t, [], t, h);
    assert ops[3..][1..] == [] && ops[2..][1..] == ops[3..] && ops[1..][1..] == ops[2..];
    assert PlaysWarzone(t3, ops[3..], t, h);
    assert PlaysWarzone(t2, ops[2..], t, h);
    assert PlaysWarzone(t1, ops[1..], t, h);
  }
}
