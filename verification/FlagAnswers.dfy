/** What a game's Cleanup is told, for every game that answers with a place on the map or
    not at all: which flag, why, who lost it, and the freq it was lost with; and what
    comes of its answers for every single flag. */
module FlagAnswers {
  import opened Options
  import opened Flags
  import opened FlagCounts
  import opened FlagRequests
  import opened FlagOutcomes
  import opened FlagSpoils

  datatype Spot = Spot(x: int, y: int, freq: int)

  /** A game: the spot it puts a flag at, given the flag, the reason, the player who lost it
      and the freq; None to leave it. */
  type Game = (nat, Reason, PlayerId, int) -> Option<Spot>

  function Asks(fid: nat, at: Option<Spot>): seq<Request> {
    match at
    case Some(s) => [Request(fid, [FlagInfo(OnMap, None, s.x, s.y, s.freq)])]
    case None => []
  }

  function HandlerOf(game: Game): Handler {
    (t: Table, fid: nat, reason: Reason, p: PlayerId, freq: int) => Asks(fid, game(fid, reason, p, freq))
  }

  /** Put where the game says, or left as it would have been. */
  predicate PutOr(at: Option<Spot>, now: FlagInfo, otherwise: FlagInfo) {
    match at
    case Some(s) => now == FlagInfo(OnMap, None, s.x, s.y, s.freq)
    case None => now == otherwise
  }

  lemma AnswerPuts(t: Table, fid: nat, at: Option<Spot>)
    requires Consistent(t) && fid < |t.fis|
    ensures var t' := SetAll(t, Asks(fid, at));
            Consistent(t') && |t'.fis| == |t.fis| && OnlyAt(t, t', fid) && PutOr(at, t'.fis[fid], t.fis[fid])
  {
    match at
    case Some(s) =>
      var nfi := FlagInfo(OnMap, None, s.x, s.y, s.freq);
      OneRequest(t, fid, nfi);
      SetFlagStores(t, fid, nfi);
      SetFlagConsistent(t, fid, nfi);
    case None =>
  }

  /** A flag nobody has any more, but for its state as it was. */
  function Gone(fi: FlagInfo): FlagInfo { FlagInfo(Missing, None, fi.x, fi.y, fi.freq) }

  /** One flag lost, and the game's answer. */
  lemma LostPuts(t: Table, i: nat, p: PlayerId, at: Option<Spot>)
    requires Consistent(t) && i < |t.fis| && CarriedBy(t.fis[i], p)
    ensures var t' := SetAll(Lost(t, i, p), Asks(i, at));
            && Consistent(t') && |t'.fis| == |t.fis| && OnlyAt(t, t', i) && PutOr(at, t'.fis[i], Gone(t.fis[i]))
            && !CarriedBy(t'.fis[i], p)
  {
    LostOne(t, i, p);
    AnswerPuts(Lost(t, i, p), i, at);
  }

  /** Losing flags in any way but a kill: for each of his flags, and for no other, the game
      is told the flag, the reason, the player and the freq the flag had. */
  lemma {:induction false} CleanupTells(t: Table, p: PlayerId, reason: Reason, game: Game, i: nat, f: nat)
    requires Consistent(t) && f < |t.fis|
    ensures var t' := Cleanup(t, p, reason, HandlerOf(game), i);
            && |t'.fis| == |t.fis|
            && if i <= f && CarriedBy(t.fis[f], p)
               then PutOr(game(f, reason, p, t.fis[f].freq), t'.fis[f], Gone(t.fis[f])) else t'.fis[f] == t.fis[f]
    decreases MAXFLAGS - i
  {
    if i >= |t.fis| {
    } else if CarriedBy(t.fis[i], p) {
      var at := game(i, reason, p, t.fis[i].freq);
      LostPuts(t, i, p, at);
      var t' := SetAll(Lost(t, i, p), Asks(i, at));
      assert f != i ==> FlagOf(t', f) == FlagOf(t, f);
      CleanupTells(t', p, reason, game, i + 1, f);
    } else {
      CleanupTells(t, p, reason, game, i + 1, f);
    }
  }

  /** A drop packet. */
  lemma DropTells(t: Table, p: PlayerId, reason: Reason, game: Game, f: nat)
    requires Consistent(t) && f < |t.fis|
    ensures var t' := DropFlags(t, p, reason, HandlerOf(game));
            |t'.fis| == |t.fis|
            && if CarriedBy(t.fis[f], p) then PutOr(game(f, reason, p, t.fis[f].freq), t'.fis[f], Gone(t.fis[f]))
               else t'.fis[f] == t.fis[f]
  {
    assert Consistent(t.Sent(Drop(p)));
    CleanupTells(t.Sent(Drop(p)), p, reason, game, 0, f);
  }

  /** A change of freq, which is recorded before the game is told. */
  lemma ChangeFreqTells(t: Table, p: PlayerId, freq: int, game: Game, f: nat)
    requires Consistent(t) && f < |t.fis|
    ensures var t' := ChangeFreq(t, p, freq, HandlerOf(game));
            |t'.fis| == |t.fis|
            && if CarriedBy(t.fis[f], p) then PutOr(game(f, FreqChange, p, t.fis[f].freq), t'.fis[f], Gone(t.fis[f]))
               else t'.fis[f] == t.fis[f]
  {
    CleanupTells(t.(freqs := t.freqs[p := freq]), p, FreqChange, game, 0, f);
  }

  // ------------------------------------------------------------------- kills

  /** Why a game is told of a flag the killer has got. */
  function WhyTaken(t: Table, killer: PlayerId, victim: PlayerId, fake: bool): Reason {
    if fake then KillFake else if t.FreqOf(killer) != t.FreqOf(victim) then KillNormal else KillTeam
  }

  /** The killer has it, with his freq. */
  function Taken(t: Table, killer: PlayerId, was: FlagInfo): FlagInfo {
    FlagInfo(Carried, Some(killer), was.x, was.y, t.FreqOf(killer))
  }

  /** How many of the victim's flags from i on and before f the killer would keep. */
  function KeptBefore(fis: seq<FlagInfo>, victim: PlayerId, keeps: nat -> bool, i: nat, f: nat): nat
    decreases f - i
  {
    if i >= f || i >= |fis| then 0
    else KeptBefore(fis, victim, keeps, i + 1, f) + if CarriedBy(fis[i], victim) && keeps(i) then 1 else 0
  }

  lemma {:induction false} KeptBeforeSame(
      fis: seq<FlagInfo>, fis': seq<FlagInfo>, victim: PlayerId, keeps: nat -> bool, i: nat, f: nat)
    requires |fis| == |fis'| && forall j | i <= j < |fis| :: fis[j] == fis'[j]
    ensures KeptBefore(fis, victim, keeps, i, f) == KeptBefore(fis', victim, keeps, i, f)
    decreases f - i
  {
    if i < f && i < |fis| { KeptBeforeSame(fis, fis', victim, keeps, i + 1, f); }
  }

  /** One flag changes hands, and the game's answer. */
  lemma TakenPuts(t: Table, i: nat, killer: PlayerId, victim: PlayerId, at: Option<Spot>)
    requires Consistent(t) && i < |t.fis| && CarriedBy(t.fis[i], victim) && killer != victim
    ensures var t' := SetAll(Transferred(t, i, killer, victim), Asks(i, at));
            && Consistent(t') && |t'.fis| == |t.fis| && OnlyAt(t, t', i) && PutOr(at, t'.fis[i], Taken(t, killer, t.fis[i]))
            && t'.Count(killer) == t.Count(killer) + if at.None? then 1 else 0
  {
    TransferredOne(t, i, killer, victim);
    AnswerPuts(Transferred(t, i, killer, victim), i, at);
    if at.Some? { CountKept(t, SetAll(Transferred(t, i, killer, victim), Asks(i, at)), i, killer); }
  }

  /** Whether the killer has room for flag f when its turn comes. */
  predicate HasRoom(t: Table, killer: PlayerId, victim: PlayerId, limit: int, keeps: nat -> bool, i: nat, f: nat) {
    t.Count(killer) + KeptBefore(t.fis, victim, keeps, i, f) < limit
  }

  /** Which flags the game leaves with the killer. */
  ghost predicate Keeps(game: Game, why: Reason, victim: PlayerId, freq: int, keeps: nat -> bool) {
    forall j: nat :: keeps(j) <==> game(j, why, victim, freq).None?
  }

  lemma RoomAfterOne(
      t: Table, t': Table, killer: PlayerId, victim: PlayerId, limit: int, keeps: nat -> bool, i: nat, f: nat)
    requires i < f < |t.fis| && |t'.fis| == |t.fis| && OnlyAt(t, t', i) && CarriedBy(t.fis[i], victim)
    requires t'.Count(killer) == t.Count(killer) + if keeps(i) then 1 else 0
    ensures HasRoom(t', killer, victim, limit, keeps, i + 1, f) <==> HasRoom(t, killer, victim, limit, keeps, i, f)
  {
    forall j | i + 1 <= j < |t.fis| ensures t.fis[j] == t'.fis[j] { assert FlagOf(t', j) == FlagOf(t, j); }
    KeptBeforeSame(t.fis, t'.fis, victim, keeps, i + 1, f);
  }

  /** The first loop of a kill. */
  lemma {:induction false} TransferTells(
      t: Table, killer: PlayerId, victim: PlayerId, limit: int, fake: bool, game: Game, i: nat, f: nat,
      why: Reason, freq: int, keeps: nat -> bool) returns (t': Table, overflow: bool)
    requires Consistent(t) && killer != victim && f < |t.fis|
    requires why == WhyTaken(t, killer, victim, fake) && freq == t.FreqOf(victim) && Keeps(game, why, victim, freq, keeps)
    ensures (t', overflow) == Transfer(t, killer, victim, limit, fake, HandlerOf(game), i)
    ensures Consistent(t') && |t'.fis| == |t.fis| && t'.freqs == t.freqs
    ensures i <= f && CarriedBy(t.fis[f], victim) ==>
              if HasRoom(t, killer, victim, limit, keeps, i, f)
              then PutOr(game(f, why, victim, freq), t'.fis[f], Taken(t, killer, t.fis[f])) && !CarriedBy(t'.fis[f], victim)
              else t'.fis[f] == t.fis[f] && overflow
    ensures !(i <= f && CarriedBy(t.fis[f], victim)) ==> t'.fis[f] == t.fis[f]
    decreases MAXFLAGS - i
  {
    var h := HandlerOf(game);
    if i >= |t.fis| {
      t', overflow := t, false;
    } else if CarriedBy(t.fis[i], victim) && t.Count(killer) < limit {
      var at := game(i, why, victim, freq);
      var t1 := Transferred(t, i, killer, victim);
      TakenPuts(t, i, killer, victim, at);
      TransferTurns(t, killer, victim, limit, fake, h, i, t1, Asks(i, at));
      var t2 := SetAll(t1, Asks(i, at));
      assert f != i ==> FlagOf(t2, f) == FlagOf(t, f);
      assert keeps(i) <==> at.None?;
      if i < f { RoomAfterOne(t, t2, killer, victim, limit, keeps, i, f); }
      t', overflow := TransferTells(t2, killer, victim, limit, fake, game, i + 1, f, why, freq, keeps);
    } else {
      TransferSkips(t, killer, victim, limit, fake, h, i);
      t', overflow := TransferTells(t, killer, victim, limit, fake, game, i + 1, f, why, freq, keeps);
      overflow := overflow || CarriedBy(t.fis[i], victim);
    }
  }

  /** The second loop. */
  lemma {:induction false} OverflowTells(t: Table, killer: PlayerId, victim: PlayerId, game: Game, i: nat, f: nat)
    requires Consistent(t) && killer != victim && f < |t.fis|
    ensures var t' := Overflow(t, killer, victim, HandlerOf(game), i);
            && |t'.fis| == |t.fis|
            && if i <= f && CarriedBy(t.fis[f], victim)
               then PutOr(game(f, KillCantCarry, victim, t.FreqOf(victim)), t'.fis[f], Gone(t.fis[f]))
               else t'.fis[f] == t.fis[f]
    decreases MAXFLAGS - i
  {
    if i >= |t.fis| {
    } else if CarriedBy(t.fis[i], killer) {
      assert Consistent(t.Sent(Pickup(i, killer)));
      OverflowTells(t.Sent(Pickup(i, killer)), killer, victim, game, i + 1, f);
    } else if CarriedBy(t.fis[i], victim) {
      var at := game(i, KillCantCarry, victim, t.FreqOf(victim));
      LostPuts(t, i, victim, at);
      var t' := SetAll(Lost(t, i, victim), Asks(i, at));
      assert f != i ==> FlagOf(t', f) == FlagOf(t, f);
      OverflowTells(t', killer, victim, game, i + 1, f);
    } else {
      OverflowTells(t, killer, victim, game, i + 1, f);
    }
  }

  function LeftWithHim(game: Game, why: Reason, victim: PlayerId, freq: int): nat -> bool {
    (j: nat) => game(j, why, victim, freq).None?
  }

  /** A kill: as long as the killer has room for it and the flags before it that he keeps,
      each of the victim's flags becomes his and the game is told so, with the victim and
      his freq, and for a fake killer, a teammate or neither; the game may put it down. For
      each of the rest it is told that the killer cannot carry it. Nobody else's flag is
      touched. */
  lemma KillTells(t: Table, killer: PlayerId, victim: PlayerId, limit: int, fake: bool, game: Game, f: nat)
    requires Consistent(t) && killer != victim && f < |t.fis|
    ensures var t', why, freq :=
              Kill(t, killer, victim, limit, fake, HandlerOf(game)), WhyTaken(t, killer, victim, fake), t.FreqOf(victim);
            && |t'.fis| == |t.fis|
            && if !CarriedBy(t.fis[f], victim) then t'.fis[f] == t.fis[f]
               else if HasRoom(t, killer, victim, limit, LeftWithHim(game, why, victim, freq), 0, f)
               then PutOr(game(f, why, victim, freq), t'.fis[f], Taken(t, killer, t.fis[f]))
               else PutOr(game(f, KillCantCarry, victim, freq), t'.fis[f], Gone(t.fis[f]))
  {
    if CarriedBy(t.fis[f], victim) { HasSome(t, victim, f); }
    var why, freq := WhyTaken(t, killer, victim, fake), t.FreqOf(victim);
    var keeps := LeftWithHim(game, why, victim, freq);
    var t1, overflow := TransferTells(t, killer, victim, limit, fake, game, 0, f, why, freq, keeps);
    assert Consistent(t1.Sent(Drop(killer)));
    OverflowTells(t1.Sent(Drop(killer)), killer, victim, game, 0, f);
  }
}
