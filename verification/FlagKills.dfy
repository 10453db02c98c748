/** Kills: who ends up with the flags, and when the clients see it, depending on which of
    the transferred flags the game's Cleanup takes away from the killer at once. */
module FlagKills {
  import opened Options
  import opened Flags
  import opened FlagCounts
  import opened FlagClients
  import opened FlagTrails
  import opened FlagDrops

  function Max(a: int, b: int): int { if a < b then b else a }

  // ------------------------------------------------- what the handler answers

  /** At most one request, for one flag. */
  predicate OwnOnce(requests: seq<Request>, fid: nat) { |requests| <= 1 && OwnOnly(requests, fid) }

  /** What such an answer comes to. */
  function Answer(requests: seq<Request>): Option<FlagInfo> {
    if requests == [] then None else Effective(requests[0])
  }

  /** The answer moves the flag away from p, and it hands it to p. */
  predicate MovesFrom(requests: seq<Request>, p: PlayerId) {
    Answer(requests).Some? && Answer(requests).value.carrier != Some(p)
  }

  predicate HandsTo(requests: seq<Request>, p: PlayerId) {
    Answer(requests).Some? && Answer(requests).value.carrier == Some(p)
  }

  /** From flag i on, each time a flag has been transferred, the handler makes at most one
      request, for that flag; `taken` are those it moves away from the killer and `back`,
      of these, those it hands back to the victim. */
  predicate Answers(
      t: Table, killer: PlayerId, victim: PlayerId, limit: int, fake: bool, h: Handler, i: nat, taken: set<nat>,
      back: set<nat>)
    decreases MAXFLAGS - i
  {
    if i >= |t.fis| || i >= MAXFLAGS then true
    else if !CarriedBy(t.fis[i], victim) then Answers(t, killer, victim, limit, fake, h, i + 1, taken, back)
    else if t.Count(killer) < limit then
      var t1 := Transferred(t, i, killer, victim);
      var requests := h(t1, i, KillReason(t, killer, victim, fake), victim, t.FreqOf(victim));
      && OwnOnce(requests, i)
      && (i in taken <==> MovesFrom(requests, killer)) && (i in back <==> HandsTo(requests, victim))
      && Answers(SetAll(t1, requests), killer, victim, limit, fake, h, i + 1, taken, back)
    else i !in back && Answers(t, killer, victim, limit, fake, h, i + 1, taken, back)
  }

  /** The same for the second loop; `told` are the flags it says where they are now. */
  predicate Voids(t: Table, killer: PlayerId, victim: PlayerId, h: Handler, i: nat, told: set<nat>)
    decreases MAXFLAGS - i
  {
    if i >= |t.fis| || i >= MAXFLAGS then true
    else if CarriedBy(t.fis[i], killer) then Voids(t.Sent(Pickup(i, killer)), killer, victim, h, i + 1, told)
    else if CarriedBy(t.fis[i], victim) then
      var t1 := Lost(t, i, victim);
      var requests := h(t1, i, KillCantCarry, victim, t.FreqOf(victim));
      && OwnOnce(requests, i) && (i in told <==> Tells(requests))
      && Voids(SetAll(t1, requests), killer, victim, h, i + 1, told)
    else Voids(t, killer, victim, h, i + 1, told)
  }

  /** What the handler answers in a kill. */
  predicate AnswersKill(
      t: Table, killer: PlayerId, victim: PlayerId, limit: int, fake: bool, h: Handler, taken: set<nat>, back: set<nat>,
      told: set<nat>)
  {
    && Answers(t, killer, victim, limit, fake, h, 0, taken, back)
    && var (t1, overflow) := Transfer(t, killer, victim, limit, fake, h, 0);
       overflow ==> Voids(t1.Sent(Drop(killer)), killer, victim, h, 0, told)
  }

  /** One answer is one set_flag, or nothing. */
  lemma {:induction false} AnswerIsSet(t: Table, requests: seq<Request>, fid: nat)
    requires fid < |t.fis| <= MAXFLAGS && OwnOnce(requests, fid)
    ensures SetAll(t, requests) == if Answer(requests).Some? then SetFlag(t, fid, Answer(requests).value) else t
    ensures Tells(requests) <==> Answer(requests).Some? && !Answer(requests).value.state.Missing?
  {
    if requests != [] {
      SetsOne(t, requests[0], fid);
      assert requests[1..] == [];
    }
  }

  // ---------------------------------------------------------- what is seen

  /** What clients see during the first loop: the victim's flags from i on as the killer's,
      or not at all once the killer was told to drop everything, those handed back as they
      are, and `stale` flags not at all although the killer carries them. */
  function Expecting(
      fis: seq<FlagInfo>, killer: PlayerId, victim: PlayerId, i: nat, dropped: bool, stale: set<nat>, back: set<nat>,
      f: nat): Seen
  {
    if f in stale then Absent
    else if f < |fis| && CarriedBy(fis[f], victim) && !(f < i && f in back) then (if dropped then Absent else HeldBy(killer))
    else Server(fis, f)
  }

  ghost predicate Killing(
      w: View, fis: seq<FlagInfo>, killer: PlayerId, victim: PlayerId, i: nat, dropped: bool, stale: set<nat>,
      back: set<nat>)
  {
    && (forall f: nat :: Look(w, f) == Expecting(fis, killer, victim, i, dropped, stale, back, f))
    && (forall f | f in stale :: f < i && f < |fis| && CarriedBy(fis[f], killer))
  }

  lemma KilledIsSeen(v: View, t: Table, killer: PlayerId, victim: PlayerId, back: set<nat>)
    requires Consistent(t) && Agrees(v, t)
    ensures Killing(Replay(v, t.out + [Killed(killer, victim)]), t.fis, killer, victim, 0, false, {}, back)
  {
    ReplayOne(v, t.out, Killed(killer, victim));
    forall f: nat
      ensures Look(React(Replay(v, t.out), Killed(killer, victim)), f)
              == Expecting(t.fis, killer, victim, 0, false, {}, back, f)
    {
      ReactLook(Replay(v, t.out), Killed(killer, victim), f);
      assert Look(Replay(v, t.out), f) == Server(t.fis, f);
      assert f < |t.fis| ==> WellFormed(t.fis[f]);
    }
  }

  /** A flag that is not transferred. */
  lemma PassKilling(
      w: View, fis: seq<FlagInfo>, killer: PlayerId, victim: PlayerId, i: nat, dropped: bool, stale: set<nat>,
      back: set<nat>)
    requires Killing(w, fis, killer, victim, i, dropped, stale, back)
    requires i < |fis| ==> !CarriedBy(fis[i], victim) || i !in back
    ensures Killing(w, fis, killer, victim, i + 1, dropped, stale, back)
  {
    forall f: nat ensures Look(w, f) == Expecting(fis, killer, victim, i + 1, dropped, stale, back, f) {
      assert Look(w, f) == Expecting(fis, killer, victim, i, dropped, stale, back, f);
    }
  }

  /** A flag that becomes the killer's. */
  lemma GivenKilling(
      w: View, fis: seq<FlagInfo>, killer: PlayerId, victim: PlayerId, i: nat, dropped: bool, stale: set<nat>,
      back: set<nat>,
      fi: FlagInfo)
    requires Killing(w, fis, killer, victim, i, dropped, stale, back) && killer != victim
    requires i < |fis| && CarriedBy(fis[i], victim) && CarriedBy(fi, killer)
    ensures Killing(w, fis[i := fi], killer, victim, i + 1, dropped, if dropped then stale + {i} else stale, back)
  {
    var stale' := if dropped then stale + {i} else stale;
    forall f: nat ensures Look(w, f) == Expecting(fis[i := fi], killer, victim, i + 1, dropped, stale', back, f) {
      assert Look(w, f) == Expecting(fis, killer, victim, i, dropped, stale, back, f);
    }
  }

  /** Taking a flag from the killer hides the victim's flags from the clients and shows
      all the killer has. */
  lemma RetakenKilling(
      w: View, w': View, fis: seq<FlagInfo>, killer: PlayerId, victim: PlayerId, i: nat, dropped: bool, stale: set<nat>,
      back: set<nat>, fid: nat, fi: FlagInfo)
    requires Killing(w, fis, killer, victim, i, dropped, stale, back) && killer != victim
    requires fid < |fis| && CarriedBy(fis[fid], killer) && fi.state.Missing? && RetakenSeen(w, w', fis[fid := fi], killer)
    requires forall f | 0 <= f < |fis| :: WellFormed(fis[f])
    ensures Killing(w', fis[fid := fi], killer, victim, i, true, {}, back)
  {
    forall f: nat ensures Look(w', f) == Expecting(fis[fid := fi], killer, victim, i, true, {}, back, f) {
      assert Look(w, f) == Expecting(fis, killer, victim, i, dropped, stale, back, f);
      assert f < |fis| ==> WellFormed(fis[f]);
    }
  }

  lemma PutKilling(
      w: View, w': View, fis: seq<FlagInfo>, killer: PlayerId, victim: PlayerId, i: nat, back: set<nat>, fid: nat,
      fi: FlagInfo, told: bool)
    requires Killing(w, fis, killer, victim, i, true, {}, back) && fid < |fis| && fis[fid].state.Missing?
    requires PutSeen(w, w', fid, fi, told) && (CarriedBy(fi, victim) ==> fid < i && fid in back)
    ensures Killing(w', fis[fid := fi], killer, victim, i, true, {}, back)
  {
    forall f: nat ensures Look(w', f) == Expecting(fis[fid := fi], killer, victim, i, true, {}, back, f) {
      assert Look(w, f) == Expecting(fis, killer, victim, i, true, {}, back, f);
    }
  }

  /** A flag that is transferred and taken away at once. */
  lemma TakenKilling(
      v: View, t: Table, killer: PlayerId, victim: PlayerId, i: nat, dropped: bool, stale: set<nat>, back: set<nat>,
      fid: nat, nfi: FlagInfo)
    requires Consistent(t) && Killing(Replay(v, t.out), t.fis, killer, victim, i, dropped, stale, back)
    requires killer != victim
    requires fid < |t.fis| && fid < i && CarriedBy(t.fis[fid], killer) && WellFormed(nfi) && nfi.carrier != Some(killer)
    requires nfi.carrier == Some(victim) <==> fid in back
    ensures Killing(Replay(v, SetFlag(t, fid, nfi).out), SetFlag(t, fid, nfi).fis, killer, victim, i, true, {}, back)
  {
    var t1 := Unhand(t, fid);
    var t2 := Place(t1, fid, nfi);
    SetHeld(t, fid, nfi);
    UnhandRetakes(v, t, fid);
    UnhandChanges(t, fid);
    RetakenKilling(Replay(v, t.out), Replay(v, t1.out), t.fis, killer, victim, i, dropped, stale, back, fid, t1.fis[fid]);
    PlacePuts(v, t1, fid, nfi);
    PlaceChanges(t1, fid, nfi);
    PutKilling(Replay(v, t1.out), Replay(v, t2.out), t1.fis, killer, victim, i, back, fid, t2.fis[fid],
               Told(t1.fis[fid].state, nfi));
  }

  // ---------------------------------------------------------- the first loop

  /** How many of the victim's flags in the range stay with the killer. */
  function Kept(fis: seq<FlagInfo>, victim: PlayerId, taken: set<nat>, i: nat, j: nat): nat
    requires j <= |fis|
    decreases j - i
  {
    if i >= j then 0 else One(CarriedBy(fis[i], victim) && i !in taken) + Kept(fis, victim, taken, i + 1, j)
  }

  /** The loop reaches a flag of the victim's when the killer is at his limit. */
  predicate Overfull(fis: seq<FlagInfo>, victim: PlayerId, taken: set<nat>, count: int, limit: int, i: nat) {
    exists j: nat :: i <= j < |fis| && CarriedBy(fis[j], victim) && count + Kept(fis, victim, taken, i, j) >= limit
  }

  lemma OverfullStep(fis: seq<FlagInfo>, victim: PlayerId, taken: set<nat>, count: int, limit: int, i: nat)
    requires i < |fis|
    ensures Overfull(fis, victim, taken, count, limit, i) <==>
            (CarriedBy(fis[i], victim) && count >= limit)
            || Overfull(fis, victim, taken, count + One(CarriedBy(fis[i], victim) && i !in taken), limit, i + 1)
  {
    var count' := count + One(CarriedBy(fis[i], victim) && i !in taken);
    forall j: nat | i < j < |fis|
      ensures count + Kept(fis, victim, taken, i, j) == count' + Kept(fis, victim, taken, i + 1, j)
    {
    }
    assert Kept(fis, victim, taken, i, i) == 0;
  }

  lemma {:induction false} KeptSame(
      fis: seq<FlagInfo>, fis': seq<FlagInfo>, victim: PlayerId, taken: set<nat>, i: nat, j: nat)
    requires |fis| == |fis'| && j <= |fis| && forall k | i <= k < |fis| :: fis[k] == fis'[k]
    ensures Kept(fis, victim, taken, i, j) == Kept(fis', victim, taken, i, j)
    decreases j - i
  {
    if i < j { KeptSame(fis, fis', victim, taken, i + 1, j); }
  }

  lemma OverfullSame(
      fis: seq<FlagInfo>, fis': seq<FlagInfo>, victim: PlayerId, taken: set<nat>, count: int, limit: int, i: nat)
    requires |fis| == |fis'| && forall k | i <= k < |fis| :: fis[k] == fis'[k]
    ensures Overfull(fis, victim, taken, count, limit, i) == Overfull(fis', victim, taken, count, limit, i)
  {
    forall j: nat | i <= j < |fis| ensures Kept(fis, victim, taken, i, j) == Kept(fis', victim, taken, i, j) {
      KeptSame(fis, fis', victim, taken, i, j);
    }
  }

  /** The table after one transfer and the handler's answer to it. */
  lemma TransferAnswered(t: Table, killer: PlayerId, victim: PlayerId, i: nat, requests: seq<Request>) returns (t': Table)
    requires Consistent(t) && killer != victim
    requires i < |t.fis| && CarriedBy(t.fis[i], victim) && OwnOnce(requests, i)
    ensures t' == SetAll(Transferred(t, i, killer, victim), requests) && Consistent(t')
    ensures |t'.fis| == |t.fis| && t'.fis == t.fis[i := t'.fis[i]]
    ensures CarriedBy(t'.fis[i], killer) <==> !MovesFrom(requests, killer)
    ensures CarriedBy(t'.fis[i], victim) <==> HandsTo(requests, victim)
  {
    var t1 := Transferred(t, i, killer, victim);
    t' := SetAll(t1, requests);
    TransferredConsistent(t, i, killer, victim);
    SetAllConsistent(t1, requests);
    AnswerIsSet(t1, requests, i);
    if Answer(requests).Some? {
      SetHeld(t1, i, Answer(requests).value);
      SetChanges(t1, i, Answer(requests).value);
      assert WellFormed(t'.fis[i]);
    }
  }

  /** What clients see of it. */
  lemma TransferStep(
      v: View, t: Table, killer: PlayerId, victim: PlayerId, i: nat, dropped: bool, stale: set<nat>, back: set<nat>,
      requests: seq<Request>)
    requires Consistent(t) && Killing(Replay(v, t.out), t.fis, killer, victim, i, dropped, stale, back)
    requires killer != victim
    requires i < |t.fis| && CarriedBy(t.fis[i], victim) && OwnOnce(requests, i)
    requires i in back <==> HandsTo(requests, victim)
    ensures var t', taken := SetAll(Transferred(t, i, killer, victim), requests), MovesFrom(requests, killer);
            Killing(Replay(v, t'.out), t'.fis, killer, victim, i + 1, dropped || taken,
                    if taken then {} else if dropped then stale + {i} else stale, back)
  {
    var t1 := Transferred(t, i, killer, victim);
    TransferredConsistent(t, i, killer, victim);
    GivenKilling(Replay(v, t.out), t.fis, killer, victim, i, dropped, stale, back, t1.fis[i]);
    AnswerIsSet(t1, requests, i);
    if Answer(requests).Some? {
      var nfi := Answer(requests).value;
      SetHeld(t1, i, nfi);
      if nfi.carrier != Some(killer) {
        TakenKilling(v, t1, killer, victim, i + 1, dropped, if dropped then stale + {i} else stale, back, i, nfi);
      }
    }
  }

  lemma CountAfter(t: Table, t': Table, i: nat, killer: PlayerId)
    requires Consistent(t) && Consistent(t') && i < |t.fis| && !CarriedBy(t.fis[i], killer)
    requires |t'.fis| == |t.fis| && t'.fis == t.fis[i := t'.fis[i]]
    ensures t'.Count(killer) == t.Count(killer) + One(CarriedBy(t'.fis[i], killer))
  {
    HeldUpdate(t.fis, i, t'.fis[i], killer, |t.fis|);
  }

  /** One transfer, and what it does to the overflow and the trail still to come. */
  lemma TransferOnce(
      v: View, t: Table, killer: PlayerId, victim: PlayerId, limit: int, fake: bool, h: Handler, i: nat,
      dropped: bool, stale: set<nat>, taken: set<nat>, back: set<nat>)
    returns (t': Table, dropped': bool, stale': set<nat>)
    requires Consistent(t) && Killing(Replay(v, t.out), t.fis, killer, victim, i, dropped, stale, back)
    requires killer != victim
    requires Answers(t, killer, victim, limit, fake, h, i, taken, back)
    requires i < |t.fis| && CarriedBy(t.fis[i], victim) && t.Count(killer) < limit
    ensures Transfer(t, killer, victim, limit, fake, h, i) == Transfer(t', killer, victim, limit, fake, h, i + 1)
    ensures Answers(t', killer, victim, limit, fake, h, i + 1, taken, back)
    ensures Consistent(t') && Killing(Replay(v, t'.out), t'.fis, killer, victim, i + 1, dropped', stale', back)
    ensures |t'.fis| == |t.fis|
    ensures Overfull(t.fis, victim, taken, t.Count(killer), limit, i)
            <==> Overfull(t'.fis, victim, taken, t'.Count(killer), limit, i + 1)
    ensures Trail(t.fis, victim, taken, {}, i, dropped, stale) == Trail(t'.fis, victim, taken, {}, i + 1, dropped', stale')
  {
    var requests := h(Transferred(t, i, killer, victim), i, KillReason(t, killer, victim, fake), victim, t.FreqOf(victim));
    dropped' := dropped || i in taken;
    stale' := if i in taken then {} else if dropped then stale + {i} else stale;
    t' := TransferAnswered(t, killer, victim, i, requests);
    TransferStep(v, t, killer, victim, i, dropped, stale, back, requests);
    CountAfter(t, t', i, killer);
    OverfullStep(t.fis, victim, taken, t.Count(killer), limit, i);
    OverfullSame(t.fis, t'.fis, victim, taken, t'.Count(killer), limit, i + 1);
    TrailSame(t.fis, t'.fis, victim, taken, {}, i + 1, dropped', stale');
  }

  /** A flag the first loop passes by, because it is not the victim's or there is no room. */
  lemma TransferPast(
      v: View, t: Table, killer: PlayerId, victim: PlayerId, limit: int, fake: bool, h: Handler, i: nat,
      dropped: bool, stale: set<nat>, taken: set<nat>, back: set<nat>)
    requires Killing(Replay(v, t.out), t.fis, killer, victim, i, dropped, stale, back)
    requires Answers(t, killer, victim, limit, fake, h, i, taken, back)
    requires i < |t.fis| <= MAXFLAGS && (!CarriedBy(t.fis[i], victim) || t.Count(killer) >= limit)
    ensures var full := CarriedBy(t.fis[i], victim);
            && Transfer(t, killer, victim, limit, fake, h, i).0 == Transfer(t, killer, victim, limit, fake, h, i + 1).0
            && Transfer(t, killer, victim, limit, fake, h, i).1 == (full || Transfer(t, killer, victim, limit, fake, h, i + 1).1)
            && (Overfull(t.fis, victim, taken, t.Count(killer), limit, i)
                <==> full || Overfull(t.fis, victim, taken, t.Count(killer), limit, i + 1))
            && (!full ==> Trail(t.fis, victim, taken, {}, i, dropped, stale) == Trail(t.fis, victim, taken, {}, i + 1, dropped, stale))
    ensures Answers(t, killer, victim, limit, fake, h, i + 1, taken, back)
    ensures Killing(Replay(v, t.out), t.fis, killer, victim, i + 1, dropped, stale, back)
    ensures CarriedBy(t.fis[i], victim) ==> i !in back
  {
    OverfullStep(t.fis, victim, taken, t.Count(killer), limit, i);
    PassKilling(Replay(v, t.out), t.fis, killer, victim, i, dropped, stale, back);
  }

  /** The victim's flags in the range, when it is over, are those handed back to him, and
      he has all of those. */
  ghost predicate BackFrom(fis: seq<FlagInfo>, fis': seq<FlagInfo>, victim: PlayerId, back: set<nat>, i: nat) {
    && |fis'| == |fis|
    && (forall f: nat | f < i && f < |fis| :: fis'[f] == fis[f])
    && (forall f: nat | i <= f < |fis| && f in back :: CarriedBy(fis'[f], victim) == CarriedBy(fis[f], victim))
  }

  ghost predicate OnlyBack(fis: seq<FlagInfo>, victim: PlayerId, back: set<nat>, i: nat) {
    forall f: nat | i <= f < |fis| && CarriedBy(fis[f], victim) :: f in back
  }

  lemma {:induction false} TransferBack(
      t: Table, killer: PlayerId, victim: PlayerId, limit: int, fake: bool, h: Handler, i: nat, taken: set<nat>,
      back: set<nat>)
    requires Consistent(t) && killer != victim && Answers(t, killer, victim, limit, fake, h, i, taken, back)
    requires i <= |t.fis|
    ensures var (t', overflow) := Transfer(t, killer, victim, limit, fake, h, i);
            BackFrom(t.fis, t'.fis, victim, back, i) && (!overflow ==> OnlyBack(t'.fis, victim, back, i))
    decreases MAXFLAGS - i
  {
    if i < |t.fis| {
      if CarriedBy(t.fis[i], victim) && t.Count(killer) < limit {
        var requests :=
          h(Transferred(t, i, killer, victim), i, KillReason(t, killer, victim, fake), victim, t.FreqOf(victim));
        var t1 := TransferAnswered(t, killer, victim, i, requests);
        TransferBack(t1, killer, victim, limit, fake, h, i + 1, taken, back);
      } else {
        TransferBack(t, killer, victim, limit, fake, h, i + 1, taken, back);
      }
    }
  }

  /** The first loop, seen from the clients: it overflows when it should, and otherwise
      leaves the trail. */
  lemma {:induction false} TransferTrail(
      v: View, t: Table, killer: PlayerId, victim: PlayerId, limit: int, fake: bool, h: Handler, i: nat,
      dropped: bool, stale: set<nat>, taken: set<nat>, back: set<nat>)
    returns (t': Table, overflow: bool, dropped': bool, stale': set<nat>)
    requires Consistent(t) && Killing(Replay(v, t.out), t.fis, killer, victim, i, dropped, stale, back)
    requires killer != victim
    requires Answers(t, killer, victim, limit, fake, h, i, taken, back) && i <= |t.fis|
    ensures (t', overflow) == Transfer(t, killer, victim, limit, fake, h, i) && |t'.fis| == |t.fis|
    ensures Consistent(t') && Killing(Replay(v, t'.out), t'.fis, killer, victim, |t'.fis|, dropped', stale', back)
    ensures overflow <==> Overfull(t.fis, victim, taken, t.Count(killer), limit, i)
    ensures !overflow ==> stale' == Trail(t.fis, victim, taken, {}, i, dropped, stale)
    decreases MAXFLAGS - i
  {
    if i >= |t.fis| {
      return t, false, dropped, stale;
    }
    if CarriedBy(t.fis[i], victim) && t.Count(killer) < limit {
      var t1, dropped1, stale1 := TransferOnce(v, t, killer, victim, limit, fake, h, i, dropped, stale, taken, back);
      t', overflow, dropped', stale' := TransferTrail(v, t1, killer, victim, limit, fake, h, i + 1, dropped1, stale1, taken, back);
    } else {
      TransferPast(v, t, killer, victim, limit, fake, h, i, dropped, stale, taken, back);
      t', overflow, dropped', stale' := TransferTrail(v, t, killer, victim, limit, fake, h, i + 1, dropped, stale, taken, back);
      if CarriedBy(t.fis[i], victim) { overflow := true; }
    }
  }

  // --------------------------------------------------------- the second loop

  /** What clients see when the second loop starts: none of the killer's flags, and of the
      victim's those that were handed back. */
  ghost predicate Overflowing(w: View, fis: seq<FlagInfo>, killer: PlayerId, victim: PlayerId, back: set<nat>) {
    forall f: nat :: Look(w, f) == if f < |fis| && CarriedBy(fis[f], killer) then Absent
                                   else if f < |fis| && CarriedBy(fis[f], victim) && f !in back then Absent
                                   else Server(fis, f)
  }

  /** The drop that starts the second loop makes up for whatever was wrong before. */
  lemma DropMakesUp(v: View, t: Table, killer: PlayerId, victim: PlayerId, dropped: bool, stale: set<nat>, back: set<nat>)
    requires Consistent(t) && Killing(Replay(v, t.out), t.fis, killer, victim, |t.fis|, dropped, stale, back)
    requires killer != victim
    ensures Overflowing(Replay(v, t.out + [Drop(killer)]), t.fis, killer, victim, back)
  {
    var w := Replay(v, t.out);
    ReplayOne(v, t.out, Drop(killer));
    forall f: nat
      ensures Look(React(w, Drop(killer)), f)
              == if f < |t.fis| && CarriedBy(t.fis[f], killer) then Absent
                 else if f < |t.fis| && CarriedBy(t.fis[f], victim) && f !in back then Absent
                 else Server(t.fis, f)
    {
      ReactLook(w, Drop(killer), f);
      assert Look(w, f) == Expecting(t.fis, killer, victim, |t.fis|, dropped, stale, back, f);
      assert f < |t.fis| ==> WellFormed(t.fis[f]);
    }
  }

  /** One flag of the victim's is void, and what the handler makes of it. */
  lemma VoidStep(v: View, t: Table, victim: PlayerId, i: nat, requests: seq<Request>)
    returns (t': Table)
    requires Consistent(t) && i < |t.fis| && CarriedBy(t.fis[i], victim) && OwnOnce(requests, i)
    ensures t' == SetAll(Lost(t, i, victim), requests) && Consistent(t')
    ensures |t'.fis| == |t.fis| && t'.fis == t.fis[i := t'.fis[i]]
    ensures PutSeen(Replay(v, t.out), Replay(v, t'.out), i, t'.fis[i], Tells(requests))
  {
    var t1 := Lost(t, i, victim);
    t' := SetAll(t1, requests);
    LostConsistent(t, i, victim);
    SetAllConsistent(t1, requests);
    AnswerIsSet(t1, requests, i);
    if Answer(requests).Some? {
      var nfi := Answer(requests).value;
      SetLoose(t1, i, nfi);
      PlacePuts(v, t1, i, nfi);
      PlaceChanges(t1, i, nfi);
    }
  }

  lemma PickupSeen(v: View, t: Table, killer: PlayerId, i: nat, f: nat)
    requires i < |t.fis| && CarriedBy(t.fis[i], killer)
    ensures Look(Replay(v, t.out + [Pickup(i, killer)]), f)
            == if f == i then Server(t.fis, i) else Look(Replay(v, t.out), f)
  {
    ReplayOne(v, t.out, Pickup(i, killer));
    ReactLook(Replay(v, t.out), Pickup(i, killer), f);
  }

  /** What becomes of one flag f in the second loop, from flag i on: nothing if it has been
      passed or is neither player's; it is right if it is the killer's; and if it is the
      victim's it is right when the clients are told or did not see it. */
  lemma {:induction false} OverflowRight(
      v: View, t: Table, killer: PlayerId, victim: PlayerId, h: Handler, i: nat, told: set<nat>, f: nat)
    requires Consistent(t) && killer != victim && Voids(t, killer, victim, h, i, told) && i <= |t.fis|
    ensures var w, t' := Replay(v, t.out), Overflow(t, killer, victim, h, i);
            Right(v, t', f) <==>
            if f < i || f >= |t.fis| then Right(v, t, f)
            else if CarriedBy(t.fis[f], killer) then true
            else if CarriedBy(t.fis[f], victim) then f in told || Look(w, f) == Absent
            else Right(v, t, f)
    decreases MAXFLAGS - i
  {
    if i < |t.fis| {
      if CarriedBy(t.fis[i], killer) {
        SentConsistent(t, Pickup(i, killer));
        PickupSeen(v, t, killer, i, f);
        OverflowRight(v, t.Sent(Pickup(i, killer)), killer, victim, h, i + 1, told, f);
      } else if CarriedBy(t.fis[i], victim) {
        var requests := h(Lost(t, i, victim), i, KillCantCarry, victim, t.FreqOf(victim));
        var t' := VoidStep(v, t, victim, i, requests);
        OverflowRight(v, t', killer, victim, h, i + 1, told, f);
      } else {
        OverflowRight(v, t, killer, victim, h, i + 1, told, f);
      }
    }
  }

  // ------------------------------------------------------------ main results

  /** The killer's limit is reached while the victim still has flags. */
  predicate Overflows(t: Table, killer: PlayerId, victim: PlayerId, limit: int, taken: set<nat>) {
    Overfull(t.fis, victim, taken, t.Count(killer), limit, 0)
  }

  /** A flag that was handed back to the victim, and lost to him in the second loop
      without a word. */
  predicate LostAgain(fis: seq<FlagInfo>, victim: PlayerId, back: set<nat>, told: set<nat>, f: nat) {
    f < |fis| && CarriedBy(fis[f], victim) && f in back && f !in told
  }

  /** The flags clients are wrong about after a kill. */
  predicate WrongAfter(
      t: Table, killer: PlayerId, victim: PlayerId, limit: int, taken: set<nat>, back: set<nat>, told: set<nat>, f: nat)
  {
    if Overflows(t, killer, victim, limit, taken) then LostAgain(t.fis, victim, back, told, f)
    else LeftBehind(t.fis, victim, taken, {}, f)
  }

  lemma KillWithoutFlags(v: View, t: Table, killer: PlayerId, victim: PlayerId, f: nat)
    requires Consistent(t) && Agrees(v, t) && t.Count(victim) == 0
    ensures forall j | 0 <= j < |t.fis| :: !CarriedBy(t.fis[j], victim)
    ensures Right(v, t.Sent(Killed(killer, victim)), f)
  {
    HeldZero(t.fis, victim, |t.fis|);
    KilledIsSeen(v, t, killer, victim, {});
    assert Look(Replay(v, t.out + [Killed(killer, victim)]), f) == Expecting(t.fis, killer, victim, 0, false, {}, {}, f);
  }

  /** The end of a kill that overflows. */
  lemma OverflowWrong(
      v: View, t: Table, t1: Table, killer: PlayerId, victim: PlayerId, h: Handler, dropped: bool, stale: set<nat>,
      back: set<nat>, told: set<nat>, f: nat)
    requires Consistent(t1) && Killing(Replay(v, t1.out), t1.fis, killer, victim, |t1.fis|, dropped, stale, back)
    requires killer != victim && Voids(t1.Sent(Drop(killer)), killer, victim, h, 0, told)
    requires BackFrom(t.fis, t1.fis, victim, back, 0)
    ensures Right(v, Overflow(t1.Sent(Drop(killer)), killer, victim, h, 0), f)
            <==> !LostAgain(t.fis, victim, back, told, f)
  {
    var t2 := t1.Sent(Drop(killer));
    SentConsistent(t1, Drop(killer));
    DropMakesUp(v, t1, killer, victim, dropped, stale, back);
    OverflowRight(v, t2, killer, victim, h, 0, told, f);
    SeenBefore(Replay(v, t2.out), t1.fis, killer, victim, back, f);
    assert f < |t.fis| && f in back ==> CarriedBy(t1.fis[f], victim) == CarriedBy(t.fis[f], victim);
  }

  lemma SeenBefore(w: View, fis: seq<FlagInfo>, killer: PlayerId, victim: PlayerId, back: set<nat>, f: nat)
    requires Overflowing(w, fis, killer, victim, back) && killer != victim
    ensures f < |fis| && CarriedBy(fis[f], victim) ==> (Look(w, f) == Absent <==> f !in back)
    ensures f >= |fis| || (!CarriedBy(fis[f], killer) && !CarriedBy(fis[f], victim)) ==> Look(w, f) == Server(fis, f)
  {
    assert Look(w, f) == if f < |fis| && CarriedBy(fis[f], killer) then Absent
                         else if f < |fis| && CarriedBy(fis[f], victim) && f !in back then Absent
                         else Server(fis, f);
  }

  /** After a kill whose handler makes at most one request each time, for its flag, the
      clients are wrong about exactly these flags. */
  lemma KillWrongAbout(
      v: View, t: Table, killer: PlayerId, victim: PlayerId, limit: int, fake: bool, h: Handler, taken: set<nat>,
      back: set<nat>, told: set<nat>, f: nat)
    requires Consistent(t) && Agrees(v, t) && killer != victim
    requires AnswersKill(t.Sent(Killed(killer, victim)), killer, victim, limit, fake, h, taken, back, told)
    ensures Right(v, Kill(t.Sent(Killed(killer, victim)), killer, victim, limit, fake, h), f)
            <==> !WrongAfter(t, killer, victim, limit, taken, back, told, f)
  {
    var t0 := t.Sent(Killed(killer, victim));
    SentConsistent(t, Killed(killer, victim));
    if t.Count(victim) == 0 {
      KillWithoutFlags(v, t, killer, victim, f);
    } else {
      KilledIsSeen(v, t, killer, victim, back);
      var t1, overflow, dropped, stale := TransferTrail(v, t0, killer, victim, limit, fake, h, 0, false, {}, taken, back);
      TransferBack(t0, killer, victim, limit, fake, h, 0, taken, back);
      if overflow {
        OverflowWrong(v, t, t1, killer, victim, h, dropped, stale, back, told, f);
      } else {
        WholeTrail(t.fis, victim, taken, {}, f);
        assert Look(Replay(v, t1.out), f) == Expecting(t1.fis, killer, victim, |t1.fis|, dropped, stale, back, f);
      }
    }
  }

  /** When a kill keeps the clients in agreement, in terms of the table before it and the
      handler's answers. */
  lemma KillAgreesIff(
      v: View, t: Table, killer: PlayerId, victim: PlayerId, limit: int, fake: bool, h: Handler, taken: set<nat>,
      back: set<nat>, told: set<nat>)
    requires Consistent(t) && Agrees(v, t) && killer != victim
    requires AnswersKill(t.Sent(Killed(killer, victim)), killer, victim, limit, fake, h, taken, back, told)
    ensures Agrees(v, Kill(t.Sent(Killed(killer, victim)), killer, victim, limit, fake, h))
            <==> if Overflows(t, killer, victim, limit, taken) then !AnyIn(t.fis, victim, back - told, 0, |t.fis|)
                 else !AnyIn(t.fis, victim, taken, 0, |t.fis|) || HighestIn(t.fis, victim, taken)
  {
    var t' := Kill(t.Sent(Killed(killer, victim)), killer, victim, limit, fake, h);
    forall f: nat ensures Right(v, t', f) <==> !WrongAfter(t, killer, victim, limit, taken, back, told, f) {
      KillWrongAbout(v, t, killer, victim, limit, fake, h, taken, back, told, f);
    }
    AgreesIsRight(v, t');
    NoneWrongIff(t, killer, victim, limit, taken, back, told);
  }

  lemma NoneWrongIff(
      t: Table, killer: PlayerId, victim: PlayerId, limit: int, taken: set<nat>, back: set<nat>, told: set<nat>)
    ensures (forall f: nat :: !WrongAfter(t, killer, victim, limit, taken, back, told, f))
            <==> if Overflows(t, killer, victim, limit, taken) then !AnyIn(t.fis, victim, back - told, 0, |t.fis|)
                 else !AnyIn(t.fis, victim, taken, 0, |t.fis|) || HighestIn(t.fis, victim, taken)
  {
    if Overflows(t, killer, victim, limit, taken) {
      assert forall f: nat :: WrongAfter(t, killer, victim, limit, taken, back, told, f)
                              <==> LostAgain(t.fis, victim, back, told, f);
      NoneLost(t.fis, victim, back, told);
    } else {
      assert forall f: nat :: WrongAfter(t, killer, victim, limit, taken, back, told, f)
                              <==> LeftBehind(t.fis, victim, taken, {}, f);
      NoneLeftIff(t.fis, victim, taken, {});
      RestIsHighest(t.fis, victim, taken);
    }
  }

  lemma NoneLost(fis: seq<FlagInfo>, victim: PlayerId, back: set<nat>, told: set<nat>)
    ensures (forall f: nat :: !LostAgain(fis, victim, back, told, f)) <==> !AnyIn(fis, victim, back - told, 0, |fis|)
  {
    if f: nat :| LostAgain(fis, victim, back, told, f) {
      assert CarriedBy(fis[f], victim) && f in back - told;
    }
    if AnyIn(fis, victim, back - told, 0, |fis|) {
      var k: nat :| k < |fis| && CarriedBy(fis[k], victim) && k in back - told;
      assert LostAgain(fis, victim, back, told, k);
    }
  }

  // -------------------------------------------------- handlers known by heart

  /** Whenever a kill like this one calls the handler for a transferred flag, it makes at
      most one request, for that flag, which hands nothing back to the victim; it moves
      the flag away from the killer exactly if it is in `taken`. */
  ghost predicate TakesAway(t: Table, killer: PlayerId, victim: PlayerId, fake: bool, h: Handler, taken: set<nat>) {
    forall s: Table, fid: nat | Consistent(s) && s.freqs == t.freqs && fid < |s.fis| ::
      var requests := h(s, fid, KillReason(t, killer, victim, fake), victim, t.FreqOf(victim));
      OwnOnce(requests, fid) && !HandsTo(requests, victim) && (fid in taken <==> MovesFrom(requests, killer))
  }

  /** Whenever it calls it for a flag that nobody can carry, there is at most one request,
      for that flag. */
  ghost predicate VoidsOnce(t: Table, victim: PlayerId, h: Handler) {
    forall s: Table, fid: nat | Consistent(s) && s.freqs == t.freqs && fid < |s.fis| ::
      OwnOnce(h(s, fid, KillCantCarry, victim, t.FreqOf(victim)), fid)
  }

  lemma {:induction false} SetAllFreqsSame(t: Table, requests: seq<Request>)
    ensures SetAll(t, requests).freqs == t.freqs
    decreases |requests|
  {
    if requests != [] {
      SetFlagsFreqsSame(t, requests[0].fid, requests[0].fis);
      SetAllFreqsSame(SetFlags(t, requests[0].fid, requests[0].fis), requests[1..]);
    }
  }

  lemma {:induction false} SetFlagsFreqsSame(t: Table, fid: int, fis: seq<FlagInfo>)
    ensures SetFlags(t, fid, fis).freqs == t.freqs
    decreases |fis|
  {
    if fid >= 0 && fis != [] { SetFlagsFreqsSame(SetFlag(t, fid, fis[0]), fid + 1, fis[1..]); }
  }

  lemma {:induction false} KnownAnswers(
      t0: Table, t: Table, killer: PlayerId, victim: PlayerId, limit: int, fake: bool, h: Handler, i: nat, taken: set<nat>)
    requires Consistent(t) && t.freqs == t0.freqs && TakesAway(t0, killer, victim, fake, h, taken)
    ensures Answers(t, killer, victim, limit, fake, h, i, taken, {})
    ensures Consistent(Transfer(t, killer, victim, limit, fake, h, i).0)
    ensures Transfer(t, killer, victim, limit, fake, h, i).0.freqs == t0.freqs
    decreases MAXFLAGS - i
  {
    if i >= |t.fis| || i >= MAXFLAGS {
    } else if CarriedBy(t.fis[i], victim) && t.Count(killer) < limit {
      var t1 := Transferred(t, i, killer, victim);
      var requests := h(t1, i, KillReason(t, killer, victim, fake), victim, t.FreqOf(victim));
      TransferredConsistent(t, i, killer, victim);
      assert t.FreqOf(victim) == t0.FreqOf(victim) && t.FreqOf(killer) == t0.FreqOf(killer);
      assert KillReason(t, killer, victim, fake) == KillReason(t0, killer, victim, fake);
      assert t1.freqs == t0.freqs && OwnOnce(requests, i);
      SetAllConsistent(t1, requests);
      SetAllFreqsSame(t1, requests);
      KnownAnswers(t0, SetAll(t1, requests), killer, victim, limit, fake, h, i + 1, taken);
    } else {
      KnownAnswers(t0, t, killer, victim, limit, fake, h, i + 1, taken);
    }
  }

  lemma {:induction false} VoidsSame(
      t: Table, killer: PlayerId, victim: PlayerId, h: Handler, i: nat, told: set<nat>, told': set<nat>)
    requires Voids(t, killer, victim, h, i, told) && forall k: nat | k >= i :: k in told <==> k in told'
    ensures Voids(t, killer, victim, h, i, told')
    decreases MAXFLAGS - i
  {
    if i >= |t.fis| || i >= MAXFLAGS {
    } else if CarriedBy(t.fis[i], killer) {
      VoidsSame(t.Sent(Pickup(i, killer)), killer, victim, h, i + 1, told, told');
    } else if CarriedBy(t.fis[i], victim) {
      var t1 := Lost(t, i, victim);
      VoidsSame(SetAll(t1, h(t1, i, KillCantCarry, victim, t.FreqOf(victim))), killer, victim, h, i + 1, told, told');
    } else {
      VoidsSame(t, killer, victim, h, i + 1, told, told');
    }
  }

  lemma {:induction false} SomeVoids(t0: Table, t: Table, killer: PlayerId, victim: PlayerId, h: Handler, i: nat)
    returns (told: set<nat>)
    requires Consistent(t) && t.freqs == t0.freqs && VoidsOnce(t0, victim, h)
    ensures Voids(t, killer, victim, h, i, told)
    decreases MAXFLAGS - i
  {
    told := {};
    if i >= |t.fis| || i >= MAXFLAGS {
    } else if CarriedBy(t.fis[i], killer) {
      SentConsistent(t, Pickup(i, killer));
      told := SomeVoids(t0, t.Sent(Pickup(i, killer)), killer, victim, h, i + 1);
    } else if CarriedBy(t.fis[i], victim) {
      var t1 := Lost(t, i, victim);
      var requests := h(t1, i, KillCantCarry, victim, t.FreqOf(victim));
      LostConsistent(t, i, victim);
      assert t.FreqOf(victim) == t0.FreqOf(victim) && t1.freqs == t0.freqs;
      assert OwnOnce(requests, i);
      SetAllConsistent(t1, requests);
      SetAllFreqsSame(t1, requests);
      var told1 := SomeVoids(t0, SetAll(t1, requests), killer, victim, h, i + 1);
      told := if Tells(requests) then told1 + {i} else told1 - {i};
      VoidsSame(SetAll(t1, requests), killer, victim, h, i + 1, told1, told);
    } else {
      told := SomeVoids(t0, t, killer, victim, h, i + 1);
    }
  }

  lemma KnownKill(t: Table, killer: PlayerId, victim: PlayerId, limit: int, fake: bool, h: Handler, taken: set<nat>)
    returns (told: set<nat>)
    requires Consistent(t) && TakesAway(t, killer, victim, fake, h, taken) && VoidsOnce(t, victim, h)
    ensures AnswersKill(t.Sent(Killed(killer, victim)), killer, victim, limit, fake, h, taken, {}, told)
  {
    var t0 := t.Sent(Killed(killer, victim));
    SentConsistent(t, Killed(killer, victim));
    KnownAnswers(t, t0, killer, victim, limit, fake, h, 0, taken);
    var t1 := Transfer(t0, killer, victim, limit, fake, h, 0).0;
    SentConsistent(t1, Drop(killer));
    told := SomeVoids(t, t1.Sent(Drop(killer)), killer, victim, h, 0);
  }

  /** With such a handler the condition can be read off the flags and counts before the
      kill: it overflows, or none of the victim's flags is taken, or his highest is. */
  lemma KnownKillAgreesIff(
      v: View, t: Table, killer: PlayerId, victim: PlayerId, limit: int, fake: bool, h: Handler, taken: set<nat>)
    requires Consistent(t) && Agrees(v, t) && killer != victim
    requires TakesAway(t, killer, victim, fake, h, taken) && VoidsOnce(t, victim, h)
    ensures Agrees(v, Kill(t.Sent(Killed(killer, victim)), killer, victim, limit, fake, h))
            <==> || Overflows(t, killer, victim, limit, taken)
                 || !AnyIn(t.fis, victim, taken, 0, |t.fis|)
                 || HighestIn(t.fis, victim, taken)
  {
    var told := KnownKill(t, killer, victim, limit, fake, h, taken);
    KillAgreesIff(v, t, killer, victim, limit, fake, h, taken, {}, told);
    assert {} - told == {};
  }

  // ---------------------------------------------------- every such handler

  /** In a kill like this one the handler never makes more than one request when it is
      called, and only for the flag it is called for. */
  ghost predicate KeepsToOneRequest(t: Table, killer: PlayerId, victim: PlayerId, fake: bool, h: Handler) {
    && VoidsOnce(t, victim, h)
    && forall s: Table, fid: nat | Consistent(s) && s.freqs == t.freqs && fid < |s.fis| ::
         OwnOnce(h(s, fid, KillReason(t, killer, victim, fake), victim, t.FreqOf(victim)), fid)
  }

  lemma {:induction false} AnswersSame(
      t: Table, killer: PlayerId, victim: PlayerId, limit: int, fake: bool, h: Handler, i: nat, taken: set<nat>,
      back: set<nat>,
      taken': set<nat>, back': set<nat>)
    requires Answers(t, killer, victim, limit, fake, h, i, taken, back)
    requires forall k: nat | k >= i :: (k in taken <==> k in taken') && (k in back <==> k in back')
    ensures Answers(t, killer, victim, limit, fake, h, i, taken', back')
    decreases MAXFLAGS - i
  {
    if i >= |t.fis| || i >= MAXFLAGS {
    } else if CarriedBy(t.fis[i], victim) && t.Count(killer) < limit {
      var t1 := Transferred(t, i, killer, victim);
      var requests := h(t1, i, KillReason(t, killer, victim, fake), victim, t.FreqOf(victim));
      AnswersSame(SetAll(t1, requests), killer, victim, limit, fake, h, i + 1, taken, back, taken', back');
    } else {
      AnswersSame(t, killer, victim, limit, fake, h, i + 1, taken, back, taken', back');
    }
  }

  lemma {:induction false} SomeAnswers(
      t0: Table, t: Table, killer: PlayerId, victim: PlayerId, limit: int, fake: bool, h: Handler, i: nat)
    returns (taken: set<nat>, back: set<nat>)
    requires Consistent(t) && t.freqs == t0.freqs && KeepsToOneRequest(t0, killer, victim, fake, h)
    ensures Answers(t, killer, victim, limit, fake, h, i, taken, back)
    ensures Consistent(Transfer(t, killer, victim, limit, fake, h, i).0)
    ensures Transfer(t, killer, victim, limit, fake, h, i).0.freqs == t0.freqs
    decreases MAXFLAGS - i
  {
    taken, back := {}, {};
    if i >= |t.fis| || i >= MAXFLAGS {
    } else if CarriedBy(t.fis[i], victim) && t.Count(killer) < limit {
      var t1 := Transferred(t, i, killer, victim);
      var requests := h(t1, i, KillReason(t, killer, victim, fake), victim, t.FreqOf(victim));
      TransferredConsistent(t, i, killer, victim);
      assert t.FreqOf(victim) == t0.FreqOf(victim) && t.FreqOf(killer) == t0.FreqOf(killer);
      assert KillReason(t, killer, victim, fake) == KillReason(t0, killer, victim, fake);
      assert t1.freqs == t0.freqs && OwnOnce(requests, i);
      SetAllConsistent(t1, requests);
      SetAllFreqsSame(t1, requests);
      var taken1, back1 := SomeAnswers(t0, SetAll(t1, requests), killer, victim, limit, fake, h, i + 1);
      taken := if MovesFrom(requests, killer) then taken1 + {i} else taken1 - {i};
      back := if HandsTo(requests, victim) then back1 + {i} else back1 - {i};
      AnswersSame(SetAll(t1, requests), killer, victim, limit, fake, h, i + 1, taken1, back1, taken, back);
    } else {
      var taken1, back1 := SomeAnswers(t0, t, killer, victim, limit, fake, h, i + 1);
      taken, back := taken1, back1 - {i};
      AnswersSame(t, killer, victim, limit, fake, h, i + 1, taken1, back1, taken, back);
    }
  }

  /** The answers `KillAgreesIff` and `KillWrongAbout` speak of are there for every kill
      with such a handler, whatever its answers depend on. */
  lemma SomeKill(t: Table, killer: PlayerId, victim: PlayerId, limit: int, fake: bool, h: Handler)
    returns (taken: set<nat>, back: set<nat>, told: set<nat>)
    requires Consistent(t) && KeepsToOneRequest(t, killer, victim, fake, h)
    ensures AnswersKill(t.Sent(Killed(killer, victim)), killer, victim, limit, fake, h, taken, back, told)
  {
    var t0 := t.Sent(Killed(killer, victim));
    SentConsistent(t, Killed(killer, victim));
    taken, back := SomeAnswers(t, t0, killer, victim, limit, fake, h, 0);
    var t1 := Transfer(t0, killer, victim, limit, fake, h, 0).0;
    SentConsistent(t1, Drop(killer));
    told := SomeVoids(t, t1.Sent(Drop(killer)), killer, victim, h, 0);
  }

  // ------------------------------------------------------ one that goes wrong

  /** A handler that takes flag 0 off the killer again and leaves every other flag. */
  function TakesFlagZero(t: Table, fid: nat, reason: Reason, p: PlayerId, freq: int): seq<Request> {
    if fid == 0 then [Request(0, [OFF_THE_MAP])] else []
  }

  /** Player 1 carries flags 0 and 1 and is killed by player 2. The handler touches only
      its own flag, and still the clients lose sight of flag 1: the server takes flag 0
      away by having player 2 drop everything before flag 1 has been transferred. */
  lemma KillWithHandlerCanDisagree()
    ensures Consistent(BOTH_HELD_BY_1) && Agrees(BOTH_SEEN_WITH_1, BOTH_HELD_BY_1)
    ensures !Agrees(BOTH_SEEN_WITH_1, Kill(BOTH_HELD_BY_1.Sent(Killed(2, 1)), 2, 1, MAXFLAGS, false, TakesFlagZero))
  {
    var t, fis := BOTH_HELD_BY_1, BOTH_HELD_BY_1.fis;
    BothHeld();
    assert TakesAway(t, 2, 1, false, TakesFlagZero, {0}) && VoidsOnce(t, 1, TakesFlagZero);
    NoOverflowOfTwo({0});
    assert CarriedBy(fis[0], 1) && CarriedBy(fis[1], 1);
    assert AnyIn(fis, 1, {0}, 0, 2);
    KnownKillAgreesIff(BOTH_SEEN_WITH_1, t, 2, 1, MAXFLAGS, false, TakesFlagZero, {0});
  }

  lemma NoOverflowOfTwo(taken: set<nat>)
    ensures !Overflows(BOTH_HELD_BY_1, 2, 1, MAXFLAGS, taken)
  {
    var fis := BOTH_HELD_BY_1.fis;
    forall j: nat | j < |fis| ensures Kept(fis, 1, taken, 0, j) <= 1 {
      assert Kept(fis, 1, taken, 0, 0) == 0 && Kept(fis, 1, taken, 1, 1) == 0 && Kept(fis, 1, taken, 0, 1) <= 1;
    }
  }
}
