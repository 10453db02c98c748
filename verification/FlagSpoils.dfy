/** Who ends up with the flags of a player who was killed, when the game's Cleanup lets
    the killer have them. */
module FlagSpoils {
  import opened Options
  import opened Flags
  import opened FlagCounts
  import opened FlagClients
  import opened FlagDrops
  import opened FlagKills

  /** How many of the flags from i on belong to p. */
  function Remaining(t: Table, p: PlayerId, i: nat): int
    requires i <= |t.fis|
  {
    Held(t.fis, p, |t.fis|) - Held(t.fis, p, i)
  }

  lemma {:induction false} HeldMonotone(fis: seq<FlagInfo>, p: PlayerId, m: nat, n: nat)
    requires m <= n <= |fis|
    ensures Held(fis, p, m) <= Held(fis, p, n)
    ensures Held(fis, p, m) == Held(fis, p, n) ==> forall j | m <= j < n :: !CarriedBy(fis[j], p)
    decreases n
  {
    if m < n { HeldMonotone(fis, p, m, n - 1); }
  }

  /** What the killer ends up with when he is handed `more` flags. */
  function Capped(count: int, more: int, limit: int): int {
    Max(count, if count + more <= limit then count + more else limit)
  }

  /** The second loop's flags may be put anywhere but into somebody's hands. */
  predicate VoidsToNobody(t: Table, killer: PlayerId, victim: PlayerId, h: Handler, i: nat)
    decreases MAXFLAGS - i
  {
    if i >= |t.fis| || i >= MAXFLAGS then true
    else if CarriedBy(t.fis[i], killer) then VoidsToNobody(t.Sent(Pickup(i, killer)), killer, victim, h, i + 1)
    else if CarriedBy(t.fis[i], victim) then
      var t1 := Lost(t, i, victim);
      var requests := h(t1, i, KillCantCarry, victim, t.FreqOf(victim));
      && OwnOnce(requests, i) && (Answer(requests).Some? ==> Answer(requests).value.carrier.None?)
      && VoidsToNobody(SetAll(t1, requests), killer, victim, h, i + 1)
    else VoidsToNobody(t, killer, victim, h, i + 1)
  }

  lemma TransferredCounts(t: Table, i: nat, killer: PlayerId, victim: PlayerId)
    requires Consistent(t) && i < |t.fis| && killer != victim && CarriedBy(t.fis[i], victim)
    ensures var t1 := Transferred(t, i, killer, victim);
            && t1.Count(killer) == t.Count(killer) + 1 && t1.Count(victim) == t.Count(victim) - 1
            && (forall q :: q != killer && q != victim ==> t1.Count(q) == t.Count(q))
            && Remaining(t1, victim, i + 1) == Remaining(t, victim, i) - 1
  {
    var t1 := Transferred(t, i, killer, victim);
    HeldUpdate(t.fis, i, t1.fis[i], victim, |t.fis|);
    HeldUpdate(t.fis, i, t1.fis[i], victim, i + 1);
  }

  /** An answer that leaves the flag with its carrier changes nothing. */
  lemma SparedSame(t: Table, i: nat, killer: PlayerId, requests: seq<Request>)
    requires Consistent(t) && i < |t.fis| && CarriedBy(t.fis[i], killer) && OwnOnce(requests, i)
    requires !MovesFrom(requests, killer)
    ensures SetAll(t, requests) == t
  {
    AnswerIsSet(t, requests, i);
    if Answer(requests).Some? { SetHeld(t, i, Answer(requests).value); }
  }

  lemma {:induction false} TransferSpared(
      t: Table, killer: PlayerId, victim: PlayerId, limit: int, fake: bool, h: Handler, i: nat)
    requires Consistent(t) && Answers(t, killer, victim, limit, fake, h, i, {}, {}) && killer != victim && i <= |t.fis|
    ensures var (t', overflow) := Transfer(t, killer, victim, limit, fake, h, i);
            && Consistent(t')
            && t'.Count(killer) == Capped(t.Count(killer), Remaining(t, victim, i), limit)
            && t'.Count(killer) + t'.Count(victim) == t.Count(killer) + t.Count(victim)
            && (forall q :: q != killer && q != victim ==> t'.Count(q) == t.Count(q))
            && (overflow <==> Remaining(t, victim, i) > 0 && t.Count(killer) + Remaining(t, victim, i) > limit)
    decreases MAXFLAGS - i
  {
    if i < |t.fis| {
      HeldMonotone(t.fis, victim, i + 1, |t.fis|);
      if CarriedBy(t.fis[i], victim) && t.Count(killer) < limit {
        var t1 := Transferred(t, i, killer, victim);
        TransferredConsistent(t, i, killer, victim);
        SparedSame(t1, i, killer, h(t1, i, KillReason(t, killer, victim, fake), victim, t.FreqOf(victim)));
        TransferredCounts(t, i, killer, victim);
        TransferSpared(t1, killer, victim, limit, fake, h, i + 1);
      } else {
        TransferSpared(t, killer, victim, limit, fake, h, i + 1);
      }
    }
  }

  /** A void flag is nobody's. */
  lemma VoidCounts(t: Table, victim: PlayerId, i: nat, requests: seq<Request>) returns (t': Table)
    requires Consistent(t) && i < |t.fis| && CarriedBy(t.fis[i], victim) && OwnOnce(requests, i)
    requires Answer(requests).Some? ==> Answer(requests).value.carrier.None?
    ensures t' == SetAll(Lost(t, i, victim), requests) && Consistent(t')
    ensures |t'.fis| == |t.fis| && t'.fis == t.fis[i := t'.fis[i]] && t'.fis[i].carrier.None?
    ensures forall q :: q != victim ==> t'.Count(q) == t.Count(q)
  {
    t' := VoidStep(map[], t, victim, i, requests);
    AnswerIsSet(Lost(t, i, victim), requests, i);
    LostConsistent(t, i, victim);
    if Answer(requests).Some? { SetChanges(Lost(t, i, victim), i, Answer(requests).value); }
    forall q | q != victim ensures t'.Count(q) == t.Count(q) {
      HeldUpdate(t.fis, i, t'.fis[i], q, |t.fis|);
    }
  }

  lemma {:induction false} OverflowSpared(t: Table, killer: PlayerId, victim: PlayerId, h: Handler, i: nat)
    requires Consistent(t) && VoidsToNobody(t, killer, victim, h, i) && killer != victim && i <= |t.fis|
    ensures var t' := Overflow(t, killer, victim, h, i);
            && Consistent(t') && |t'.fis| == |t.fis|
            && (forall q :: q != victim ==> t'.Count(q) == t.Count(q))
            && (forall j | 0 <= j < |t.fis| :: if j < i then t'.fis[j] == t.fis[j] else !CarriedBy(t'.fis[j], victim))
    decreases MAXFLAGS - i
  {
    if i < |t.fis| {
      if CarriedBy(t.fis[i], killer) {
        SentConsistent(t, Pickup(i, killer));
        OverflowSpared(t.Sent(Pickup(i, killer)), killer, victim, h, i + 1);
      } else if CarriedBy(t.fis[i], victim) {
        var t1 := VoidCounts(t, victim, i, h(Lost(t, i, victim), i, KillCantCarry, victim, t.FreqOf(victim)));
        OverflowSpared(t1, killer, victim, h, i + 1);
      } else {
        OverflowSpared(t, killer, victim, h, i + 1);
      }
    }
  }

  /** If the handler leaves transferred flags with the killer and hands the others to
      nobody, a kill leaves the victim with no flags and the killer with all of them up to
      the carry limit, or with what he had if that was already more; nobody else's change. */
  lemma KillOutcome(t: Table, killer: PlayerId, victim: PlayerId, limit: int, fake: bool, h: Handler)
    requires Consistent(t) && killer != victim && Answers(t, killer, victim, limit, fake, h, 0, {}, {})
    requires VoidsToNobody(Transfer(t, killer, victim, limit, fake, h, 0).0.Sent(Drop(killer)), killer, victim, h, 0)
    ensures var t' := Kill(t, killer, victim, limit, fake, h);
            && Consistent(t') && t'.Count(victim) == 0
            && t'.Count(killer) == (if t.Count(victim) == 0 then t.Count(killer)
                                    else Capped(t.Count(killer), t.Count(victim), limit))
            && t'.Count(killer) <= Max(t.Count(killer), limit)
            && (forall q :: q != killer && q != victim ==> t'.Count(q) == t.Count(q))
  {
    if t.Count(victim) != 0 {
      TransferSpared(t, killer, victim, limit, fake, h, 0);
      var (t1, overflow) := Transfer(t, killer, victim, limit, fake, h, 0);
      if overflow {
        SentConsistent(t1, Drop(killer));
        OverflowSpared(t1.Sent(Drop(killer)), killer, victim, h, 0);
        var t' := Overflow(t1.Sent(Drop(killer)), killer, victim, h, 0);
        HeldZero(t'.fis, victim, |t'.fis|);
      }
    }
  }
}
