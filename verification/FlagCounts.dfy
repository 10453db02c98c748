/** Every operation on the flag table keeps its counters and its array in step, also
    when a Cleanup handler re-enters SetFlags in the middle of it. */
module FlagCounts {
  import opened Options
  import opened Flags

  /** The consistency check the source states (and has disabled): a flag is carried
      exactly when it has a carrier, and every player's count is the number of flags
      he carries. */
  ghost predicate Consistent(t: Table) {
    && |t.fis| <= MAXFLAGS
    && (forall i | 0 <= i < |t.fis| :: WellFormed(t.fis[i]))
    && (forall p: PlayerId :: t.Count(p) == Held(t.fis, p, |t.fis|))
  }

  /** A carried flag has its carrier's freq, except that the flags of `p` from i on may
      be stale while they wait to be cleaned up. */
  ghost predicate FreqsOkExcept(t: Table, p: Option<PlayerId>, i: nat) {
    forall j | 0 <= j < |t.fis| && t.fis[j].carrier.Some? ::
      t.fis[j].freq == t.FreqOf(t.fis[j].carrier.value) || (t.fis[j].carrier == p && j >= i)
  }

  // -------------------------------------------------------------- counting

  function One(b: bool): nat { if b then 1 else 0 }

  lemma {:induction false} HeldSame(fis: seq<FlagInfo>, fis': seq<FlagInfo>, p: PlayerId, n: nat)
    requires n <= |fis| && n <= |fis'|
    requires forall i | 0 <= i < n :: CarriedBy(fis[i], p) == CarriedBy(fis'[i], p)
    ensures Held(fis, p, n) == Held(fis', p, n)
  {
    if n > 0 { HeldSame(fis, fis', p, n - 1); }
  }

  lemma {:induction false} HeldUpdate(fis: seq<FlagInfo>, i: nat, fi: FlagInfo, p: PlayerId, n: nat)
    requires i < n <= |fis|
    ensures Held(fis[i := fi], p, n) == Held(fis, p, n) - One(CarriedBy(fis[i], p)) + One(CarriedBy(fi, p))
  {
    if n - 1 == i {
      HeldSame(fis, fis[i := fi], p, n - 1);
    } else {
      HeldUpdate(fis, i, fi, p, n - 1);
    }
  }

  lemma {:induction false} HeldAppend(fis: seq<FlagInfo>, more: seq<FlagInfo>, p: PlayerId)
    requires forall i | 0 <= i < |more| :: more[i] == BLANK_FLAG
    ensures Held(fis + more, p, |fis + more|) == Held(fis, p, |fis|)
    decreases |more|
  {
    if more == [] {
      assert fis + more == fis;
    } else {
      var less := more[..|more| - 1];
      HeldAppend(fis, less, p);
      HeldSame(fis + more, fis + less, p, |fis + less|);
      assert (fis + more)[|fis + more| - 1] == BLANK_FLAG;
    }
  }

  lemma {:induction false} HeldZero(fis: seq<FlagInfo>, p: PlayerId, n: nat)
    requires n <= |fis|
    ensures Held(fis, p, n) == 0 <==> forall i | 0 <= i < n :: !CarriedBy(fis[i], p)
  {
    if n > 0 { HeldZero(fis, p, n - 1); }
  }

  // -------------------------------------------------------------- set_flag

  lemma SpaceConsistent(t: Table, wanted: nat)
    requires Consistent(t) && wanted <= MAXFLAGS
    ensures Consistent(EnsureSpace(t, wanted)) && |EnsureSpace(t, wanted).fis| >= wanted
  {
    var t' := EnsureSpace(t, wanted);
    if |t.fis| < wanted {
      forall p: PlayerId ensures t'.Count(p) == Held(t'.fis, p, |t'.fis|) {
        HeldAppend(t.fis, seq(wanted - |t.fis|, _ => BLANK_FLAG), p);
      }
    }
  }

  /** One flag changes hands and the counts follow: the shape of every operation. */
  lemma MovedConsistent(t: Table, fid: nat, fi: FlagInfo, t': Table)
    requires Consistent(t) && fid < |t.fis| && WellFormed(fi) && t'.fis == t.fis[fid := fi]
    requires forall p: PlayerId ::
               t'.Count(p) == t.Count(p) - One(CarriedBy(t.fis[fid], p)) + One(CarriedBy(fi, p))
    ensures Consistent(t')
  {
    forall p: PlayerId ensures t'.Count(p) == Held(t'.fis, p, |t'.fis|) {
      HeldUpdate(t.fis, fid, fi, p, |t.fis|);
    }
  }

  lemma UnhandConsistent(t: Table, fid: nat)
    requires Consistent(t) && fid < |t.fis| && t.fis[fid].carrier.Some?
    ensures Consistent(Unhand(t, fid)) && Unhand(t, fid).fis[fid].state.Missing?
    ensures |Unhand(t, fid).fis| == |t.fis|
  {
    var fi := t.fis[fid].(state := Missing, carrier := None, freq := -1);
    forall p: PlayerId ensures Held(t.fis[fid := fi], p, |t.fis|) == t.Count(p) - One(CarriedBy(t.fis[fid], p)) {
      HeldUpdate(t.fis, fid, fi, p, |t.fis|);
    }
    MovedConsistent(t, fid, fi, Unhand(t, fid));
  }

  lemma PlaceConsistent(t: Table, fid: nat, nfi: FlagInfo)
    requires Consistent(t) && fid < |t.fis| && !t.fis[fid].state.Carried? && WellFormed(nfi)
    ensures Consistent(Place(t, fid, nfi)) && |Place(t, fid, nfi).fis| == |t.fis|
  {
    MovedConsistent(t, fid, Stored(t, t.fis[fid].state, nfi), Place(t, fid, nfi));
  }

  lemma SetFlagConsistent(t: Table, fid: int, nfi: FlagInfo)
    requires Consistent(t)
    ensures Consistent(SetFlag(t, fid, nfi)) && |SetFlag(t, fid, nfi).fis| >= |t.fis|
  {
    if 0 <= fid < MAXFLAGS && WellFormed(nfi) {
      SpaceConsistent(t, fid + 1);
      var t1 := EnsureSpace(t, fid + 1);
      assert WellFormed(t1.fis[fid]);
      if t1.fis[fid].state.Carried? {
        if nfi.carrier != t1.fis[fid].carrier {
          UnhandConsistent(t1, fid);
          PlaceConsistent(Unhand(t1, fid), fid, nfi);
        }
      } else {
        PlaceConsistent(t1, fid, nfi);
      }
    } else if 0 <= fid < MAXFLAGS {
      SpaceConsistent(t, fid + 1);
    }
  }

  lemma {:induction false} SetFlagsConsistent(t: Table, fid: int, fis: seq<FlagInfo>)
    requires Consistent(t)
    ensures Consistent(SetFlags(t, fid, fis)) && |SetFlags(t, fid, fis).fis| >= |t.fis|
    decreases |fis|
  {
    if fid >= 0 && fis != [] {
      SetFlagConsistent(t, fid, fis[0]);
      SetFlagsConsistent(SetFlag(t, fid, fis[0]), fid + 1, fis[1..]);
    }
  }

  lemma {:induction false} SetAllConsistent(t: Table, requests: seq<Request>)
    requires Consistent(t)
    ensures Consistent(SetAll(t, requests)) && |SetAll(t, requests).fis| >= |t.fis|
    decreases |requests|
  {
    if requests != [] {
      SetFlagsConsistent(t, requests[0].fid, requests[0].fis);
      SetAllConsistent(SetFlags(t, requests[0].fid, requests[0].fis), requests[1..]);
    }
  }

  // ------------------------------------------------ operations with Cleanup

  lemma LostConsistent(t: Table, fid: nat, p: PlayerId)
    requires Consistent(t) && fid < |t.fis| && CarriedBy(t.fis[fid], p)
    ensures Consistent(Lost(t, fid, p))
  {
    MovedConsistent(t, fid, t.fis[fid].(state := Missing, carrier := None), Lost(t, fid, p));
  }

  lemma {:induction false} CleanupConsistent(t: Table, p: PlayerId, reason: Reason, h: Handler, i: nat)
    requires Consistent(t)
    ensures Consistent(Cleanup(t, p, reason, h, i))
    decreases MAXFLAGS - i
  {
    if i >= |t.fis| || i >= MAXFLAGS {
    } else if CarriedBy(t.fis[i], p) {
      var t1 := Lost(t, i, p);
      LostConsistent(t, i, p);
      SetAllConsistent(t1, h(t1, i, reason, p, t1.fis[i].freq));
      CleanupConsistent(SetAll(t1, h(t1, i, reason, p, t1.fis[i].freq)), p, reason, h, i + 1);
    } else {
      CleanupConsistent(t, p, reason, h, i + 1);
    }
  }

  lemma TransferredConsistent(t: Table, fid: nat, killer: PlayerId, victim: PlayerId)
    requires Consistent(t) && fid < |t.fis| && CarriedBy(t.fis[fid], victim)
    ensures Consistent(Transferred(t, fid, killer, victim))
  {
    MovedConsistent(t, fid, t.fis[fid].(carrier := Some(killer), freq := t.FreqOf(killer)),
                    Transferred(t, fid, killer, victim));
  }

  lemma {:induction false} TransferConsistent(
      t: Table, killer: PlayerId, victim: PlayerId, limit: int, fake: bool, h: Handler, i: nat)
    requires Consistent(t)
    ensures Consistent(Transfer(t, killer, victim, limit, fake, h, i).0)
    decreases MAXFLAGS - i
  {
    if i >= |t.fis| || i >= MAXFLAGS {
    } else if CarriedBy(t.fis[i], victim) && t.Count(killer) < limit {
      var t1 := Transferred(t, i, killer, victim);
      var requests := h(t1, i, KillReason(t, killer, victim, fake), victim, t.FreqOf(victim));
      TransferredConsistent(t, i, killer, victim);
      SetAllConsistent(t1, requests);
      TransferConsistent(SetAll(t1, requests), killer, victim, limit, fake, h, i + 1);
    } else {
      TransferConsistent(t, killer, victim, limit, fake, h, i + 1);
    }
  }

  lemma {:induction false} OverflowConsistent(t: Table, killer: PlayerId, victim: PlayerId, h: Handler, i: nat)
    requires Consistent(t)
    ensures Consistent(Overflow(t, killer, victim, h, i))
    decreases MAXFLAGS - i
  {
    if i >= |t.fis| || i >= MAXFLAGS {
    } else if CarriedBy(t.fis[i], killer) {
      OverflowConsistent(t.Sent(Pickup(i, killer)), killer, victim, h, i + 1);
    } else if CarriedBy(t.fis[i], victim) {
      var t1 := Lost(t, i, victim);
      var requests := h(t1, i, KillCantCarry, victim, t.FreqOf(victim));
      LostConsistent(t, i, victim);
      SetAllConsistent(t1, requests);
      OverflowConsistent(SetAll(t1, requests), killer, victim, h, i + 1);
    } else {
      OverflowConsistent(t, killer, victim, h, i + 1);
    }
  }

  lemma KillConsistent(t: Table, killer: PlayerId, victim: PlayerId, limit: int, fake: bool, h: Handler)
    requires Consistent(t)
    ensures Consistent(Kill(t, killer, victim, limit, fake, h))
  {
    TransferConsistent(t, killer, victim, limit, fake, h, 0);
    var (t1, overflow) := Transfer(t, killer, victim, limit, fake, h, 0);
    OverflowConsistent(t1.Sent(Drop(killer)), killer, victim, h, 0);
  }

  lemma {:induction false} ResetFromConsistent(t: Table, i: nat)
    requires Consistent(t)
    ensures Consistent(ResetFrom(t, i)) && |ResetFrom(t, i).fis| == |t.fis|
    ensures forall j | 0 <= j < |t.fis| :: j < i || ResetFrom(t, i).fis[j].state.Missing?
    ensures forall j | 0 <= j < |t.fis| && j < i :: ResetFrom(t, i).fis[j] == t.fis[j]
    decreases |t.fis| - i
  {
    if i < |t.fis| {
      var fi := t.fis[i];
      var t1 := if fi.carrier.Some? then t.WithCount(fi.carrier.value, t.Count(fi.carrier.value) - 1) else t;
      var fi' := fi.(state := Missing, carrier := None, freq := -1);
      assert WellFormed(fi);
      MovedConsistent(t, i, fi', t1.WithFlag(i, fi'));
      ResetFromConsistent(t1.WithFlag(i, fi'), i + 1);
    }
  }

  /** What a player enters with is zero, so entering keeps the counts exactly when he
      carries nothing. */
  lemma EnterArenaConsistent(t: Table, p: PlayerId)
    requires Consistent(t)
    ensures Consistent(EnterArena(t, p)) <==> t.Count(p) == 0
  {
  }

  // ------------------------------------------------------------- the freqs

  lemma UnhandFreqs(t: Table, fid: nat, p: Option<PlayerId>, i: nat)
    requires fid < |t.fis| && t.fis[fid].carrier.Some? && FreqsOkExcept(t, p, i)
    ensures FreqsOkExcept(Unhand(t, fid), p, i) && Unhand(t, fid).freqs == t.freqs
  {
  }

  lemma PlaceFreqs(t: Table, fid: nat, nfi: FlagInfo, p: Option<PlayerId>, i: nat)
    requires fid < |t.fis| && FreqsOkExcept(t, p, i)
    ensures FreqsOkExcept(Place(t, fid, nfi), p, i) && Place(t, fid, nfi).freqs == t.freqs
  {
  }

  lemma SpaceFreqs(t: Table, wanted: nat, p: Option<PlayerId>, i: nat)
    requires FreqsOkExcept(t, p, i)
    ensures FreqsOkExcept(EnsureSpace(t, wanted), p, i) && EnsureSpace(t, wanted).freqs == t.freqs
  {
  }

  lemma SetFlagFreqs(t: Table, fid: int, nfi: FlagInfo, p: Option<PlayerId>, i: nat)
    requires FreqsOkExcept(t, p, i)
    ensures FreqsOkExcept(SetFlag(t, fid, nfi), p, i)
  {
    if 0 <= fid < MAXFLAGS {
      SpaceFreqs(t, fid + 1, p, i);
      var t1 := EnsureSpace(t, fid + 1);
      if t1.fis[fid].state.Carried? && t1.fis[fid].carrier.Some? {
        UnhandFreqs(t1, fid, p, i);
        PlaceFreqs(Unhand(t1, fid), fid, nfi, p, i);
      } else {
        PlaceFreqs(t1, fid, nfi, p, i);
      }
    }
  }

  lemma {:induction false} SetFlagsFreqs(t: Table, fid: int, fis: seq<FlagInfo>, p: Option<PlayerId>, i: nat)
    requires Consistent(t) && FreqsOkExcept(t, p, i)
    ensures FreqsOkExcept(SetFlags(t, fid, fis), p, i)
    decreases |fis|
  {
    if fid >= 0 && fis != [] {
      SetFlagConsistent(t, fid, fis[0]);
      SetFlagFreqs(t, fid, fis[0], p, i);
      SetFlagsFreqs(SetFlag(t, fid, fis[0]), fid + 1, fis[1..], p, i);
    }
  }

  lemma {:induction false} SetAllFreqs(t: Table, requests: seq<Request>, p: Option<PlayerId>, i: nat)
    requires Consistent(t) && FreqsOkExcept(t, p, i)
    ensures FreqsOkExcept(SetAll(t, requests), p, i)
    decreases |requests|
  {
    if requests != [] {
      SetFlagsConsistent(t, requests[0].fid, requests[0].fis);
      SetFlagsFreqs(t, requests[0].fid, requests[0].fis, p, i);
      SetAllFreqs(SetFlags(t, requests[0].fid, requests[0].fis), requests[1..], p, i);
    }
  }

  lemma {:induction false} CleanupFreqs(t: Table, p: PlayerId, reason: Reason, h: Handler, i: nat)
    requires Consistent(t) && FreqsOkExcept(t, Some(p), i)
    ensures FreqsOkExcept(Cleanup(t, p, reason, h, i), None, 0)
    decreases MAXFLAGS - i
  {
    if i >= |t.fis| || i >= MAXFLAGS {
    } else if CarriedBy(t.fis[i], p) {
      var t1 := Lost(t, i, p);
      var requests := h(t1, i, reason, p, t1.fis[i].freq);
      LostConsistent(t, i, p);
      assert FreqsOkExcept(t1, Some(p), i + 1);
      SetAllConsistent(t1, requests);
      SetAllFreqs(t1, requests, Some(p), i + 1);
      CleanupFreqs(SetAll(t1, requests), p, reason, h, i + 1);
    } else {
      assert WellFormed(t.fis[i]);
      CleanupFreqs(t, p, reason, h, i + 1);
    }
  }

  /** After a freq change and its cleanup, every carried flag has its carrier's freq
      again, whatever the handler did with the flags on the way. */
  lemma ChangeFreqOk(t: Table, p: PlayerId, freq: int, h: Handler)
    requires Consistent(t) && FreqsOkExcept(t, None, 0)
    ensures Consistent(ChangeFreq(t, p, freq, h)) && FreqsOkExcept(ChangeFreq(t, p, freq, h), None, 0)
  {
    var t1 := t.(freqs := t.freqs[p := freq]);
    assert Consistent(t1) by {
      assert forall q: PlayerId :: t1.Count(q) == t.Count(q);
    }
    assert FreqsOkExcept(t1, Some(p), 0);
    CleanupConsistent(t1, p, FreqChange, h, 0);
    CleanupFreqs(t1, p, FreqChange, h, 0);
  }

  lemma {:induction false} TransferFreqs(
      t: Table, killer: PlayerId, victim: PlayerId, limit: int, fake: bool, h: Handler, i: nat)
    requires Consistent(t) && FreqsOkExcept(t, None, 0)
    ensures FreqsOkExcept(Transfer(t, killer, victim, limit, fake, h, i).0, None, 0)
    decreases MAXFLAGS - i
  {
    if i >= |t.fis| || i >= MAXFLAGS {
    } else if CarriedBy(t.fis[i], victim) && t.Count(killer) < limit {
      var t1 := Transferred(t, i, killer, victim);
      var requests := h(t1, i, KillReason(t, killer, victim, fake), victim, t.FreqOf(victim));
      TransferredConsistent(t, i, killer, victim);
      SetAllConsistent(t1, requests);
      SetAllFreqs(t1, requests, None, 0);
      TransferFreqs(SetAll(t1, requests), killer, victim, limit, fake, h, i + 1);
    } else {
      TransferFreqs(t, killer, victim, limit, fake, h, i + 1);
    }
  }
}
