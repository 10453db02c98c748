/** Drop packets: the clients are told first and the flags are cleaned up after, so that
    what the clients see at the end depends on what the game's Cleanup does meanwhile. */
module FlagDrops {
  import opened Options
  import opened Flags
  import opened FlagCounts
  import opened FlagClients
  import opened FlagTrails

  /** What clients see of flag f while the flags of p from i on are still to be cleaned
      up: nothing of those, or all of them again once `armed`, and `stale` flags as p's
      although nobody has them. */
  function Expected(fis: seq<FlagInfo>, p: PlayerId, i: nat, armed: bool, stale: set<nat>, f: nat): Seen {
    if f in stale then HeldBy(p)
    else if i <= f < |fis| && CarriedBy(fis[f], p) then (if armed then HeldBy(p) else Absent)
    else Server(fis, f)
  }

  ghost predicate Dropping(w: View, fis: seq<FlagInfo>, p: PlayerId, i: nat, armed: bool, stale: set<nat>) {
    && (forall f: nat :: Look(w, f) == Expected(fis, p, i, armed, stale, f))
    && (forall f | f in stale :: f < i && f < |fis| && fis[f].state.Missing?)
  }

  // ------------------------------------------------------------ single moves

  lemma SentConsistent(t: Table, pkt: Packet)
    requires Consistent(t)
    ensures Consistent(t.Sent(pkt))
  {
  }

  lemma PutDropping(
      w: View, w': View, fis: seq<FlagInfo>, fid: nat, fi: FlagInfo, told: bool, p: PlayerId, i: nat, armed: bool,
      stale: set<nat>)
    requires Dropping(w, fis, p, i, armed, stale) && fid < |fis| && !fis[fid].state.Carried?
    requires PutSeen(w, w', fid, fi, told) && (!told ==> fis[fid].state.Missing?)
    requires CarriedBy(fi, p) ==> fid < i
    ensures Dropping(w', fis[fid := fi], p, i, armed, if told then stale - {fid} else stale)
  {
    var stale' := if told then stale - {fid} else stale;
    forall f: nat ensures Look(w', f) == Expected(fis[fid := fi], p, i, armed, stale', f) {
      assert Look(w, f) == Expected(fis, p, i, armed, stale, f);
    }
  }

  lemma RetakenDropping(
      w: View, w': View, fis: seq<FlagInfo>, fid: nat, fi: FlagInfo, c: PlayerId, p: PlayerId, i: nat, armed: bool,
      stale: set<nat>)
    requires Dropping(w, fis, p, i, armed, stale) && fid < |fis| && CarriedBy(fis[fid], c) && (c == p ==> fid < i)
    requires fi.state.Missing? && RetakenSeen(w, w', fis[fid := fi], c)
    requires forall f | 0 <= f < |fis| :: WellFormed(fis[f])
    ensures Dropping(w', fis[fid := fi], p, i, armed || c == p, if c == p then {} else stale)
  {
    var armed', stale' := armed || c == p, if c == p then {} else stale;
    forall f: nat ensures Look(w', f) == Expected(fis[fid := fi], p, i, armed', stale', f) {
      assert Look(w, f) == Expected(fis, p, i, armed, stale, f);
      assert f < |fis| ==> WellFormed(fis[f]);
    }
  }

  lemma SpaceDropping(w: View, t: Table, p: PlayerId, i: nat, wanted: nat)
    requires Dropping(w, t.fis, p, i, false, {})
    ensures Dropping(w, EnsureSpace(t, wanted).fis, p, i, false, {})
  {
    var fis := EnsureSpace(t, wanted).fis;
    forall f: nat ensures Look(w, f) == Expected(fis, p, i, false, {}, f) {
      assert Look(w, f) == Expected(t.fis, p, i, false, {}, f);
    }
  }

  lemma PlaceDropping(v: View, t: Table, p: PlayerId, i: nat, armed: bool, stale: set<nat>, fid: nat, nfi: FlagInfo)
    requires Dropping(Replay(v, t.out), t.fis, p, i, armed, stale) && fid < |t.fis| && WellFormed(nfi)
    requires !t.fis[fid].state.Carried? && (nfi.carrier == Some(p) ==> fid < i)
    ensures var t' := Place(t, fid, nfi);
            Dropping(Replay(v, t'.out), t'.fis, p, i, armed, if Told(t.fis[fid].state, nfi) then stale - {fid} else stale)
  {
    var t' := Place(t, fid, nfi);
    PlacePuts(v, t, fid, nfi);
    PlaceChanges(t, fid, nfi);
    PutDropping(Replay(v, t.out), Replay(v, t'.out), t.fis, fid, t'.fis[fid], Told(t.fis[fid].state, nfi), p, i, armed, stale);
  }

  lemma UnhandDropping(v: View, t: Table, p: PlayerId, i: nat, armed: bool, stale: set<nat>, fid: nat)
    requires Consistent(t) && Dropping(Replay(v, t.out), t.fis, p, i, armed, stale)
    requires fid < |t.fis| && t.fis[fid].carrier.Some? && (t.fis[fid].carrier == Some(p) ==> fid < i)
    ensures var t', own := Unhand(t, fid), t.fis[fid].carrier == Some(p);
            Dropping(Replay(v, t'.out), t'.fis, p, i, armed || own, if own then {} else stale)
  {
    var t', c := Unhand(t, fid), t.fis[fid].carrier.value;
    assert WellFormed(t.fis[fid]);
    UnhandRetakes(v, t, fid);
    UnhandChanges(t, fid);
    RetakenDropping(Replay(v, t.out), Replay(v, t'.out), t.fis, fid, t'.fis[fid], c, p, i, armed, stale);
  }

  /** A flag is lost without a word: the clients had been told before, or see it as p's
      until somebody tells them. */
  lemma LostDropping(w: View, t: Table, p: PlayerId, i: nat, armed: bool, stale: set<nat>)
    requires Dropping(w, t.fis, p, i, armed, stale) && i < |t.fis| && CarriedBy(t.fis[i], p)
    ensures Dropping(w, Lost(t, i, p).fis, p, i + 1, armed, if armed then stale + {i} else stale)
  {
    var fis, stale' := Lost(t, i, p).fis, if armed then stale + {i} else stale;
    forall f: nat ensures Look(w, f) == Expected(fis, p, i + 1, armed, stale', f) {
      assert Look(w, f) == Expected(t.fis, p, i, armed, stale, f);
    }
  }

  lemma SkipDropping(w: View, fis: seq<FlagInfo>, p: PlayerId, i: nat, armed: bool, stale: set<nat>)
    requires Dropping(w, fis, p, i, armed, stale) && (i < |fis| ==> !CarriedBy(fis[i], p))
    ensures Dropping(w, fis, p, i + 1, armed, stale)
  {
    forall f: nat ensures Look(w, f) == Expected(fis, p, i + 1, armed, stale, f) {
      assert Look(w, f) == Expected(fis, p, i, armed, stale, f);
    }
  }

  lemma DropIsSeen(v: View, t: Table, p: PlayerId)
    requires Consistent(t) && Agrees(v, t)
    ensures Dropping(Replay(v, t.out + [Drop(p)]), t.fis, p, 0, false, {})
  {
    ReplayOne(v, t.out, Drop(p));
    forall f: nat ensures Look(React(Replay(v, t.out), Drop(p)), f) == Expected(t.fis, p, 0, false, {}, f) {
      ReactLook(Replay(v, t.out), Drop(p), f);
      assert Look(Replay(v, t.out), f) == Server(t.fis, f);
      assert f < |t.fis| ==> WellFormed(t.fis[f]);
    }
  }

  /** The clients are right about flag f. */
  predicate Right(v: View, t: Table, f: nat) { Look(Replay(v, t.out), f) == Server(t.fis, f) }

  lemma AgreesIsRight(v: View, t: Table)
    ensures Agrees(v, t) <==> forall f: nat :: Right(v, t, f)
  {
    if forall f: nat :: Right(v, t, f) {
      forall f: nat ensures Look(Replay(v, t.out), f) == Server(t.fis, f) { assert Right(v, t, f); }
    }
  }

  lemma Finished(v: View, t: Table, p: PlayerId, i: nat, armed: bool, stale: set<nat>, f: nat)
    requires Dropping(Replay(v, t.out), t.fis, p, i, armed, stale) && i >= |t.fis|
    ensures Right(v, t, f) <==> f !in stale
  {
    assert Look(Replay(v, t.out), f) == Expected(t.fis, p, i, armed, stale, f);
  }

  // --------------------------------------------- handlers that do no harm

  /** A request that a cleanup of p's flags before i can take without harm: it is for a
      flag he does not carry, and it does not hand him one still to be cleaned up. */
  predicate Harmless(t: Table, fid: int, nfi: FlagInfo, p: PlayerId, i: nat) {
    && (0 <= fid < |t.fis| ==> !CarriedBy(t.fis[fid], p))
    && (nfi.carrier == Some(p) ==> fid < i)
  }

  predicate HarmlessFlags(t: Table, fid: int, fis: seq<FlagInfo>, p: PlayerId, i: nat)
    decreases |fis|
  {
    fid < 0 || fis == []
    || (Harmless(t, fid, fis[0], p, i) && HarmlessFlags(SetFlag(t, fid, fis[0]), fid + 1, fis[1..], p, i))
  }

  predicate HarmlessAll(t: Table, requests: seq<Request>, p: PlayerId, i: nat)
    decreases |requests|
  {
    requests == []
    || (HarmlessFlags(t, requests[0].fid, requests[0].fis, p, i)
        && HarmlessAll(SetFlags(t, requests[0].fid, requests[0].fis), requests[1..], p, i))
  }

  /** Whenever the cleanup calls the handler, from flag i on, it makes any number of
      requests for any flags, each of which is harmless when it is made. */
  predicate HarmlessCleanup(t: Table, p: PlayerId, reason: Reason, h: Handler, i: nat)
    decreases MAXFLAGS - i
  {
    if i >= |t.fis| || i >= MAXFLAGS then true
    else if !CarriedBy(t.fis[i], p) then HarmlessCleanup(t, p, reason, h, i + 1)
    else
      var t1 := Lost(t, i, p);
      var requests := h(t1, i, reason, p, t1.fis[i].freq);
      HarmlessAll(t1, requests, p, i + 1) && HarmlessCleanup(SetAll(t1, requests), p, reason, h, i + 1)
  }

  lemma SetHarmless(v: View, t: Table, p: PlayerId, i: nat, fid: int, nfi: FlagInfo)
    requires Consistent(t) && Dropping(Replay(v, t.out), t.fis, p, i, false, {}) && Harmless(t, fid, nfi, p, i)
    ensures Dropping(Replay(v, SetFlag(t, fid, nfi).out), SetFlag(t, fid, nfi).fis, p, i, false, {})
  {
    if 0 <= fid < MAXFLAGS {
      SpaceDropping(Replay(v, t.out), t, p, i, fid + 1);
      SpaceConsistent(t, fid + 1);
      var t1 := EnsureSpace(t, fid + 1);
      assert WellFormed(t1.fis[fid]) && !CarriedBy(t1.fis[fid], p);
      if WellFormed(nfi) {
        if !t1.fis[fid].state.Carried? {
          PlaceDropping(v, t1, p, i, false, {}, fid, nfi);
        } else if nfi.carrier != t1.fis[fid].carrier {
          UnhandDropping(v, t1, p, i, false, {}, fid);
          UnhandChanges(t1, fid);
          PlaceDropping(v, Unhand(t1, fid), p, i, false, {}, fid, nfi);
        }
      }
    }
  }

  lemma {:induction false} SetFlagsHarmless(v: View, t: Table, p: PlayerId, i: nat, fid: int, fis: seq<FlagInfo>)
    requires Consistent(t) && Dropping(Replay(v, t.out), t.fis, p, i, false, {}) && HarmlessFlags(t, fid, fis, p, i)
    ensures Dropping(Replay(v, SetFlags(t, fid, fis).out), SetFlags(t, fid, fis).fis, p, i, false, {})
    decreases |fis|
  {
    if fid >= 0 && fis != [] {
      SetFlagConsistent(t, fid, fis[0]);
      SetHarmless(v, t, p, i, fid, fis[0]);
      SetFlagsHarmless(v, SetFlag(t, fid, fis[0]), p, i, fid + 1, fis[1..]);
    }
  }

  lemma {:induction false} SetAllHarmless(v: View, t: Table, p: PlayerId, i: nat, requests: seq<Request>)
    requires Consistent(t) && Dropping(Replay(v, t.out), t.fis, p, i, false, {}) && HarmlessAll(t, requests, p, i)
    ensures Dropping(Replay(v, SetAll(t, requests).out), SetAll(t, requests).fis, p, i, false, {})
    decreases |requests|
  {
    if requests != [] {
      SetFlagsConsistent(t, requests[0].fid, requests[0].fis);
      SetFlagsHarmless(v, t, p, i, requests[0].fid, requests[0].fis);
      SetAllHarmless(v, SetFlags(t, requests[0].fid, requests[0].fis), p, i, requests[1..]);
    }
  }

  lemma {:induction false} CleanupHarmless(v: View, t: Table, p: PlayerId, reason: Reason, h: Handler, i: nat)
    requires Consistent(t) && HarmlessCleanup(t, p, reason, h, i) && Dropping(Replay(v, t.out), t.fis, p, i, false, {})
    ensures Agrees(v, Cleanup(t, p, reason, h, i))
    decreases MAXFLAGS - i
  {
    if i >= |t.fis| {
      forall f: nat ensures Look(Replay(v, t.out), f) == Server(t.fis, f) {
        Finished(v, t, p, i, false, {}, f);
      }
    } else if CarriedBy(t.fis[i], p) {
      var t1 := Lost(t, i, p);
      var requests := h(t1, i, reason, p, t1.fis[i].freq);
      LostConsistent(t, i, p);
      LostDropping(Replay(v, t.out), t, p, i, false, {});
      SetAllConsistent(t1, requests);
      SetAllHarmless(v, t1, p, i + 1, requests);
      CleanupHarmless(v, SetAll(t1, requests), p, reason, h, i + 1);
    } else {
      SkipDropping(Replay(v, t.out), t.fis, p, i, false, {});
      CleanupHarmless(v, t, p, reason, h, i + 1);
    }
  }

  /** A drop packet and its cleanup leave the clients with the server's view, however much
      the handler moves about while it runs, if it keeps off the dropper's other flags. */
  lemma DropFlagsAgrees(v: View, t: Table, p: PlayerId, reason: Reason, h: Handler)
    requires Consistent(t) && Agrees(v, t) && HarmlessCleanup(t.Sent(Drop(p)), p, reason, h, 0)
    ensures Agrees(v, DropFlags(t, p, reason, h))
  {
    SentConsistent(t, Drop(p));
    DropIsSeen(v, t, p);
    CleanupHarmless(v, t.Sent(Drop(p)), p, reason, h, 0);
  }

  // ------------------------------------- handlers that keep to their own flag

  /** Any number of requests, all for one flag. */
  predicate OwnOnly(requests: seq<Request>, fid: nat) {
    forall k | 0 <= k < |requests| :: requests[k].fid == fid && |requests[k].fis| <= 1
  }

  /** What a request for one flag comes to: set_flag ignores one that contradicts itself. */
  function Effective(r: Request): Option<FlagInfo> {
    if r.fis != [] && WellFormed(r.fis[0]) then Some(r.fis[0]) else None
  }

  /** Carrying out the requests takes the flag out of p's hands, `held` being whether he
      has it before. */
  predicate Exposes(requests: seq<Request>, p: PlayerId, held: bool)
    decreases |requests|
  {
    if requests == [] then false
    else match Effective(requests[0])
      case None => Exposes(requests[1..], p, held)
      case Some(fi) => (held && fi.carrier != Some(p)) || Exposes(requests[1..], p, fi.carrier == Some(p))
  }

  /** Carrying out the requests for a flag that nobody has sends a packet. */
  predicate Tells(requests: seq<Request>)
    decreases |requests|
  {
    requests != []
    && ((Effective(requests[0]).Some? && !Effective(requests[0]).value.state.Missing?) || Tells(requests[1..]))
  }

  /** From flag i on the handler's requests are for the flag it is called for; `moved` are
      those it has p carry once more and takes from him, `shown` those it tells of. */
  predicate OwnCleanup(t: Table, p: PlayerId, reason: Reason, h: Handler, i: nat, moved: set<nat>, shown: set<nat>)
    decreases MAXFLAGS - i
  {
    if i >= |t.fis| || i >= MAXFLAGS then true
    else if !CarriedBy(t.fis[i], p) then OwnCleanup(t, p, reason, h, i + 1, moved, shown)
    else
      var t1 := Lost(t, i, p);
      var requests := h(t1, i, reason, p, t1.fis[i].freq);
      && OwnOnly(requests, i) && (i in moved <==> Exposes(requests, p, false)) && (i in shown <==> Tells(requests))
      && OwnCleanup(SetAll(t1, requests), p, reason, h, i + 1, moved, shown)
  }

  /** One request is one set_flag. */
  lemma {:induction false} SetsOne(t: Table, r: Request, fid: nat)
    requires fid < |t.fis| <= MAXFLAGS && r.fid == fid && |r.fis| <= 1
    ensures SetFlags(t, r.fid, r.fis) == if Effective(r).Some? then SetFlag(t, fid, Effective(r).value) else t
  {
    if r.fis != [] {
      var t1 := SetFlag(t, fid, r.fis[0]);
      assert r.fis[1..] == [];
      assert SetFlags(t1, fid + 1, []) == t1;
    }
  }

  lemma SetLoose(t: Table, fid: nat, nfi: FlagInfo)
    requires fid < |t.fis| <= MAXFLAGS && !t.fis[fid].state.Carried? && WellFormed(nfi)
    ensures SetFlag(t, fid, nfi) == Place(t, fid, nfi)
  {
  }

  lemma SetHeld(t: Table, fid: nat, nfi: FlagInfo)
    requires fid < |t.fis| <= MAXFLAGS && WellFormed(t.fis[fid]) && WellFormed(nfi) && t.fis[fid].state.Carried?
    ensures SetFlag(t, fid, nfi) == if nfi.carrier == t.fis[fid].carrier then t else Place(Unhand(t, fid), fid, nfi)
  {
  }

  lemma SetChanges(t: Table, fid: nat, nfi: FlagInfo)
    requires Consistent(t) && fid < |t.fis| && WellFormed(nfi)
    ensures var t' := SetFlag(t, fid, nfi);
            && |t'.fis| == |t.fis| && t'.fis == t.fis[fid := t'.fis[fid]] && t'.fis[fid].carrier == nfi.carrier
            && t'.freqs == t.freqs
  {
    assert WellFormed(t.fis[fid]);
    if !t.fis[fid].state.Carried? {
      SetLoose(t, fid, nfi);
      PlaceChanges(t, fid, nfi);
    } else {
      SetHeld(t, fid, nfi);
      UnhandChanges(t, fid);
      PlaceChanges(Unhand(t, fid), fid, nfi);
    }
  }

  /** One effective request for a flag that has been passed. */
  lemma SetDropping(v: View, t: Table, p: PlayerId, i: nat, armed: bool, stale: set<nat>, fid: nat, nfi: FlagInfo)
    requires Consistent(t) && Dropping(Replay(v, t.out), t.fis, p, i, armed, stale)
    requires fid < |t.fis| && fid < i && WellFormed(nfi)
    ensures var t', away := SetFlag(t, fid, nfi), t.fis[fid].carrier == Some(p) && nfi.carrier != Some(p);
            Dropping(Replay(v, t'.out), t'.fis, p, i, armed || away,
                     if away then {} else if nfi.state.Missing? then stale else stale - {fid})
  {
    assert WellFormed(t.fis[fid]);
    assert !t.fis[fid].state.Missing? ==> stale - {fid} == stale;
    if !t.fis[fid].state.Carried? {
      SetLoose(t, fid, nfi);
      PlaceDropping(v, t, p, i, armed, stale, fid, nfi);
    } else {
      SetHeld(t, fid, nfi);
      if nfi.carrier != t.fis[fid].carrier {
        var own := t.fis[fid].carrier == Some(p);
        UnhandDropping(v, t, p, i, armed, stale, fid);
        UnhandChanges(t, fid);
        PlaceDropping(v, Unhand(t, fid), p, i, armed || own, if own then {} else stale, fid, nfi);
        assert {} - {fid} == {};
      }
    }
  }

  /** All the requests of one call. */
  lemma {:induction false} SetAllOwn(
      v: View, t: Table, p: PlayerId, i: nat, armed: bool, stale: set<nat>, fid: nat, requests: seq<Request>)
    requires Consistent(t) && Dropping(Replay(v, t.out), t.fis, p, i, armed, stale)
    requires fid < |t.fis| && fid < i && OwnOnly(requests, fid)
    ensures var t', away := SetAll(t, requests), Exposes(requests, p, t.fis[fid].carrier == Some(p));
            && |t'.fis| == |t.fis| && t'.fis == t.fis[fid := t'.fis[fid]]
            && Dropping(Replay(v, t'.out), t'.fis, p, i, armed || away,
                        if away then {} else if Tells(requests) then stale - {fid} else stale)
    decreases |requests|
  {
    if requests != [] {
      SetsOne(t, requests[0], fid);
      match Effective(requests[0])
      case None => SetAllOwn(v, t, p, i, armed, stale, fid, requests[1..]);
      case Some(nfi) =>
        var away := t.fis[fid].carrier == Some(p) && nfi.carrier != Some(p);
        var stale1 := if away then {} else if nfi.state.Missing? then stale else stale - {fid};
        SetFlagConsistent(t, fid, nfi);
        SetChanges(t, fid, nfi);
        SetDropping(v, t, p, i, armed, stale, fid, nfi);
        SetAllOwn(v, SetFlag(t, fid, nfi), p, i, armed || away, stale1, fid, requests[1..]);
        assert stale - {fid} - {fid} == stale - {fid} && {} - {fid} == {};
    }
  }

  /** What passing a flag of p's does to the flags that will be left. */
  lemma TrailStep(
      fis: seq<FlagInfo>, fis': seq<FlagInfo>, p: PlayerId, moved: set<nat>, shown: set<nat>, i: nat, armed: bool,
      stale: set<nat>)
    requires i < |fis| == |fis'| && fis' == fis[i := fis'[i]] && CarriedBy(fis[i], p)
    ensures Trail(fis, p, moved, shown, i, armed, stale)
            == Trail(fis', p, moved, shown, i + 1, armed || i in moved,
                     if i in moved then {} else if armed && i !in shown then stale + {i} else stale)
  {
    TrailSame(fis, fis', p, moved, shown, i + 1, armed || i in moved,
              if i in moved then {} else if armed && i !in shown then stale + {i} else stale);
  }

  /** What clients see after one flag is lost and the handler's requests are carried out. */
  lemma OneCleaned(
      v: View, t: Table, p: PlayerId, i: nat, armed: bool, stale: set<nat>, requests: seq<Request>)
    requires Consistent(t) && Dropping(Replay(v, t.out), t.fis, p, i, armed, stale)
    requires i < |t.fis| && CarriedBy(t.fis[i], p) && OwnOnly(requests, i)
    ensures var t', away := SetAll(Lost(t, i, p), requests), Exposes(requests, p, false);
            && Consistent(t') && |t'.fis| == |t.fis| && t'.fis == t.fis[i := t'.fis[i]]
            && Dropping(Replay(v, t'.out), t'.fis, p, i + 1, armed || away,
                        if away then {} else if armed && !Tells(requests) then stale + {i} else stale)
  {
    var t1 := Lost(t, i, p);
    LostConsistent(t, i, p);
    LostDropping(Replay(v, t.out), t, p, i, armed, stale);
    SetAllConsistent(t1, requests);
    SetAllOwn(v, t1, p, i + 1, armed, if armed then stale + {i} else stale, i, requests);
    assert i !in stale;
    assert stale + {i} - {i} == stale && stale - {i} == stale;
  }

  /** One flag of the cleanup. */
  lemma CleanupStep(
      v: View, t: Table, p: PlayerId, reason: Reason, h: Handler, i: nat, armed: bool, stale: set<nat>,
      moved: set<nat>, shown: set<nat>)
    returns (t': Table, armed': bool, stale': set<nat>)
    requires Consistent(t) && OwnCleanup(t, p, reason, h, i, moved, shown)
    requires Dropping(Replay(v, t.out), t.fis, p, i, armed, stale) && i < |t.fis| && CarriedBy(t.fis[i], p)
    ensures Cleanup(t, p, reason, h, i) == Cleanup(t', p, reason, h, i + 1)
    ensures Consistent(t') && OwnCleanup(t', p, reason, h, i + 1, moved, shown)
    ensures Dropping(Replay(v, t'.out), t'.fis, p, i + 1, armed', stale')
    ensures Trail(t.fis, p, moved, shown, i, armed, stale) == Trail(t'.fis, p, moved, shown, i + 1, armed', stale')
  {
    var t1 := Lost(t, i, p);
    var requests := h(t1, i, reason, p, t1.fis[i].freq);
    t' := SetAll(t1, requests);
    armed' := armed || i in moved;
    stale' := if i in moved then {} else if armed && i !in shown then stale + {i} else stale;
    OneCleaned(v, t, p, i, armed, stale, requests);
    TrailStep(t.fis, t'.fis, p, moved, shown, i, armed, stale);
  }

  lemma CleanupSkip(
      v: View, t: Table, p: PlayerId, reason: Reason, h: Handler, i: nat, armed: bool, stale: set<nat>,
      moved: set<nat>, shown: set<nat>)
    requires Dropping(Replay(v, t.out), t.fis, p, i, armed, stale) && i < |t.fis| <= MAXFLAGS && !CarriedBy(t.fis[i], p)
    ensures Cleanup(t, p, reason, h, i) == Cleanup(t, p, reason, h, i + 1)
    ensures OwnCleanup(t, p, reason, h, i, moved, shown) == OwnCleanup(t, p, reason, h, i + 1, moved, shown)
    ensures Dropping(Replay(v, t.out), t.fis, p, i + 1, armed, stale)
    ensures Trail(t.fis, p, moved, shown, i, armed, stale) == Trail(t.fis, p, moved, shown, i + 1, armed, stale)
  {
    SkipDropping(Replay(v, t.out), t.fis, p, i, armed, stale);
  }

  lemma {:induction false} CleanupTrail(
      v: View, t: Table, p: PlayerId, reason: Reason, h: Handler, i: nat, armed: bool, stale: set<nat>,
      moved: set<nat>, shown: set<nat>, f: nat)
    requires Consistent(t) && OwnCleanup(t, p, reason, h, i, moved, shown)
    requires Dropping(Replay(v, t.out), t.fis, p, i, armed, stale)
    ensures Right(v, Cleanup(t, p, reason, h, i), f) <==> f !in Trail(t.fis, p, moved, shown, i, armed, stale)
    decreases MAXFLAGS - i
  {
    if i >= |t.fis| {
      Finished(v, t, p, i, armed, stale, f);
    } else {
      var t', armed', stale' := t, armed, stale;
      if CarriedBy(t.fis[i], p) {
        t', armed', stale' := CleanupStep(v, t, p, reason, h, i, armed, stale, moved, shown);
      } else {
        CleanupSkip(v, t, p, reason, h, i, armed, stale, moved, shown);
      }
      CleanupTrail(v, t', p, reason, h, i + 1, armed', stale', moved, shown, f);
    }
  }

  /** After a drop with a handler that keeps to its flag, the clients are wrong about
      exactly the flags left behind. */
  lemma DropWrongAbout(
      v: View, t: Table, p: PlayerId, reason: Reason, h: Handler, moved: set<nat>, shown: set<nat>, f: nat)
    requires Consistent(t) && Agrees(v, t) && OwnCleanup(t.Sent(Drop(p)), p, reason, h, 0, moved, shown)
    ensures Right(v, DropFlags(t, p, reason, h), f) <==> !LeftBehind(t.fis, p, moved, shown, f)
  {
    SentConsistent(t, Drop(p));
    DropIsSeen(v, t, p);
    CleanupTrail(v, t.Sent(Drop(p)), p, reason, h, 0, false, {}, moved, shown, f);
    WholeTrail(t.fis, p, moved, shown, f);
  }

  /** With such a handler the clients agree exactly when it moves none of the dropper's
      flags, or tells of all above the highest-numbered one it moves. */
  lemma DropAgreesIff(v: View, t: Table, p: PlayerId, reason: Reason, h: Handler, moved: set<nat>, shown: set<nat>)
    requires Consistent(t) && Agrees(v, t) && OwnCleanup(t.Sent(Drop(p)), p, reason, h, 0, moved, shown)
    ensures Agrees(v, DropFlags(t, p, reason, h))
            <==> !AnyIn(t.fis, p, moved, 0, |t.fis|) || RestIn(t.fis, p, moved, shown)
  {
    forall f: nat
      ensures Right(v, DropFlags(t, p, reason, h), f) <==> !LeftBehind(t.fis, p, moved, shown, f)
    {
      DropWrongAbout(v, t, p, reason, h, moved, shown, f);
    }
    AgreesIsRight(v, DropFlags(t, p, reason, h));
    NoneLeftIff(t.fis, p, moved, shown);
  }

  // -------------------------------------------------- handlers known by heart

  /** A handler that keeps to its flag whatever the table is when it is called for one of
      p's flags and this reason, and moves and shows the same flags each time. */
  ghost predicate KeepsToOwn(h: Handler, p: PlayerId, reason: Reason, moved: set<nat>, shown: set<nat>) {
    forall t: Table, fid: nat, freq | Consistent(t) && fid < |t.fis| && t.fis[fid].state.Missing? ::
      var requests := h(t, fid, reason, p, freq);
      OwnOnly(requests, fid) && (fid in moved <==> Exposes(requests, p, false)) && (fid in shown <==> Tells(requests))
  }

  lemma {:induction false} KnownCleanup(
      t: Table, p: PlayerId, reason: Reason, h: Handler, i: nat, moved: set<nat>, shown: set<nat>)
    requires Consistent(t) && KeepsToOwn(h, p, reason, moved, shown)
    ensures OwnCleanup(t, p, reason, h, i, moved, shown)
    decreases MAXFLAGS - i
  {
    if i >= |t.fis| || i >= MAXFLAGS {
    } else if CarriedBy(t.fis[i], p) {
      var t1 := Lost(t, i, p);
      var requests := h(t1, i, reason, p, t1.fis[i].freq);
      LostConsistent(t, i, p);
      assert OwnOnly(requests, i);
      SetAllConsistent(t1, requests);
      KnownCleanup(SetAll(t1, requests), p, reason, h, i + 1, moved, shown);
    } else {
      KnownCleanup(t, p, reason, h, i + 1, moved, shown);
    }
  }

  lemma {:induction false} OwnCleanupSame(
      t: Table, p: PlayerId, reason: Reason, h: Handler, i: nat, moved: set<nat>, shown: set<nat>, moved': set<nat>,
      shown': set<nat>)
    requires OwnCleanup(t, p, reason, h, i, moved, shown)
    requires forall k: nat | k >= i :: (k in moved <==> k in moved') && (k in shown <==> k in shown')
    ensures OwnCleanup(t, p, reason, h, i, moved', shown')
    decreases MAXFLAGS - i
  {
    if i >= |t.fis| || i >= MAXFLAGS {
    } else if CarriedBy(t.fis[i], p) {
      var t1 := Lost(t, i, p);
      OwnCleanupSame(SetAll(t1, h(t1, i, reason, p, t1.fis[i].freq)), p, reason, h, i + 1, moved, shown, moved', shown');
    } else {
      OwnCleanupSame(t, p, reason, h, i + 1, moved, shown, moved', shown');
    }
  }

  /** Whatever else it depends on, a handler that keeps to its flag moves some flags in a
      given cleanup and shows some. */
  lemma {:induction false} SomeCleanup(t: Table, p: PlayerId, reason: Reason, h: Handler, i: nat)
    returns (moved: set<nat>, shown: set<nat>)
    requires Consistent(t)
    requires forall s: Table, fid: nat, freq | Consistent(s) && fid < |s.fis| && s.fis[fid].state.Missing? ::
               OwnOnly(h(s, fid, reason, p, freq), fid)
    ensures OwnCleanup(t, p, reason, h, i, moved, shown)
    decreases MAXFLAGS - i
  {
    moved, shown := {}, {};
    if i >= |t.fis| || i >= MAXFLAGS {
    } else if CarriedBy(t.fis[i], p) {
      var t1 := Lost(t, i, p);
      var requests := h(t1, i, reason, p, t1.fis[i].freq);
      LostConsistent(t, i, p);
      SetAllConsistent(t1, requests);
      var moved1, shown1 := SomeCleanup(SetAll(t1, requests), p, reason, h, i + 1);
      moved := if Exposes(requests, p, false) then moved1 + {i} else moved1 - {i};
      shown := if Tells(requests) then shown1 + {i} else shown1 - {i};
      OwnCleanupSame(SetAll(t1, requests), p, reason, h, i + 1, moved1, shown1, moved, shown);
    } else {
      moved, shown := SomeCleanup(t, p, reason, h, i + 1);
    }
  }

  // ------------------------------------------------------ one that goes wrong

  const HELD_BY_1 := FlagInfo(Carried, Some(1), 0, 0, 0)
  const OFF_THE_MAP := FlagInfo(Missing, None, 0, 0, 0)
  const BOTH_HELD_BY_1 := Table([HELD_BY_1, HELD_BY_1], map[1 := 2], map[], [])
  const BOTH_SEEN_WITH_1: View := map[0 := HeldBy(1), 1 := HeldBy(1)]

  /** A handler that gives flag 0 back to player 1 and takes it from him again. */
  function ReturnsFlagZero(t: Table, fid: nat, reason: Reason, p: PlayerId, freq: int): seq<Request> {
    if fid == 0 then [Request(0, [HELD_BY_1]), Request(0, [OFF_THE_MAP])] else []
  }

  lemma BothHeld()
    ensures Consistent(BOTH_HELD_BY_1) && Agrees(BOTH_SEEN_WITH_1, BOTH_HELD_BY_1)
  {
    var t := BOTH_HELD_BY_1;
    assert forall p: PlayerId :: Held(t.fis, p, 2) == Held(t.fis, p, 1) + One(p == 1)
                                 && Held(t.fis, p, 1) == Held(t.fis, p, 0) + One(p == 1);
  }

  lemma ReturnsExposes()
    ensures KeepsToOwn(ReturnsFlagZero, 1, Dropped, {0}, {0})
  {
    var rs := [Request(0, [HELD_BY_1]), Request(0, [OFF_THE_MAP])];
    assert rs[1..] == [Request(0, [OFF_THE_MAP])];
    assert Exposes(rs[1..], 1, true) && Exposes(rs, 1, false) && Tells(rs);
    assert !Exposes([], 1, false) && !Tells([]);
  }

  /** Player 1 carries flags 0 and 1 and drops them. The handler has him carry flag 0 once
      more in between, and the clients see him keep flag 1, which is gone. */
  lemma DropWithHandlerCanDisagree()
    ensures Consistent(BOTH_HELD_BY_1) && Agrees(BOTH_SEEN_WITH_1, BOTH_HELD_BY_1)
    ensures !Agrees(BOTH_SEEN_WITH_1, DropFlags(BOTH_HELD_BY_1, 1, Dropped, ReturnsFlagZero))
  {
    var fis := BOTH_HELD_BY_1.fis;
    BothHeld();
    ReturnsExposes();
    SentConsistent(BOTH_HELD_BY_1, Drop(1));
    KnownCleanup(BOTH_HELD_BY_1.Sent(Drop(1)), 1, Dropped, ReturnsFlagZero, 0, {0}, {0});
    assert CarriedBy(fis[0], 1) && CarriedBy(fis[1], 1);
    assert AnyIn(fis, 1, {0}, 0, 2);
    DropAgreesIff(BOTH_SEEN_WITH_1, BOTH_HELD_BY_1, 1, Dropped, ReturnsFlagZero, {0}, {0});
  }
}
