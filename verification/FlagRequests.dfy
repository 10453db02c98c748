/** What a set_flag request comes to: the flag that is stored, the packet that tells of it,
    and what a client sees then. */
module FlagRequests {
  import opened Options
  import opened Flags
  import opened FlagCounts
  import opened FlagClients

  /** Requests that are carried out: for one of the 255 flags, and with a carrier exactly if
      the flag is to be carried. */
  predicate Valid(fid: int, nfi: FlagInfo) { 0 <= fid < 255 && (nfi.state.Carried? <==> nfi.carrier.Some?) }

  /** The flag as it was, had there been room for it. */
  function FlagOf(t: Table, fid: nat): FlagInfo {
    if fid < |t.fis| then t.fis[fid] else FlagInfo(Missing, None, 0, 0, 0)
  }

  /** What becomes of the flag: on the map it is exactly where it was asked for and owned as
      asked for; a carried one belongs to the carrier and has his freq, unless he had it
      already; one taken off the map has no place and no owner. */
  predicate Becomes(t: Table, nfi: FlagInfo, was: FlagInfo, now: FlagInfo) {
    match nfi.state
    case OnMap => now == FlagInfo(OnMap, None, nfi.x, nfi.y, nfi.freq)
    case Carried =>
      nfi.carrier.Some? &&
      now == if was.state.Carried? && was.carrier == nfi.carrier then was
             else FlagInfo(Carried, nfi.carrier, nfi.x, nfi.y, t.FreqOf(nfi.carrier.value))
    case Missing =>
      now == if was.state.OnMap? then FlagInfo(Missing, None, -1, -1, -1) else FlagInfo(Missing, None, nfi.x, nfi.y, nfi.freq)
  }

  /** No other flag changes, the array grows as far as the flag's place, and new flags are
      blank. */
  ghost predicate OnlyAt(t: Table, t': Table, fid: nat) {
    && |t'.fis| == (if |t.fis| <= fid then fid + 1 else |t.fis|) && t'.freqs == t.freqs
    && forall f: nat | f != fid :: FlagOf(t', f) == FlagOf(t, f)
  }

  lemma SpaceKeepsFlags(t: Table, wanted: nat)
    ensures var t1 := EnsureSpace(t, wanted);
            && |t1.fis| == (if |t.fis| < wanted then wanted else |t.fis|)
            && t1 == t.(fis := t1.fis) && forall f: nat :: FlagOf(t1, f) == FlagOf(t, f)
  {
  }

  lemma PlaceStores(t: Table, fid: nat, nfi: FlagInfo)
    requires fid < |t.fis| && Valid(fid, nfi) && !(t.fis[fid].state.Carried? && t.fis[fid].carrier.Some?)
    requires WellFormed(t.fis[fid])
    ensures var t' := Place(t, fid, nfi);
            fid < |t'.fis| && Becomes(t, nfi, t.fis[fid], t'.fis[fid]) && OnlyAt(t, t', fid)
  {
  }

  lemma UnhandStores(t: Table, fid: nat)
    requires fid < |t.fis| && t.fis[fid].carrier.Some?
    ensures var t' := Unhand(t, fid);
            fid < |t'.fis| && t'.fis[fid].state.Missing? && t'.fis[fid].carrier.None? && OnlyAt(t, t', fid)
  {
  }

  /** A request that is carried out leaves the flag as it was asked for and every other one
      as it was, in every consistent table. */
  lemma SetFlagStores(t: Table, fid: nat, nfi: FlagInfo)
    requires Consistent(t) && Valid(fid, nfi)
    ensures var t' := SetFlag(t, fid, nfi);
            fid < |t'.fis| && Becomes(t, nfi, FlagOf(t, fid), t'.fis[fid]) && OnlyAt(t, t', fid)
  {
    SpaceKeepsFlags(t, fid + 1);
    var t1 := EnsureSpace(t, fid + 1);
    assert t1.fis[fid] == FlagOf(t, fid) && WellFormed(FlagOf(t, fid));
    if t1.fis[fid].state.Carried? {
      if nfi.carrier != t1.fis[fid].carrier {
        UnhandStores(t1, fid);
        PlaceStores(Unhand(t1, fid), fid, nfi);
      }
    } else {
      PlaceStores(t1, fid, nfi);
    }
  }

  /** Any other request changes no flag, tells nobody, and counts nothing. */
  lemma SetFlagRefuses(t: Table, fid: int, nfi: FlagInfo)
    requires !Valid(fid, nfi)
    ensures var t' := SetFlag(t, fid, nfi);
            t' == t.(fis := t'.fis) && forall f: nat :: FlagOf(t', f) == FlagOf(t, f)
  {
    if 0 <= fid < MAXFLAGS { SpaceKeepsFlags(t, fid + 1); }
  }

  // -------------------------------------------------------- what clients see

  /** The flag as a client should see it that was asked for. */
  function AskedFor(nfi: FlagInfo): Seen
    requires nfi.state.Carried? ==> nfi.carrier.Some?
  {
    match nfi.state
    case Missing => Absent
    case Carried => HeldBy(nfi.carrier.value)
    case OnMap => if nfi.x == -1 && nfi.y == -1 && nfi.freq == -1 then Absent else At(nfi.x, nfi.y, nfi.freq)
  }

  lemma BecomesSeen(t: Table, nfi: FlagInfo, was: FlagInfo, now: FlagInfo)
    requires Becomes(t, nfi, was, now)
    ensures Shown(now) == AskedFor(nfi)
  {
  }

  lemma ServerIs(t: Table, f: nat)
    ensures Server(t.fis, f) == Shown(FlagOf(t, f))
  {
  }

  /** A client that agreed before sees the flag where it was asked for, with the carrier it
      was asked for, or gone, and every other flag as before. */
  lemma SetFlagSeen(v: View, t: Table, fid: nat, nfi: FlagInfo)
    requires Consistent(t) && Agrees(v, t) && Valid(fid, nfi)
    ensures var t' := SetFlag(t, fid, nfi);
            && Look(Replay(v, t'.out), fid) == AskedFor(nfi)
            && forall f: nat | f != fid :: Look(Replay(v, t'.out), f) == Look(Replay(v, t.out), f)
  {
    var t' := SetFlag(t, fid, nfi);
    SetFlagAgrees(v, t, fid, nfi);
    SetFlagStores(t, fid, nfi);
    BecomesSeen(t, nfi, FlagOf(t, fid), t'.fis[fid]);
    assert Look(Replay(v, t'.out), fid) == Server(t'.fis, fid);
    forall f: nat | f != fid ensures Look(Replay(v, t'.out), f) == Look(Replay(v, t.out), f) {
      ServerIs(t, f);
      ServerIs(t', f);
      assert FlagOf(t', f) == FlagOf(t, f);
    }
  }

  /** The packet the request ends with, unless nothing had to be told. */
  function LastWord(fid: nat, nfi: FlagInfo): Packet
    requires nfi.state.Carried? ==> nfi.carrier.Some?
  {
    match nfi.state
    case Missing => Location(fid, -1, -1, -1)
    case Carried => Pickup(fid, nfi.carrier.value)
    case OnMap => Location(fid, nfi.x, nfi.y, nfi.freq)
  }

  /** The last packet says where the flag is now; nothing is sent about a missing flag that
      stays missing, or a carried one that stays with its carrier; and a carrier who loses
      it drops everything first. */
  lemma SetFlagTells(t: Table, fid: nat, nfi: FlagInfo)
    requires Consistent(t) && Valid(fid, nfi)
    ensures var was, out, out' := FlagOf(t, fid), t.out, SetFlag(t, fid, nfi).out;
            && out <= out'
            && (nfi.state.OnMap? || (nfi.state.Carried? && nfi.carrier != was.carrier)
                || (nfi.state.Missing? && was.state.OnMap?) ==>
                  |out'| > |out| && out'[|out'| - 1] == LastWord(fid, nfi))
            && ((nfi.state.Carried? && nfi.carrier == was.carrier) || (nfi.state.Missing? && was.state.Missing?) ==> out' == out)
            && (was.state.Carried? && nfi.carrier != was.carrier ==>
                  |out'| > |out| && was.carrier.Some? && out'[|out|] == Drop(was.carrier.value))
  {
    SpaceKeepsFlags(t, fid + 1);
    var t1 := EnsureSpace(t, fid + 1);
    assert t1.fis[fid] == FlagOf(t, fid) && WellFormed(FlagOf(t, fid)) && t1.out == t.out;
  }

  // ------------------------------------------------------------ whole calls

  lemma {:induction false} SetFlagsElsewhere(t: Table, fid: nat, fis: seq<FlagInfo>, f: nat)
    requires Consistent(t) && !(fid <= f < fid + |fis|)
    ensures FlagOf(SetFlags(t, fid, fis), f) == FlagOf(t, f) && SetFlags(t, fid, fis).freqs == t.freqs
    decreases |fis|
  {
    if fis != [] {
      SetFlagConsistent(t, fid, fis[0]);
      OneElsewhere(t, fid, fis[0], f);
      SetFlagsElsewhere(SetFlag(t, fid, fis[0]), fid + 1, fis[1..], f);
    }
  }

  lemma OneElsewhere(t: Table, fid: nat, nfi: FlagInfo, f: nat)
    requires Consistent(t) && f != fid
    ensures FlagOf(SetFlag(t, fid, nfi), f) == FlagOf(t, f) && SetFlag(t, fid, nfi).freqs == t.freqs
  {
    if Valid(fid, nfi) { SetFlagStores(t, fid, nfi); } else { SetFlagRefuses(t, fid, nfi); }
  }

  /** A SetFlags call leaves each of its flags as the one request for it asked. */
  lemma {:induction false} SetFlagsStores(t: Table, fid: nat, fis: seq<FlagInfo>, k: nat)
    requires Consistent(t) && k < |fis| && Valid(fid + k, fis[k])
    ensures Becomes(t, fis[k], FlagOf(t, fid + k), FlagOf(SetFlags(t, fid, fis), fid + k))
    decreases |fis|
  {
    var t1 := SetFlag(t, fid, fis[0]);
    SetFlagConsistent(t, fid, fis[0]);
    if k == 0 {
      SetFlagStores(t, fid, fis[0]);
      SetFlagsElsewhere(t1, fid + 1, fis[1..], fid);
    } else {
      OneElsewhere(t, fid, fis[0], fid + k);
      SetFlagsStores(t1, fid + 1, fis[1..], k - 1);
      SameFreqs(t, t1, fis[k], FlagOf(t, fid + k), FlagOf(SetFlags(t, fid, fis), fid + k));
    }
  }

  lemma SameFreqs(t: Table, t1: Table, nfi: FlagInfo, was: FlagInfo, now: FlagInfo)
    requires t1.freqs == t.freqs && Becomes(t1, nfi, was, now)
    ensures Becomes(t, nfi, was, now)
  {
  }

  /** And a client that agreed before sees just that. */
  lemma SetFlagsSeen(v: View, t: Table, fid: nat, fis: seq<FlagInfo>, k: nat)
    requires Consistent(t) && Agrees(v, t) && k < |fis| && Valid(fid + k, fis[k])
    ensures Look(Replay(v, SetFlags(t, fid, fis).out), fid + k) == AskedFor(fis[k])
  {
    var t' := SetFlags(t, fid, fis);
    SetFlagsStores(t, fid, fis, k);
    SetFlagsAgrees(v, t, fid, fis);
    BecomesSeen(t, fis[k], FlagOf(t, fid + k), FlagOf(t', fid + k));
    ServerIs(t', fid + k);
    assert Look(Replay(v, t'.out), fid + k) == Server(t'.fis, fid + k);
  }
}
