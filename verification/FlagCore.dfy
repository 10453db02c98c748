/** flagcore.c's operations as they update an arena's flag array in place, each proved
    to do to it what the table operations say. */
module FlagCore {
  import opened Options
  import opened Flags

  class FlagGame {
    var fis: array<FlagInfo>
    var carrying: map<PlayerId, int>
    var freqs: map<PlayerId, int>
    var out: seq<Packet>

    function Snapshot(): Table
      reads this, fis
    {
      Table(fis[..], carrying, freqs, out)
    }

    constructor ()
      ensures Snapshot() == Table([], map[], map[], []) && fresh(fis)
    {
      fis := new FlagInfo[0];
      carrying, freqs, out := map[], map[], [];
    }

    method SetCount(p: PlayerId, n: int)
      modifies this`carrying
      ensures carrying == old(carrying)[p := n]
    {
      carrying := carrying[p := n];
    }

    method Send(pkt: Packet)
      modifies this`out
      ensures out == old(out) + [pkt]
    {
      out := out + [pkt];
    }

    /** ensure_space: a longer copy of the array, zeroed at the end. */
    method GrowTo(wanted: nat)
      modifies this`fis
      ensures Snapshot() == EnsureSpace(old(Snapshot()), wanted)
      ensures fis == old(fis) || fresh(fis)
    {
      if fis.Length < wanted {
        var src := fis;
        var bigger := new FlagInfo[wanted](_ => BLANK_FLAG);
        for i := 0 to src.Length
          invariant fis == src && src[..] == old(fis[..])
          invariant forall j | 0 <= j < wanted :: bigger[j] == if j < i then src[j] else BLANK_FLAG
        {
          bigger[i] := src[i];
        }
        assert bigger[..] == old(fis[..]) + seq(wanted - src.Length, _ => BLANK_FLAG);
        fis := bigger;
      }
    }

    /** The carried case of set_flag: drop everything the carrier has, then pick up again
        what he keeps. */
    method TakeFromCarrier(fid: nat)
      requires fid < fis.Length && fis[fid].carrier.Some?
      modifies this`carrying, this`out, fis
      ensures Snapshot() == Unhand(old(Snapshot()), fid)
    {
      var carrier := fis[fid].carrier.value;
      ghost var final := Unhand(Snapshot(), fid);
      Send(Drop(carrier));
      SetCount(carrier, 0);
      fis[fid] := fis[fid].(state := Missing, carrier := None, freq := -1);
      assert fis[..] == final.fis;
      for i := 0 to fis.Length
        invariant fis[..] == final.fis
        invariant out + Repicked(fis[..], carrier, i) == final.out
        invariant carrying == old(carrying)[carrier := Held(fis[..], carrier, i)]
      {
        if fis[i].state.Carried? && fis[i].carrier == Some(carrier) {
          assert out + ([Pickup(i, carrier)] + Repicked(fis[..], carrier, i + 1))
              == out + [Pickup(i, carrier)] + Repicked(fis[..], carrier, i + 1);
          Send(Pickup(i, carrier));
          SetCount(carrier, (if carrier in carrying then carrying[carrier] else 0) + 1);
        }
      }
      assert out + Repicked(fis[..], carrier, |fis[..]|) == out;
    }

    /** The rest of set_flag, for a flag nobody carries. */
    method PutDown(fid: nat, nfi: FlagInfo)
      requires fid < fis.Length
      modifies this`carrying, this`out, fis
      ensures Snapshot() == Place(old(Snapshot()), fid, nfi)
    {
      var was := fis[fid].state;
      var stored := Stored(Snapshot(), was, nfi);
      match nfi.state {
        case Missing =>
          if was.OnMap? { Send(Location(fid, -1, -1, -1)); }
        case Carried =>
          if nfi.carrier.Some? {
            Send(Pickup(fid, nfi.carrier.value));
            SetCount(nfi.carrier.value, Snapshot().Count(nfi.carrier.value) + 1);
          }
        case OnMap =>
          Send(Location(fid, nfi.x, nfi.y, nfi.freq));
      }
      fis[fid] := stored;
    }

    method SetOne(fid: int, nfi: FlagInfo)
      modifies this, fis
      ensures Snapshot() == SetFlag(old(Snapshot()), fid, nfi)
      ensures fis == old(fis) || fresh(fis)
    {
      if fid < 0 || fid >= MAXFLAGS { return; }
      GrowTo(fid + 1);
      if (nfi.state.Carried? && nfi.carrier.None?) || (!nfi.state.Carried? && nfi.carrier.Some?) { return; }
      if fis[fid].state.Carried? && fis[fid].carrier.Some? {
        if nfi.carrier == fis[fid].carrier { return; }
        TakeFromCarrier(fid);
      }
      PutDown(fid, nfi);
    }

    method SetMany(fid: int, list: seq<FlagInfo>)
      modifies this, fis
      ensures Snapshot() == SetFlags(old(Snapshot()), fid, list)
      ensures fis == old(fis) || fresh(fis)
    {
      if fid < 0 { return; }
      var i := 0;
      while i < |list|
        invariant 0 <= i <= |list|
        invariant SetFlags(Snapshot(), fid + i, list[i..]) == SetFlags(old(Snapshot()), fid, list)
        invariant fis == old(fis) || fresh(fis)
      {
        assert list[i..][0] == list[i] && list[i..][1..] == list[i + 1..];
        SetOne(fid + i, list[i]);
        i := i + 1;
      }
    }

    method Apply(requests: seq<Request>)
      modifies this, fis
      ensures Snapshot() == SetAll(old(Snapshot()), requests)
      ensures fis == old(fis) || fresh(fis)
    {
      var i := 0;
      while i < |requests|
        invariant 0 <= i <= |requests|
        invariant SetAll(Snapshot(), requests[i..]) == SetAll(old(Snapshot()), requests)
        invariant fis == old(fis) || fresh(fis)
      {
        assert requests[i..][0] == requests[i] && requests[i..][1..] == requests[i + 1..];
        SetMany(requests[i].fid, requests[i].fis);
        i := i + 1;
      }
    }

    method Lose(i: nat, p: PlayerId)
      requires i < fis.Length
      modifies this`carrying, fis
      ensures Snapshot() == Lost(old(Snapshot()), i, p)
    {
      fis[i] := fis[i].(state := Missing, carrier := None);
      SetCount(p, Snapshot().Count(p) - 1);
    }

    /** cleanup: the array may grow and change under the loop, because the handler calls
        back into SetFlags. */
    method CleanUp(p: PlayerId, reason: Reason, h: Handler)
      requires fis.Length <= MAXFLAGS
      modifies this, fis
      ensures Snapshot() == Cleanup(old(Snapshot()), p, reason, h, 0)
      ensures fis == old(fis) || fresh(fis)
    {
      var i := 0;
      while i < fis.Length && i < MAXFLAGS
        invariant 0 <= i
        invariant Cleanup(Snapshot(), p, reason, h, i) == Cleanup(old(Snapshot()), p, reason, h, 0)
        invariant fis == old(fis) || fresh(fis)
        decreases MAXFLAGS - i
      {
        if fis[i].state.Carried? && fis[i].carrier == Some(p) {
          Lose(i, p);
          Apply(h(Snapshot(), i, reason, p, fis[i].freq));
        }
        i := i + 1;
      }
    }

    /** p_flagtimer. */
    method DropPacket(p: PlayerId, inSafeZone: bool, h: Handler)
      requires fis.Length <= MAXFLAGS
      modifies this, fis
      ensures Snapshot() == DropFlags(old(Snapshot()), p, if inSafeZone then InSafe else Dropped, h)
      ensures fis == old(fis) || fresh(fis)
    {
      Send(Drop(p));
      CleanUp(p, if inSafeZone then InSafe else Dropped, h);
    }

    method GiveTo(i: nat, killer: PlayerId, victim: PlayerId)
      requires i < fis.Length
      modifies this`carrying, fis
      ensures Snapshot() == Transferred(old(Snapshot()), i, killer, victim)
    {
      SetCount(killer, Snapshot().Count(killer) + 1);
      SetCount(victim, Snapshot().Count(victim) - 1);
      fis[i] := fis[i].(carrier := Some(killer), freq := Snapshot().FreqOf(killer));
    }

    /** mykill's first loop. */
    method TransferAll(killer: PlayerId, victim: PlayerId, limit: int, fake: bool, h: Handler) returns (overflow: bool)
      requires fis.Length <= MAXFLAGS
      modifies this, fis
      ensures (Snapshot(), overflow) == Transfer(old(Snapshot()), killer, victim, limit, fake, h, 0)
      ensures fis == old(fis) || fresh(fis)
    {
      overflow := false;
      ghost var final := Transfer(Snapshot(), killer, victim, limit, fake, h, 0);
      var i := 0;
      while i < fis.Length && i < MAXFLAGS
        invariant 0 <= i
        invariant Transfer(Snapshot(), killer, victim, limit, fake, h, i).0 == final.0
        invariant (overflow || Transfer(Snapshot(), killer, victim, limit, fake, h, i).1) == final.1
        invariant fis == old(fis) || fresh(fis)
        decreases MAXFLAGS - i
      {
        if fis[i].state.Carried? && fis[i].carrier == Some(victim) {
          if Snapshot().Count(killer) < limit {
            var before := Snapshot();
            GiveTo(i, killer, victim);
            var reason := if fake then KillFake
                          else if before.FreqOf(killer) == before.FreqOf(victim) then KillTeam else KillNormal;
            Apply(h(Snapshot(), i, reason, victim, before.FreqOf(victim)));
          } else {
            overflow := true;
          }
        }
        i := i + 1;
      }
    }

    /** mykill's second loop. */
    method HandleOverflow(killer: PlayerId, victim: PlayerId, h: Handler)
      requires fis.Length <= MAXFLAGS
      modifies this, fis
      ensures Snapshot() == Overflow(old(Snapshot()), killer, victim, h, 0)
      ensures fis == old(fis) || fresh(fis)
    {
      var i := 0;
      while i < fis.Length && i < MAXFLAGS
        invariant 0 <= i
        invariant Overflow(Snapshot(), killer, victim, h, i) == Overflow(old(Snapshot()), killer, victim, h, 0)
        invariant fis == old(fis) || fresh(fis)
        decreases MAXFLAGS - i
      {
        if fis[i].state.Carried? {
          if fis[i].carrier == Some(killer) {
            Send(Pickup(i, killer));
          } else if fis[i].carrier == Some(victim) {
            var freq := Snapshot().FreqOf(victim);
            Lose(i, victim);
            Apply(h(Snapshot(), i, KillCantCarry, victim, freq));
          }
        }
        i := i + 1;
      }
    }

    /** mykill. */
    method MyKill(killer: PlayerId, victim: PlayerId, limit: int, fake: bool, h: Handler)
      requires fis.Length <= MAXFLAGS
      modifies this, fis
      ensures Snapshot() == Kill(old(Snapshot()), killer, victim, limit, fake, h)
    {
      if Snapshot().Count(victim) == 0 { return; }
      ghost var before := Snapshot();
      var overflow := TransferAll(killer, victim, limit, fake, h);
      if overflow {
        Send(Drop(killer));
        TransferSpace(before, killer, victim, limit, fake, h, 0);
        HandleOverflow(killer, victim, h);
      }
    }

    /** FlagReset in a carry game. */
    method ResetAll()
      modifies this`carrying, this`out, fis
      ensures Snapshot() == FlagReset(old(Snapshot()))
    {
      for i := 0 to fis.Length
        invariant ResetFrom(Snapshot(), i) == ResetFrom(old(Snapshot()), 0)
      {
        var carrier := fis[i].carrier;
        if carrier.Some? { SetCount(carrier.value, Snapshot().Count(carrier.value) - 1); }
        fis[i] := fis[i].(state := Missing, carrier := None, freq := -1);
      }
      Send(Victory);
    }
  }

  lemma {:induction false} SetFlagsSpace(t: Table, fid: int, fis: seq<FlagInfo>)
    requires |t.fis| <= MAXFLAGS
    ensures |SetFlags(t, fid, fis).fis| <= MAXFLAGS
    decreases |fis|
  {
    if fid >= 0 && fis != [] { SetFlagsSpace(SetFlag(t, fid, fis[0]), fid + 1, fis[1..]); }
  }

  lemma {:induction false} SetAllSpace(t: Table, requests: seq<Request>)
    requires |t.fis| <= MAXFLAGS
    ensures |SetAll(t, requests).fis| <= MAXFLAGS
    decreases |requests|
  {
    if requests != [] {
      SetFlagsSpace(t, requests[0].fid, requests[0].fis);
      SetAllSpace(SetFlags(t, requests[0].fid, requests[0].fis), requests[1..]);
    }
  }

  lemma {:induction false} TransferSpace(
      t: Table, killer: PlayerId, victim: PlayerId, limit: int, fake: bool, h: Handler, i: nat)
    requires |t.fis| <= MAXFLAGS
    ensures |Transfer(t, killer, victim, limit, fake, h, i).0.fis| <= MAXFLAGS
    decreases MAXFLAGS - i
  {
    if i >= |t.fis| || i >= MAXFLAGS {
    } else if CarriedBy(t.fis[i], victim) && t.Count(killer) < limit {
      var t1 := Transferred(t, i, killer, victim);
      var requests := h(t1, i, KillReason(t, killer, victim, fake), victim, t.FreqOf(victim));
      SetAllSpace(t1, requests);
      TransferSpace(SetAll(t1, requests), killer, victim, limit, fake, h, i + 1);
    } else {
      TransferSpace(t, killer, victim, limit, fake, h, i + 1);
    }
  }
}
