/** What a client makes of the packets, and that it ends up seeing the server's table. */
module FlagClients {
  import opened Options
  import opened Flags
  import opened FlagCounts

  datatype Seen = Absent | HeldBy(player: PlayerId) | At(x: int, y: int, freq: int)

  type View = map<nat, Seen>

  function Look(v: View, fid: nat): Seen { if fid in v then v[fid] else Absent }

  /** A flag moved outside the playable area is how a flag is removed from the map. */
  function Where(x: int, y: int, freq: int): Seen {
    if x == -1 && y == -1 && freq == -1 then Absent else At(x, y, freq)
  }

  /** The client rules: a drop empties a carrier, a pickup assigns a flag, a location
      places it, a victory clears the board, and a kill moves the victim's flags. */
  function React(v: View, pkt: Packet): View {
    match pkt
    case Drop(p) => map f | f in v :: if v[f] == HeldBy(p) then Absent else v[f]
    case Pickup(f, p) => v[f := HeldBy(p)]
    case Location(f, x, y, freq) => v[f := Where(x, y, freq)]
    case Victory => map[]
    case Killed(killer, victim) => map f | f in v :: if v[f] == HeldBy(victim) then HeldBy(killer) else v[f]
  }

  function Replay(v: View, pkts: seq<Packet>): View {
    if pkts == [] then v else React(Replay(v, pkts[..|pkts| - 1]), pkts[|pkts| - 1])
  }

  /** How a flag of the server's table looks to a client that knows about it. */
  function Shown(fi: FlagInfo): Seen {
    match fi.state
    case Missing => Absent
    case Carried => if fi.carrier.Some? then HeldBy(fi.carrier.value) else Absent
    case OnMap => Where(fi.x, fi.y, fi.freq)
  }

  function Server(fis: seq<FlagInfo>, f: nat): Seen { if f < |fis| then Shown(fis[f]) else Absent }

  /** A client that starts from v and has replayed every packet agrees with the server. */
  ghost predicate Agrees(v: View, t: Table) {
    forall f: nat :: Look(Replay(v, t.out), f) == Server(t.fis, f)
  }

  lemma ReplayOne(v: View, out: seq<Packet>, pkt: Packet)
    ensures Replay(v, out + [pkt]) == React(Replay(v, out), pkt)
  {
  }

  lemma {:induction false} ReplayMore(v: View, out: seq<Packet>, more: seq<Packet>)
    ensures Replay(v, out + more) == Replay(Replay(v, out), more)
    decreases |more|
  {
    if more == [] {
      assert out + more == out;
    } else {
      var less := more[..|more| - 1];
      ReplayMore(v, out, less);
      assert (out + more)[..|out + more| - 1] == out + less;
    }
  }

  lemma ReactLook(v: View, pkt: Packet, f: nat)
    ensures Look(React(v, pkt), f) ==
            match pkt
            case Drop(p) => if Look(v, f) == HeldBy(p) then Absent else Look(v, f)
            case Pickup(g, p) => if f == g then HeldBy(p) else Look(v, f)
            case Location(g, x, y, freq) => if f == g then Where(x, y, freq) else Look(v, f)
            case Victory => Absent
            case Killed(killer, victim) => if Look(v, f) == HeldBy(victim) then HeldBy(killer) else Look(v, f)
  {
  }

  lemma PickupFirst(v: View, fid: nat, p: PlayerId, rest: seq<Packet>)
    ensures Replay(v, [Pickup(fid, p)] + rest) == Replay(React(v, Pickup(fid, p)), rest)
  {
    ReplayMore(v, [Pickup(fid, p)], rest);
    ReplayOne(v, [], Pickup(fid, p));
    assert [] + [Pickup(fid, p)] == [Pickup(fid, p)];
  }

  /** Picking up what is left gives the player exactly the flags he carries. */
  lemma {:induction false} RepickedLook(v: View, fis: seq<FlagInfo>, p: PlayerId, i: nat, f: nat)
    ensures Look(Replay(v, Repicked(fis, p, i)), f)
            == if i <= f < |fis| && CarriedBy(fis[f], p) then HeldBy(p) else Look(v, f)
    decreases |fis| - i
  {
    if i < |fis| {
      if CarriedBy(fis[i], p) {
        PickupFirst(v, i, p, Repicked(fis, p, i + 1));
        ReactLook(v, Pickup(i, p), f);
        RepickedLook(React(v, Pickup(i, p)), fis, p, i + 1, f);
      } else {
        RepickedLook(v, fis, p, i + 1, f);
      }
    }
  }

  // -------------------------------------------------------------- set_flag

  lemma SpaceAgrees(v: View, t: Table, wanted: nat)
    requires Agrees(v, t)
    ensures Agrees(v, EnsureSpace(t, wanted))
  {
  }

  /** Flag fid has become fi; the clients see that, if they were told, and no other flag
      looks different to them. */
  ghost predicate PutSeen(w: View, w': View, fid: nat, fi: FlagInfo, told: bool) {
    && (forall f: nat | f != fid :: Look(w', f) == Look(w, f))
    && (if told then Look(w', fid) == Shown(fi) else w' == w && fi.state.Missing?)
  }

  /** Everything of c's was dropped and what `fis` says he has was picked up again. */
  ghost predicate RetakenSeen(w: View, w': View, fis: seq<FlagInfo>, c: PlayerId) {
    forall f: nat :: Look(w', f) == if f < |fis| && CarriedBy(fis[f], c) then HeldBy(c)
                                    else if Look(w, f) == HeldBy(c) then Absent else Look(w, f)
  }

  /** Whether putting a flag down is told to the clients. */
  predicate Told(was: FlagState, nfi: FlagInfo) { was.OnMap? || !nfi.state.Missing? }

  lemma UnhandRetakes(v: View, t: Table, fid: nat)
    requires fid < |t.fis| && t.fis[fid].carrier.Some?
    ensures RetakenSeen(Replay(v, t.out), Replay(v, Unhand(t, fid).out), Unhand(t, fid).fis, t.fis[fid].carrier.value)
  {
    var c, fis, w := t.fis[fid].carrier.value, Unhand(t, fid).fis, Replay(v, t.out);
    ReplayOne(v, t.out, Drop(c));
    ReplayMore(v, t.out + [Drop(c)], Repicked(fis, c, 0));
    forall f: nat
      ensures Look(Replay(React(w, Drop(c)), Repicked(fis, c, 0)), f)
              == if f < |fis| && CarriedBy(fis[f], c) then HeldBy(c)
                 else if Look(w, f) == HeldBy(c) then Absent else Look(w, f)
    {
      ReactLook(w, Drop(c), f);
      RepickedLook(React(w, Drop(c)), fis, c, 0, f);
    }
  }

  lemma UnhandChanges(t: Table, fid: nat)
    requires fid < |t.fis| && t.fis[fid].carrier.Some?
    ensures |Unhand(t, fid).fis| == |t.fis| && Unhand(t, fid).fis[fid].state.Missing?
    ensures Unhand(t, fid).fis[fid].carrier.None? && Unhand(t, fid).fis == t.fis[fid := Unhand(t, fid).fis[fid]]
  {
  }

  lemma PacketPuts(v: View, out: seq<Packet>, pkt: Packet, fid: nat, fi: FlagInfo)
    requires || (pkt == Location(fid, -1, -1, -1) && fi.state.Missing?)
             || (pkt == Location(fid, fi.x, fi.y, fi.freq) && fi.state.OnMap?)
             || (fi.carrier.Some? && pkt == Pickup(fid, fi.carrier.value) && fi.state.Carried?)
    ensures PutSeen(Replay(v, out), Replay(v, out + [pkt]), fid, fi, true)
  {
    ReplayOne(v, out, pkt);
    forall f: nat
      ensures Look(React(Replay(v, out), pkt), f) == if f == fid then Shown(fi) else Look(Replay(v, out), f)
    {
      ReactLook(Replay(v, out), pkt, f);
    }
  }

  /** Setting a flag nobody carries. */
  lemma PlacePuts(v: View, t: Table, fid: nat, nfi: FlagInfo)
    requires fid < |t.fis| && WellFormed(nfi)
    ensures PutSeen(Replay(v, t.out), Replay(v, Place(t, fid, nfi).out), fid, Place(t, fid, nfi).fis[fid],
                    Told(t.fis[fid].state, nfi))
  {
    var fi := Place(t, fid, nfi).fis[fid];
    match nfi.state
    case Missing => if t.fis[fid].state.OnMap? { PacketPuts(v, t.out, Location(fid, -1, -1, -1), fid, fi); }
    case Carried => PacketPuts(v, t.out, Pickup(fid, nfi.carrier.value), fid, fi);
    case OnMap => PacketPuts(v, t.out, Location(fid, nfi.x, nfi.y, nfi.freq), fid, fi);
  }

  lemma PlaceChanges(t: Table, fid: nat, nfi: FlagInfo)
    requires fid < |t.fis|
    ensures |Place(t, fid, nfi).fis| == |t.fis| && Place(t, fid, nfi).fis == t.fis[fid := Place(t, fid, nfi).fis[fid]]
    ensures Place(t, fid, nfi).fis[fid].carrier == nfi.carrier && Place(t, fid, nfi).fis[fid].state == nfi.state
    ensures Place(t, fid, nfi).freqs == t.freqs
  {
  }

  /** What is seen stays right when it is changed in one of these ways. */
  lemma PutStaysRight(w: View, w': View, fis: seq<FlagInfo>, fid: nat, fi: FlagInfo, told: bool)
    requires fid < |fis| && PutSeen(w, w', fid, fi, told) && (!told ==> fis[fid].state.Missing?)
    requires forall f: nat :: Look(w, f) == Server(fis, f)
    ensures forall f: nat :: Look(w', f) == Server(fis[fid := fi], f)
  {
  }

  lemma RetakenStaysRight(w: View, w': View, fis: seq<FlagInfo>, fid: nat, fi: FlagInfo, c: PlayerId)
    requires fid < |fis| && CarriedBy(fis[fid], c) && fi.state.Missing? && RetakenSeen(w, w', fis[fid := fi], c)
    requires forall f | 0 <= f < |fis| :: WellFormed(fis[f])
    requires forall f: nat :: Look(w, f) == Server(fis, f)
    ensures forall f: nat :: Look(w', f) == Server(fis[fid := fi], f)
  {
    forall f: nat ensures Look(w', f) == Server(fis[fid := fi], f) {
      assert Look(w, f) == Server(fis, f);
      assert f < |fis| ==> WellFormed(fis[f]);
    }
  }

  /** The drop-all-and-pick-up-again dance leaves every other flag as it was and the one
      flag gone. */
  lemma UnhandAgrees(v: View, t: Table, fid: nat)
    requires Consistent(t) && fid < |t.fis| && t.fis[fid].carrier.Some?
    requires Agrees(v, t)
    ensures Agrees(v, Unhand(t, fid))
  {
    assert WellFormed(t.fis[fid]);
    UnhandRetakes(v, t, fid);
    UnhandChanges(t, fid);
    RetakenStaysRight(Replay(v, t.out), Replay(v, Unhand(t, fid).out), t.fis, fid, Unhand(t, fid).fis[fid],
                      t.fis[fid].carrier.value);
  }

  lemma PlaceAgrees(v: View, t: Table, fid: nat, nfi: FlagInfo)
    requires fid < |t.fis| && !t.fis[fid].state.Carried? && WellFormed(nfi)
    requires Agrees(v, t)
    ensures Agrees(v, Place(t, fid, nfi))
  {
    PlacePuts(v, t, fid, nfi);
    PlaceChanges(t, fid, nfi);
    PutStaysRight(Replay(v, t.out), Replay(v, Place(t, fid, nfi).out), t.fis, fid, Place(t, fid, nfi).fis[fid],
                  Told(t.fis[fid].state, nfi));
  }

  lemma SetFlagAgrees(v: View, t: Table, fid: int, nfi: FlagInfo)
    requires Consistent(t) && Agrees(v, t)
    ensures Agrees(v, SetFlag(t, fid, nfi))
  {
    if 0 <= fid < MAXFLAGS {
      SpaceAgrees(v, t, fid + 1);
      SpaceConsistent(t, fid + 1);
      var t1 := EnsureSpace(t, fid + 1);
      assert WellFormed(t1.fis[fid]);
      if WellFormed(nfi) {
        if !t1.fis[fid].state.Carried? {
          PlaceAgrees(v, t1, fid, nfi);
        } else if nfi.carrier != t1.fis[fid].carrier {
          UnhandAgrees(v, t1, fid);
          PlaceAgrees(v, Unhand(t1, fid), fid, nfi);
        }
      }
    }
  }

  lemma {:induction false} SetFlagsAgrees(v: View, t: Table, fid: int, fis: seq<FlagInfo>)
    requires Consistent(t) && Agrees(v, t)
    ensures Agrees(v, SetFlags(t, fid, fis))
    decreases |fis|
  {
    if fid >= 0 && fis != [] {
      SetFlagAgrees(v, t, fid, fis[0]);
      SetFlagConsistent(t, fid, fis[0]);
      SetFlagsAgrees(v, SetFlag(t, fid, fis[0]), fid + 1, fis[1..]);
    }
  }

  lemma {:induction false} ResetMissing(t: Table, i: nat)
    ensures ResetFrom(t, i).out == t.out && |ResetFrom(t, i).fis| == |t.fis|
    ensures forall j | 0 <= j < |t.fis| :: if j < i then ResetFrom(t, i).fis[j] == t.fis[j]
                                           else ResetFrom(t, i).fis[j].state.Missing?
    decreases |t.fis| - i
  {
    if i < |t.fis| {
      var fi := t.fis[i];
      var t1 := if fi.carrier.Some? then t.WithCount(fi.carrier.value, t.Count(fi.carrier.value) - 1) else t;
      ResetMissing(t1.WithFlag(i, fi.(state := Missing, carrier := None, freq := -1)), i + 1);
    }
  }

  lemma FlagResetAgrees(v: View, t: Table)
    ensures Agrees(v, FlagReset(t))
  {
    ResetMissing(t, 0);
    ReplayOne(v, ResetFrom(t, 0).out, Victory);
  }
}
