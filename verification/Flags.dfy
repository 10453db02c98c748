/** The flag table of one carry game (flagcore.c): who carries which flag, how many
    flags each player carries, and the packets the clients are sent. */
module Flags {
  import opened Options

  type PlayerId = nat

  const MAXFLAGS := 255

  datatype FlagState = Missing | Carried | OnMap

  datatype FlagInfo = FlagInfo(state: FlagState, carrier: Option<PlayerId>, x: int, y: int, freq: int)

  const BLANK_FLAG := FlagInfo(Missing, None, 0, 0, 0)

  /** What the clients are told. `Killed` is the kill packet game.c sends before it
      calls the kill callbacks. */
  datatype Packet =
    | Drop(player: PlayerId)
    | Pickup(fid: nat, player: PlayerId)
    | Location(fid: nat, x: int, y: int, freq: int)
    | Victory
    | Killed(killer: PlayerId, victim: PlayerId)

  datatype Reason =
    | Dropped | InSafe | ShipChange | FreqChange | LeftArena
    | KillNormal | KillTeam | KillCantCarry | KillFake

  /** `carrying` is every player's pkt.flagscarried and `freqs` his p_freq; a player
      without an entry has 0. */
  datatype Table = Table(fis: seq<FlagInfo>, carrying: map<PlayerId, int>, freqs: map<PlayerId, int>, out: seq<Packet>) {
    function Count(p: PlayerId): int { if p in carrying then carrying[p] else 0 }

    function FreqOf(p: PlayerId): int { if p in freqs then freqs[p] else 0 }

    function WithCount(p: PlayerId, n: int): Table { this.(carrying := carrying[p := n]) }

    function WithFlag(fid: nat, fi: FlagInfo): Table
      requires fid < |fis|
    {
      this.(fis := fis[fid := fi])
    }

    function Sent(pkt: Packet): Table { this.(out := out + [pkt]) }
  }

  predicate CarriedBy(fi: FlagInfo, p: PlayerId) { fi.state.Carried? && fi.carrier == Some(p) }

  // ------------------------------------------------------------- set_flag

  function EnsureSpace(t: Table, wanted: nat): Table {
    if |t.fis| < wanted then t.(fis := t.fis + seq(wanted - |t.fis|, _ => BLANK_FLAG)) else t
  }

  /** The pickup packets that give a player back what he still carries, from flag i on. */
  function Repicked(fis: seq<FlagInfo>, p: PlayerId, i: nat): seq<Packet>
    decreases |fis| - i
  {
    if i >= |fis| then []
    else if CarriedBy(fis[i], p) then [Pickup(i, p)] + Repicked(fis, p, i + 1)
    else Repicked(fis, p, i + 1)
  }

  /** How many of the first n flags a player carries. */
  function Held(fis: seq<FlagInfo>, p: PlayerId, n: nat): nat
    requires n <= |fis|
  {
    if n == 0 then 0 else Held(fis, p, n - 1) + if CarriedBy(fis[n - 1], p) then 1 else 0
  }

  /** A carried flag cannot be dropped alone: all of the carrier's flags are, and the
      rest are picked up again. */
  function Unhand(t: Table, fid: nat): Table
    requires fid < |t.fis| && t.fis[fid].carrier.Some?
  {
    var c := t.fis[fid].carrier.value;
    var fis := t.fis[fid := t.fis[fid].(state := Missing, carrier := None, freq := -1)];
    t.(fis := fis, out := t.out + [Drop(c)] + Repicked(fis, c, 0)).WithCount(c, Held(fis, c, |fis|))
  }

  /** The request as it will be stored: a carried flag has its carrier's freq, and a flag
      taken off the map has no place and no freq. */
  function Stored(t: Table, was: FlagState, nfi: FlagInfo): FlagInfo {
    if nfi.carrier.Some? then nfi.(freq := t.FreqOf(nfi.carrier.value))
    else if was.OnMap? && nfi.state.Missing? then nfi.(x := -1, y := -1, freq := -1)
    else nfi
  }

  /** Setting a flag nobody carries. */
  function Place(t: Table, fid: nat, nfi: FlagInfo): Table
    requires fid < |t.fis|
  {
    var was := t.fis[fid].state;
    var t1 := t.WithFlag(fid, Stored(t, was, nfi));
    match nfi.state
    case Missing => if was.OnMap? then t1.Sent(Location(fid, -1, -1, -1)) else t1
    case Carried =>
      if nfi.carrier.Some?
      then t1.Sent(Pickup(fid, nfi.carrier.value)).WithCount(nfi.carrier.value, t.Count(nfi.carrier.value) + 1)
      else t1
    case OnMap => t1.Sent(Location(fid, nfi.x, nfi.y, nfi.freq))
  }

  /** A request names a carrier exactly when it asks for a carried flag. */
  predicate WellFormed(nfi: FlagInfo) { nfi.state.Carried? <==> nfi.carrier.Some? }

  function SetFlag(t: Table, fid: int, nfi: FlagInfo): Table {
    if fid < 0 || fid >= MAXFLAGS then t
    else
      var t1 := EnsureSpace(t, fid + 1);
      var ofi := t1.fis[fid];
      if !WellFormed(nfi) then t1
      else if ofi.state.Carried? && ofi.carrier.Some? then
        if nfi.carrier == ofi.carrier then t1 else Place(Unhand(t1, fid), fid, nfi)
      else Place(t1, fid, nfi)
  }

  /** One SetFlags call: consecutive flags from `fid` on. */
  datatype Request = Request(fid: int, fis: seq<FlagInfo>)

  function SetFlags(t: Table, fid: int, fis: seq<FlagInfo>): Table
    decreases |fis|
  {
    if fid < 0 || fis == [] then t else SetFlags(SetFlag(t, fid, fis[0]), fid + 1, fis[1..])
  }

  function SetAll(t: Table, requests: seq<Request>): Table
    decreases |requests|
  {
    if requests == [] then t else SetAll(SetFlags(t, requests[0].fid, requests[0].fis), requests[1..])
  }

  // ------------------------------------------------ operations with Cleanup

  /** The game's Cleanup handler: the SetFlags calls it makes, which may depend on
      everything it can see. */
  type Handler = (Table, nat, Reason, PlayerId, int) -> seq<Request>

  function Lost(t: Table, fid: nat, p: PlayerId): Table
    requires fid < |t.fis|
  {
    t.WithFlag(fid, t.fis[fid].(state := Missing, carrier := None)).WithCount(p, t.Count(p) - 1)
  }

  /** cleanup, from flag i on: the handler may re-enter set_flag after each flag. */
  function Cleanup(t: Table, p: PlayerId, reason: Reason, h: Handler, i: nat): Table
    decreases MAXFLAGS - i
  {
    if i >= |t.fis| || i >= MAXFLAGS then t
    else if CarriedBy(t.fis[i], p) then
      var t1 := Lost(t, i, p);
      Cleanup(SetAll(t1, h(t1, i, reason, p, t1.fis[i].freq)), p, reason, h, i + 1)
    else Cleanup(t, p, reason, h, i + 1)
  }

  /** p_flagtimer: everyone is told of the drop before the flags are cleaned up. */
  function DropFlags(t: Table, p: PlayerId, reason: Reason, h: Handler): Table {
    Cleanup(t.Sent(Drop(p)), p, reason, h, 0)
  }

  /** A freq change is recorded first and the flags are cleaned up afterwards. */
  function ChangeFreq(t: Table, p: PlayerId, freq: int, h: Handler): Table {
    Cleanup(t.(freqs := t.freqs[p := freq]), p, FreqChange, h, 0)
  }

  function KillReason(t: Table, killer: PlayerId, victim: PlayerId, fake: bool): Reason {
    if fake then KillFake else if t.FreqOf(killer) == t.FreqOf(victim) then KillTeam else KillNormal
  }

  function Transferred(t: Table, fid: nat, killer: PlayerId, victim: PlayerId): Table
    requires fid < |t.fis|
  {
    var t1 := t.WithCount(killer, t.Count(killer) + 1);
    t1.WithCount(victim, t1.Count(victim) - 1)
      .WithFlag(fid, t.fis[fid].(carrier := Some(killer), freq := t.FreqOf(killer)))
  }

  /** mykill's first loop, from flag i on; the second result is `overflow`. */
  function Transfer(t: Table, killer: PlayerId, victim: PlayerId, limit: int, fake: bool, h: Handler, i: nat): (Table, bool)
    decreases MAXFLAGS - i
  {
    if i >= |t.fis| || i >= MAXFLAGS then (t, false)
    else if !CarriedBy(t.fis[i], victim) then Transfer(t, killer, victim, limit, fake, h, i + 1)
    else if t.Count(killer) < limit then
      var t1 := Transferred(t, i, killer, victim);
      var t2 := SetAll(t1, h(t1, i, KillReason(t, killer, victim, fake), victim, t.FreqOf(victim)));
      Transfer(t2, killer, victim, limit, fake, h, i + 1)
    else
      var (t', _) := Transfer(t, killer, victim, limit, fake, h, i + 1);
      (t', true)
  }

  /** mykill's second loop: what is the killer's is picked up again, what is still the
      victim's is void. */
  function Overflow(t: Table, killer: PlayerId, victim: PlayerId, h: Handler, i: nat): Table
    decreases MAXFLAGS - i
  {
    if i >= |t.fis| || i >= MAXFLAGS then t
    else if CarriedBy(t.fis[i], killer) then Overflow(t.Sent(Pickup(i, killer)), killer, victim, h, i + 1)
    else if CarriedBy(t.fis[i], victim) then
      var t1 := Lost(t, i, victim);
      Overflow(SetAll(t1, h(t1, i, KillCantCarry, victim, t.FreqOf(victim))), killer, victim, h, i + 1)
    else Overflow(t, killer, victim, h, i + 1)
  }

  /** mykill. `limit` is MAXFLAGS for CARRY_ALL and the carry mode minus one otherwise. */
  function Kill(t: Table, killer: PlayerId, victim: PlayerId, limit: int, fake: bool, h: Handler): Table {
    if t.Count(victim) == 0 then t
    else
      var (t1, overflow) := Transfer(t, killer, victim, limit, fake, h, 0);
      if overflow then Overflow(t1.Sent(Drop(killer)), killer, victim, h, 0) else t1
  }

  /** FlagReset's loop, from flag i on, and FlagReset. */
  function ResetFrom(t: Table, i: nat): Table
    decreases |t.fis| - i
  {
    if i >= |t.fis| then t
    else
      var fi := t.fis[i];
      var t1 := if fi.carrier.Some? then t.WithCount(fi.carrier.value, t.Count(fi.carrier.value) - 1) else t;
      ResetFrom(t1.WithFlag(i, fi.(state := Missing, carrier := None, freq := -1)), i + 1)
  }

  function FlagReset(t: Table): Table { ResetFrom(t, 0).Sent(Victory) }

  /** PA_ENTERARENA: the player starts with a count of zero. */
  function EnterArena(t: Table, p: PlayerId): Table { t.WithCount(p, 0) }
}
