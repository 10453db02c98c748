/** bw_default.c: five cascaded token buckets and the adjustment of their limit. */
module Bandwidth {
  import opened Options

  const PRIORITIES: nat := 5
  const SLICE: int := 125
  const GRANULARITY: int := 8
  const TICKS: int := 0x8000_0000

  datatype Config = Config(
    limitLow: int, limitHigh: int, limitInitial: int, priLimits: seq<nat>, limitScale: int, maxAvail: nat,
    useHitLimit: bool)

  type Buckets = seq<int>

  ghost predicate Within(avail: Buckets, max: int) {
    |avail| == PRIORITIES && forall i | 0 <= i < PRIORITIES :: 0 <= avail[i] <= max
  }

  /** What buckets 0..n-1 hold together. */
  function Sum(s: Buckets, n: nat): int
    requires n <= |s|
    decreases n, s
  {
    if n == 0 then 0 else Sum(s, n - 1) + s[n - 1]
  }

  lemma {:induction false} SumUpdate(s: Buckets, i: nat, v: int, n: nat)
    requires i < |s| && n <= |s|
    ensures Sum(s[i := v], n) == Sum(s, n) + if i < n then v - s[i] else 0
    decreases n
  {
    if n > 0 { SumUpdate(s, i, v, n - 1); }
  }

  lemma {:induction false} SumLeq(s: Buckets, t: Buckets, n: nat)
    requires |s| == |t| && n <= |s| && forall i | 0 <= i < n :: s[i] <= t[i]
    ensures Sum(s, n) <= Sum(t, n)
    decreases n
  {
    if n > 0 { SumLeq(s, t, n - 1); }
  }

  // ------------------------------------------------------------------ Check

  /** Check's loop from bucket n-1 down; None is a refusal. */
  function Drain(avail: Buckets, bytes: int, n: nat): (r: Option<Buckets>)
    requires n <= |avail|
    ensures r.Some? ==> |r.value| == |avail|
    decreases n, avail
  {
    if n == 0 then None
    else if avail[n - 1] >= bytes then Some(avail[n - 1 := avail[n - 1] - bytes])
    else Drain(avail[n - 1 := 0], bytes - avail[n - 1], n - 1)
  }

  /** A request is admitted iff the buckets up to its own hold enough together; then
      exactly that much is removed from them, and no bucket above it is touched. */
  lemma {:induction false} DrainIff(avail: Buckets, bytes: int, n: nat)
    requires n <= |avail| && 0 <= bytes && forall i | 0 <= i < n :: 0 <= avail[i]
    ensures Drain(avail, bytes, n).Some? <==> n > 0 && Sum(avail, n) >= bytes
    ensures Drain(avail, bytes, n).Some? ==>
              var rest := Drain(avail, bytes, n).value;
              && |rest| == |avail| && Sum(rest, n) == Sum(avail, n) - bytes
              && (forall i | 0 <= i < n :: 0 <= rest[i] <= avail[i])
              && (forall i | n <= i < |avail| :: rest[i] == avail[i])
    decreases n
  {
    if n > 0 {
      SumPositive(avail, n - 1);
      if avail[n - 1] >= bytes {
        SumUpdate(avail, n - 1, avail[n - 1] - bytes, n);
      } else {
        var emptied := avail[n - 1 := 0];
        SumUpdate(avail, n - 1, 0, n - 1);
        DrainIff(emptied, bytes - avail[n - 1], n - 1);
        NotEmptyHanded(avail, bytes, n);
      }
    }
  }

  lemma {:induction false} SumPositive(s: Buckets, n: nat)
    requires n <= |s| && forall i | 0 <= i < n :: 0 <= s[i]
    ensures Sum(s, n) >= 0
    decreases n
  {
    if n > 0 { SumPositive(s, n - 1); }
  }

  lemma NotEmptyHanded(avail: Buckets, bytes: int, n: nat)
    requires 0 < n <= |avail| && 0 <= avail[n - 1] < bytes
    ensures Sum(avail, n) >= bytes ==> n - 1 > 0
  {
    assert Sum(avail, n) == Sum(avail, n - 1) + avail[n - 1];
    assert n - 1 == 0 ==> Sum(avail, n - 1) == 0;
  }

  // ------------------------------------------------------------------- Iter

  /** TICK_DIFF: a 31-bit difference read as signed. */
  function TickDiff(a: int, b: int): int {
    var d := (a - b) % TICKS;
    if d >= TICKS / 2 then d - TICKS else d
  }

  /** The one number with the right remainder that is not further off than half the range. */
  lemma TickDiffIs(a: int, b: int)
    ensures -0x4000_0000 <= TickDiff(a, b) < 0x4000_0000 && (a - b - TickDiff(a, b)) % 0x8000_0000 == 0
  {
    var d, q := (a - b) % TICKS, (a - b) / TICKS;
    assert a - b == TICKS * q + d;
    Remainder(a - b - TickDiff(a, b), if d >= TICKS / 2 then q + 1 else q, 0);
  }

  /** How many slices have passed when the difference is d. */
  function Slices(d: int): nat { if d <= SLICE then 0 else (d - 1) / SLICE }

  lemma OneSlice(now: int, since: int)
    requires TickDiff(now, since) > SLICE
    ensures TickDiff(now, (since + SLICE) % TICKS) == TickDiff(now, since) - SLICE
    ensures Slices(TickDiff(now, since)) == Slices(TickDiff(now, since) - SLICE) + 1
  {
    var d := (now - since) % TICKS;
    assert d == TickDiff(now, since) && SLICE < d < TICKS / 2;
    var q, q2 := (now - since) / TICKS, (since + SLICE) / TICKS;
    assert now - since == TICKS * q + d;
    assert since + SLICE == TICKS * q2 + (since + SLICE) % TICKS;
    assert now - (since + SLICE) % TICKS == TICKS * (q + q2) + (d - SLICE);
    Remainder(now - (since + SLICE) % TICKS, q + q2, d - SLICE);
  }

  lemma Remainder(a: int, q: int, r: int)
    requires a == TICKS * q + r && 0 <= r < TICKS
    ensures a % TICKS == r
  {
  }

  /** What the slices are worth to one bucket. */
  function Amount(slices: nat, limit: nat, percent: nat): nat { slices * (limit * percent / 100) / GRANULARITY }

  function Capped(v: int, max: int): int { if v > max then max else v }

  function Refilled(avail: Buckets, slices: nat, limit: nat, c: Config): Buckets
    requires |avail| == PRIORITIES && |c.priLimits| == PRIORITIES
  {
    seq(PRIORITIES, i requires 0 <= i < PRIORITIES =>
      Capped(avail[i] + Amount(slices, limit, c.priLimits[i]), c.maxAvail))
  }

  lemma RefilledWithin(avail: Buckets, slices: nat, limit: nat, c: Config)
    requires Within(avail, c.maxAvail) && |c.priLimits| == PRIORITIES
    ensures Within(Refilled(avail, slices, limit, c), c.maxAvail)
    ensures forall i | 0 <= i < PRIORITIES :: avail[i] <= Refilled(avail, slices, limit, c)[i]
  {
  }

  /** Slices are an eighth of a second long, and one has passed once its time is over. */
  lemma SlicesAre(d: int)
    ensures d > 0 ==> 125 * Slices(d) < d <= 125 * (Slices(d) + 1)
    ensures d <= 0 ==> Slices(d) == 0
  {
    if d > SLICE { assert d - 1 == 125 * ((d - 1) / 125) + (d - 1) % 125; }
  }

  /** What a refill adds to a bucket: of the percentage of the limit that is the bucket's,
      as many eighths as slices have passed, both rounded down, but no more than fits. */
  lemma RefillIs(avail: Buckets, slices: nat, limit: nat, c: Config, i: nat) returns (share: nat, gain: nat)
    requires |avail| == PRIORITIES && |c.priLimits| == PRIORITIES && i < PRIORITIES
    ensures 100 * share <= limit * c.priLimits[i] < 100 * share + 100
    ensures 8 * gain <= slices * share < 8 * gain + 8
    ensures Refilled(avail, slices, limit, c)[i] == if avail[i] + gain <= c.maxAvail then avail[i] + gain else c.maxAvail
  {
    share := limit * c.priLimits[i] / 100;
    gain := slices * share / 8;
  }

  // -------------------------------------------------------------- whole runs

  datatype Event = Refill(slices: nat, limit: nat) | Request(bytes: nat, pri: nat)

  /** The buckets, what has been credited to each, and what has been admitted at each
      priority. */
  datatype Account = Account(avail: Buckets, credited: Buckets, admitted: Buckets)

  const ZEROS: Buckets := [0, 0, 0, 0, 0]

  function Added(s: Buckets, i: nat, v: int): Buckets
    requires i < |s|
  {
    s[i := s[i] + v]
  }

  function Gains(credited: Buckets, before: Buckets, after: Buckets): Buckets
    requires |credited| == |before| == |after|
  {
    seq(|credited|, i requires 0 <= i < |credited| => credited[i] + (after[i] - before[i]))
  }

  ghost predicate Shaped(a: Account) {
    |a.avail| == PRIORITIES && |a.credited| == PRIORITIES && |a.admitted| == PRIORITIES
  }

  function Next(a: Account, e: Event, c: Config): (r: Account)
    requires |a.avail| == PRIORITIES && |a.credited| == PRIORITIES && |a.admitted| == PRIORITIES
    requires |c.priLimits| == PRIORITIES
    ensures |r.avail| == PRIORITIES && |r.credited| == PRIORITIES && |r.admitted| == PRIORITIES
  {
    match e
    case Refill(slices, limit) =>
      var full := Refilled(a.avail, slices, limit, c);
      Account(full, Gains(a.credited, a.avail, full), a.admitted)
    case Request(bytes, pri) =>
      if pri >= PRIORITIES then a
      else
        var rest := Drain(a.avail, bytes, pri + 1);
        if rest.None? then a else Account(rest.value, a.credited, Added(a.admitted, pri, bytes))
  }

  /** What has been admitted up to a priority, and what the buckets up to it still hold,
      has been credited to them. */
  ghost predicate Sound(a: Account, c: Config) {
    && Shaped(a) && Within(a.avail, c.maxAvail)
    && forall n | 0 <= n <= PRIORITIES :: Covered(a, n)
  }

  ghost predicate Covered(a: Account, n: nat)
    requires Shaped(a) && n <= PRIORITIES
  {
    Sum(a.admitted, n) + Sum(a.avail, n) <= Sum(a.credited, n)
  }

  lemma {:induction false} SumGains(credited: Buckets, before: Buckets, after: Buckets, n: nat)
    requires |credited| == |before| == |after| && n <= |credited|
    ensures Sum(Gains(credited, before, after), n) == Sum(credited, n) + Sum(after, n) - Sum(before, n)
    decreases n
  {
    if n > 0 { SumGains(credited, before, after, n - 1); }
  }

  lemma {:induction false} DrainedBelow(avail: Buckets, bytes: int, n: nat, m: nat)
    requires m <= |avail| && n <= |avail| && 0 <= bytes && (forall i | 0 <= i < n :: 0 <= avail[i])
    requires Drain(avail, bytes, n).Some?
    ensures |Drain(avail, bytes, n).value| == |avail|
    ensures Sum(Drain(avail, bytes, n).value, m) <= Sum(avail, m) - if n <= m then bytes else 0
    decreases m
  {
    DrainIff(avail, bytes, n);
    var rest := Drain(avail, bytes, n).value;
    if m < n {
      SumLeq(rest, avail, m);
    } else if m > n {
      DrainedBelow(avail, bytes, n, m - 1);
    }
  }

  lemma NextSound(a: Account, e: Event, c: Config)
    requires Sound(a, c) && |c.priLimits| == PRIORITIES
    ensures Sound(Next(a, e, c), c)
  {
    var b := Next(a, e, c);
    match e
    case Refill(slices, limit) =>
      RefilledWithin(a.avail, slices, limit, c);
      forall n | 0 <= n <= PRIORITIES ensures Covered(b, n) {
        assert Covered(a, n);
        SumGains(a.credited, a.avail, b.avail, n);
      }
    case Request(bytes, pri) =>
      if pri < PRIORITIES && Drain(a.avail, bytes, pri + 1).Some? {
        DrainIff(a.avail, bytes, pri + 1);
        forall n | 0 <= n <= PRIORITIES ensures Covered(b, n) {
          assert Covered(a, n);
          DrainedBelow(a.avail, bytes, pri + 1, n);
          SumUpdate(a.admitted, pri, a.admitted[pri] + bytes, n);
        }
      }
  }

  /** A request in such a run is admitted iff the buckets up to its priority hold enough
      together, which is then taken from them and noted; a refused one changes nothing. */
  lemma RequestDoes(a: Account, bytes: nat, pri: nat, c: Config)
    requires Sound(a, c) && |c.priLimits| == PRIORITIES && pri < 5
    ensures var b := Next(a, Request(bytes, pri), c);
            if Sum(a.avail, pri + 1) >= bytes then
              && b.admitted == a.admitted[pri := a.admitted[pri] + bytes] && b.credited == a.credited
              && Sum(b.avail, pri + 1) == Sum(a.avail, pri + 1) - bytes
              && forall i | pri < i < 5 :: b.avail[i] == a.avail[i]
            else b == a
  {
    DrainIff(a.avail, bytes, pri + 1);
  }

  function After(events: seq<Event>, c: Config): (a: Account)
    requires |c.priLimits| == PRIORITIES
    ensures |a.avail| == PRIORITIES && |a.credited| == PRIORITIES && |a.admitted| == PRIORITIES
  {
    if events == [] then Account(ZEROS, ZEROS, ZEROS)
    else
      var a := After(events[..|events| - 1], c);
      Next(a, events[|events| - 1], c)
  }

  /** Over any run from empty buckets the bytes admitted at priorities up to p never
      exceed the tokens credited to buckets 0..p, and each bucket stays within 0..max. */
  lemma {:induction false} RunSound(events: seq<Event>, c: Config, p: nat)
    requires |c.priLimits| == PRIORITIES && p < PRIORITIES
    ensures Within(After(events, c).avail, c.maxAvail)
    ensures Sum(After(events, c).admitted, p + 1) <= Sum(After(events, c).credited, p + 1)
  {
    AllSound(events, c);
    assert Covered(After(events, c), p + 1);
    SumPositive(After(events, c).avail, p + 1);
  }

  lemma {:induction false} ZeroSum(n: nat)
    requires n <= PRIORITIES
    ensures Sum(ZEROS, n) == 0
  {
    if n > 0 { ZeroSum(n - 1); }
  }

  lemma {:induction false} AllSound(events: seq<Event>, c: Config)
    requires |c.priLimits| == PRIORITIES
    ensures Sound(After(events, c), c)
    decreases |events|
  {
    if events == [] {
      forall n | 0 <= n <= PRIORITIES ensures Covered(Account(ZEROS, ZEROS, ZEROS), n) { ZeroSum(n); }
    } else {
      AllSound(events[..|events| - 1], c);
      NextSound(After(events[..|events| - 1], c), events[|events| - 1], c);
    }
  }

  /** What the settings allow the buckets 0..n-1 to be given by a run, in eighths of a
      hundredth of a byte. */
  function Allowed(events: seq<Event>, c: Config, n: nat): nat
    requires n <= |c.priLimits|
  {
    if events == [] then 0
    else
      var before, last := Allowed(events[..|events| - 1], c, n), events[|events| - 1];
      before + match last
               case Refill(slices, limit) => Shares(slices, limit, c, n)
               case Request(_, _) => 0
  }

  function Shares(slices: nat, limit: nat, c: Config, n: nat): nat
    requires n <= |c.priLimits|
  {
    if n == 0 then 0 else Shares(slices, limit, c, n - 1) + slices * (limit * c.priLimits[n - 1])
  }

  lemma ShareBound(slices: nat, share: nat, gain: nat, part: nat)
    requires 100 * share <= part && 8 * gain <= slices * share
    ensures 800 * gain <= slices * part
  {
    MoreSlices(slices, 100 * share, part);
    assert slices * (100 * share) == 100 * (slices * share);
  }

  lemma MoreSlices(slices: nat, a: nat, b: nat)
    requires a <= b
    ensures slices * a <= slices * b
  {
  }

  lemma {:induction false} RefillAllowed(avail: Buckets, slices: nat, limit: nat, c: Config, n: nat)
    requires |c.priLimits| == PRIORITIES && |avail| == PRIORITIES && n <= PRIORITIES
    ensures 800 * (Sum(Refilled(avail, slices, limit, c), n) - Sum(avail, n)) <= Shares(slices, limit, c, n)
    decreases n
  {
    if n > 0 {
      RefillAllowed(avail, slices, limit, c, n - 1);
      var share, gain := RefillIs(avail, slices, limit, c, n - 1);
      ShareBound(slices, share, gain, limit * c.priLimits[n - 1]);
    }
  }

  lemma {:induction false} CreditedAllowed(events: seq<Event>, c: Config, n: nat)
    requires |c.priLimits| == PRIORITIES && n <= PRIORITIES
    ensures 800 * Sum(After(events, c).credited, n) <= Allowed(events, c, n)
    decreases |events|
  {
    if events == [] {
      ZeroSum(n);
    } else {
      var less, last := events[..|events| - 1], events[|events| - 1];
      CreditedAllowed(less, c, n);
      var a := After(less, c);
      if last.Refill? {
        RefillAllowed(a.avail, last.slices, last.limit, c, n);
        SumGains(a.credited, a.avail, Refilled(a.avail, last.slices, last.limit, c), n);
      }
    }
  }

  /** Over any run from empty buckets what is admitted at priorities up to p stays within
      the rate: for every slice an eighth of the shares of the limit that the settings
      give those priorities, in hundredths. */
  lemma RunWithinRate(events: seq<Event>, c: Config, p: nat)
    requires |c.priLimits| == PRIORITIES && p < PRIORITIES
    ensures 800 * Sum(After(events, c).admitted, p + 1) <= Allowed(events, c, p + 1)
  {
    RunSound(events, c, p);
    CreditedAllowed(events, c, p + 1);
  }

  // --------------------------------------------------------------- the limit

  function Clip(v: int, lo: int, hi: int): int { if v > hi then hi else if v < lo then lo else v }

  /** Clipping gives the limit nearest to v that the settings allow. */
  lemma ClipIsNearest(v: int, lo: int, hi: int, u: int)
    requires lo <= hi && lo <= u <= hi
    ensures lo <= Clip(v, lo, hi) <= hi
    ensures v <= u ==> v <= Clip(v, lo, hi) <= u || Clip(v, lo, hi) == v
    ensures u <= v ==> u <= Clip(v, lo, hi) <= v || Clip(v, lo, hi) == v
  {
  }

  ghost predicate IsRoot(r: int, n: int) { 0 <= r && r * r <= n < (r + 1) * (r + 1) }

  /** What AdjustForRetry takes the square root of. */
  function RootArg(limit: int, scale: int): int { limit * limit - 4 * (scale * scale) }

  /** C's halving, which truncates towards zero. */
  function Halved(n: int): int { if n >= 0 then n / 2 else -(-n / 2) }

  /** AdjustForAck without clipping or the boost. */
  function Raised(limit: int, scale: int): int
    requires limit > 0
  {
    limit + scale * scale / limit
  }

  lemma TimesMonotone(a: int, b: int, c: int)
    requires a <= b && 0 <= c
    ensures a * c <= b * c
  {
  }

  lemma RaisedBy(limit: int, scale: int)
    requires scale > 0 && limit >= 4 * scale
    ensures var a := scale * scale / limit;
            0 <= 16 * a <= limit && a * limit <= scale * scale < a * limit + limit
  {
    var a := scale * scale / limit;
    var s2 := scale * scale;
    assert s2 == limit * a + s2 % limit;
    TimesMonotone(4 * scale, limit, scale);
    TimesMonotone(4 * scale, limit, limit);
    assert 4 * scale * scale == 4 * s2 && 4 * scale * limit == 4 * (limit * scale);
    assert 16 * s2 <= limit * limit;
    assert a * limit == limit * a;
    if a < 0 { TimesMonotone(a, -1, limit); }
    if 16 * a > limit { TimesMonotone(limit + 1, 16 * a, limit); }
  }

  /** The argument of the square root after an ack: (L - a)^2 less four remainders. */
  lemma RootArgument(limit: int, a: int, s2: int)
    ensures (limit + a) * (limit + a) - 4 * s2 == (limit - a) * (limit - a) - 4 * (s2 - a * limit)
  {
  }

  lemma SquareLess(a: int, b: int)
    requires 0 <= a && 0 <= b && a * a < b * b
    ensures a < b
  {
    if b <= a { TimesMonotone(b, a, a); TimesMonotone(b, a, b); }
  }

  /** The square root after an ack lies between L - a - 3 and L - a. */
  lemma RootAfterAck(limit: int, a: int, s2: int, root: int)
    requires limit >= 4 && 0 <= 16 * a <= limit && a * limit <= s2 < a * limit + limit
    requires IsRoot(root, (limit + a) * (limit + a) - 4 * s2)
    ensures limit - a - 3 <= root <= limit - a
  {
    var b := limit - a;
    RootArgument(limit, a, s2);
    assert b * b - 4 * (limit - 1) <= (limit + a) * (limit + a) - 4 * s2 <= b * b;
    assert (b + 1) * (b + 1) == b * b + 2 * b + 1;
    SquareLess(root, b + 1);
    assert (b - 3) * (b - 3) == b * b - 6 * b + 9;
    SquareLess(b - 3, root + 1);
  }

  /** An ack and then a retry, without clipping or the boost, bring a limit of at least
      four times the scale back to between two below it and itself. */
  lemma AckThenRetry(limit: int, scale: int)
    requires scale > 0 && limit >= 4 * scale
    ensures var raised := Raised(limit, scale);
            && RootArg(raised, scale) >= 0
            && forall root | IsRoot(root, RootArg(raised, scale)) :: limit - 2 <= (raised + root) / 2 <= limit
  {
    RaisedBy(limit, scale);
    RootDefinedIff(Raised(limit, scale), scale);
    forall root | IsRoot(root, RootArg(Raised(limit, scale), scale))
      ensures limit - 2 <= (Raised(limit, scale) + root) / 2 <= limit
    {
      RootAfterAck(limit, scale * scale / limit, scale * scale, root);
    }
  }

  /** The argument of the square root is nonnegative exactly from twice the scale on. */
  lemma RootDefinedIff(limit: int, scale: int)
    requires limit >= 0 && scale >= 0
    ensures RootArg(limit, scale) >= 0 <==> limit >= 2 * scale
  {
    assert (2 * scale) * (2 * scale) == 4 * (scale * scale);
    if limit >= 2 * scale {
      TimesMonotone(2 * scale, limit, limit);
      TimesMonotone(2 * scale, limit, 2 * scale);
    } else {
      TimesMonotone(limit + 1, 2 * scale, 2 * scale);
      TimesMonotone(limit, 2 * scale, limit);
      assert limit * limit < (2 * scale) * (2 * scale);
    }
  }

  /** A limit's square fits an int exactly up to 46340; the default maximum is 102400. */
  lemma SquareFitsIff(limit: int)
    requires limit >= 0
    ensures limit * limit < 0x8000_0000 <==> limit <= 46340
  {
    if limit <= 46340 {
      TimesMonotone(limit, 46340, limit);
      TimesMonotone(limit, 46340, 46340);
    } else {
      TimesMonotone(46341, limit, limit);
      TimesMonotone(46341, limit, 46341);
    }
  }

  // ---------------------------------------------------------------- in place

  /** sqrt, truncated. */
  method Root(n: nat) returns (r: nat)
    ensures IsRoot(r, n)
  {
    r := 0;
    while (r + 1) * (r + 1) <= n
      invariant r * r <= n
      decreases n - r
    {
      r := r + 1;
    }
  }

  class BWLimit {
    var sinceTime: int
    var limit: int
    var avail: array<int>
    var maxAvail: int
    var hitLimit: bool

    constructor (c: Config, now: int)
      ensures fresh(avail) && avail[..] == ZEROS
      ensures limit == c.limitInitial && maxAvail == c.maxAvail && !hitLimit && sinceTime == now
    {
      sinceTime, limit, maxAvail, hitLimit := now, c.limitInitial, c.maxAvail, false;
      avail := new int[PRIORITIES](_ => 0);
      new;
      assert avail[..] == ZEROS;
    }

    /** The time part of Iter. */
    method CountSlices(now: int) returns (slices: nat)
      modifies this`sinceTime
      ensures slices == Slices(TickDiff(now, old(sinceTime)))
      ensures TickDiff(now, sinceTime) == TickDiff(now, old(sinceTime)) - SLICE * slices <= SLICE
    {
      slices := 0;
      while TickDiff(now, sinceTime) > 1000 / GRANULARITY
        invariant slices + Slices(TickDiff(now, sinceTime)) == Slices(TickDiff(now, old(sinceTime)))
        invariant TickDiff(now, sinceTime) == TickDiff(now, old(sinceTime)) - SLICE * slices
        decreases TickDiff(now, sinceTime)
      {
        OneSlice(now, sinceTime);
        slices := slices + 1;
        sinceTime := (sinceTime + 1000 / GRANULARITY) % TICKS;
      }
    }

    method Iter(now: int, c: Config)
      requires avail.Length == PRIORITIES == |c.priLimits| && maxAvail == c.maxAvail && limit >= 0
      modifies this`sinceTime, avail
      ensures avail[..] == Refilled(old(avail[..]), Slices(TickDiff(now, old(sinceTime))), limit, c)
    {
      var slices := CountSlices(now);
      for pri := 0 to PRIORITIES
        invariant forall i | 0 <= i < pri ::
            avail[i] == Capped(old(avail[i]) + Amount(slices, limit, c.priLimits[i]), c.maxAvail)
        invariant forall i | pri <= i < PRIORITIES :: avail[i] == old(avail[i])
      {
        avail[pri] := avail[pri] + slices * (limit * c.priLimits[pri] / 100) / GRANULARITY;
        if avail[pri] > maxAvail { avail[pri] := maxAvail; }
      }
    }

    method Check(bytes0: int, pri: nat) returns (ok: bool)
      requires avail.Length == PRIORITIES && pri < PRIORITIES
      modifies this`hitLimit, avail
      ensures ok <==> Drain(old(avail[..]), bytes0, pri + 1).Some?
      ensures ok ==> avail[..] == Drain(old(avail[..]), bytes0, pri + 1).value && hitLimit == old(hitLimit)
      ensures !ok ==> avail[..] == old(avail[..]) && hitLimit
    {
      var bytes, p := bytes0, pri + 1;
      var copy := avail[..];
      while p > 0
        invariant 0 <= p <= PRIORITIES && |copy| == PRIORITIES && avail[..] == old(avail[..]) && hitLimit == old(hitLimit)
        invariant Drain(copy, bytes, p) == Drain(old(avail[..]), bytes0, pri + 1)
      {
        if copy[p - 1] >= bytes {
          copy := copy[p - 1 := copy[p - 1] - bytes];
          forall i | 0 <= i < PRIORITIES { avail[i] := copy[i]; }
          assert avail[..] == copy;
          return true;
        }
        bytes := bytes - copy[p - 1];
        copy := copy[p - 1 := 0];
        p := p - 1;
      }
      hitLimit := true;
      return false;
    }

    method AdjustForAck(c: Config)
      requires limit > 0
      modifies this`limit, this`hitLimit
      ensures !c.useHitLimit || !old(hitLimit) ==>
                limit == Clip(Raised(old(limit), c.limitScale), c.limitLow, c.limitHigh) && hitLimit == old(hitLimit)
      ensures c.useHitLimit && old(hitLimit) ==>
                !hitLimit && limit == Clip(old(limit) + 4 * c.limitScale * c.limitScale / old(limit), c.limitLow, c.limitHigh)
    {
      if c.useHitLimit && hitLimit {
        limit := limit + 4 * c.limitScale * c.limitScale / limit;
        hitLimit := false;
      } else {
        limit := limit + c.limitScale * c.limitScale / limit;
      }
      limit := Clip(limit, c.limitLow, c.limitHigh);
    }

    /** Below twice the scale the square root is not a number, and what converting that to
        an int gives is up to the platform: `converted`. */
    method AdjustForRetry(c: Config, converted: int) returns (ghost root: int)
      requires limit >= 0 && c.limitScale >= 0
      modifies this`limit
      ensures old(limit) >= 2 * c.limitScale ==> IsRoot(root, RootArg(old(limit), c.limitScale))
      ensures limit == Clip(Halved(if old(limit) >= 2 * c.limitScale then old(limit) + root else converted),
                            c.limitLow, c.limitHigh)
    {
      RootDefinedIff(limit, c.limitScale);
      root := 0;
      if limit * limit - 4 * (c.limitScale * c.limitScale) >= 0 {
        var r := Root(limit * limit - 4 * (c.limitScale * c.limitScale));
        root := r;
        limit := limit + r;
      } else {
        limit := converted;
      }
      limit := if limit >= 0 then limit / 2 else -(-limit / 2);
      limit := Clip(limit, c.limitLow, c.limitHigh);
    }
  }
}
