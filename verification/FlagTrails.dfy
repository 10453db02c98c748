/** Which flags a pass over one player's flags leaves wrong on the clients' side. Some of
    his flags make the server tell everyone to drop all he has and pick the rest up again;
    his other flags are then wrong from the moment they are passed until that happens
    again, unless passing them is shown to the clients by itself. */
module FlagTrails {
  import opened Options
  import opened Flags

  /** Some flag of p's in the range is in the set. */
  predicate AnyIn(fis: seq<FlagInfo>, p: PlayerId, ids: set<nat>, from: nat, to: nat) {
    exists k: nat :: from <= k < to && k < |fis| && CarriedBy(fis[k], p) && k in ids
  }

  /** Flag f is p's, is passed after one of `moved` and not before another, and is neither
      moved nor shown itself. */
  predicate LeftBehind(fis: seq<FlagInfo>, p: PlayerId, moved: set<nat>, shown: set<nat>, f: nat) {
    && f < |fis| && CarriedBy(fis[f], p) && f !in moved && f !in shown
    && AnyIn(fis, p, moved, 0, f) && !AnyIn(fis, p, moved, f + 1, |fis|)
  }

  /** The wrong flags when the pass is over, if it is at flag i with `stale` wrong so far
      and `armed` says that it has met one of `moved`. */
  function Trail(
      fis: seq<FlagInfo>, p: PlayerId, moved: set<nat>, shown: set<nat>, i: nat, armed: bool, stale: set<nat>): set<nat>
    decreases |fis| - i
  {
    if i >= |fis| then stale
    else if !CarriedBy(fis[i], p) then Trail(fis, p, moved, shown, i + 1, armed, stale)
    else if i in moved then Trail(fis, p, moved, shown, i + 1, true, {})
    else Trail(fis, p, moved, shown, i + 1, armed, if armed && i !in shown then stale + {i} else stale)
  }

  lemma {:induction false} TrailSame(
      fis: seq<FlagInfo>, fis': seq<FlagInfo>, p: PlayerId, moved: set<nat>, shown: set<nat>, i: nat, armed: bool,
      stale: set<nat>)
    requires |fis| == |fis'| && forall j | i <= j < |fis| :: fis[j] == fis'[j]
    ensures Trail(fis, p, moved, shown, i, armed, stale) == Trail(fis', p, moved, shown, i, armed, stale)
    decreases |fis| - i
  {
    if i < |fis| {
      if !CarriedBy(fis[i], p) {
        TrailSame(fis, fis', p, moved, shown, i + 1, armed, stale);
      } else if i in moved {
        TrailSame(fis, fis', p, moved, shown, i + 1, true, {});
      } else {
        TrailSame(fis, fis', p, moved, shown, i + 1, armed, if armed && i !in shown then stale + {i} else stale);
      }
    }
  }

  lemma AnyInFrom(fis: seq<FlagInfo>, p: PlayerId, ids: set<nat>, i: nat, to: nat)
    requires i < to && i < |fis|
    ensures AnyIn(fis, p, ids, i, to) <==> (CarriedBy(fis[i], p) && i in ids) || AnyIn(fis, p, ids, i + 1, to)
  {
  }

  /** What Trail holds, flag by flag. */
  lemma {:induction false} TrailHolds(
      fis: seq<FlagInfo>, p: PlayerId, moved: set<nat>, shown: set<nat>, i: nat, armed: bool, stale: set<nat>, f: nat)
    requires i <= |fis| && forall j | j in stale :: j < i
    ensures f in Trail(fis, p, moved, shown, i, armed, stale) <==>
            if f < i then f in stale && !AnyIn(fis, p, moved, i, |fis|)
            else f < |fis| && CarriedBy(fis[f], p) && f !in moved && f !in shown
                 && (armed || AnyIn(fis, p, moved, i, f)) && !AnyIn(fis, p, moved, f + 1, |fis|)
    decreases |fis| - i
  {
    if i < |fis| {
      AnyInFrom(fis, p, moved, i, |fis|);
      if i < f { AnyInFrom(fis, p, moved, i, f); }
      if !CarriedBy(fis[i], p) {
        TrailHolds(fis, p, moved, shown, i + 1, armed, stale, f);
      } else if i in moved {
        TrailHolds(fis, p, moved, shown, i + 1, true, {}, f);
      } else {
        TrailHolds(fis, p, moved, shown, i + 1, armed, if armed && i !in shown then stale + {i} else stale, f);
      }
    }
  }

  /** A whole pass leaves exactly the flags left behind. */
  lemma WholeTrail(fis: seq<FlagInfo>, p: PlayerId, moved: set<nat>, shown: set<nat>, f: nat)
    ensures f in Trail(fis, p, moved, shown, 0, false, {}) <==> LeftBehind(fis, p, moved, shown, f)
  {
    TrailHolds(fis, p, moved, shown, 0, false, {}, f);
  }

  /** Some flag of p's is moved, and all his higher-numbered ones are moved or shown. */
  predicate RestIn(fis: seq<FlagInfo>, p: PlayerId, moved: set<nat>, shown: set<nat>) {
    exists k: nat :: k < |fis| && CarriedBy(fis[k], p) && k in moved
                     && forall f: nat | k < f < |fis| && CarriedBy(fis[f], p) :: f in moved || f in shown
  }

  /** p's highest-numbered flag is in the set. */
  predicate HighestIn(fis: seq<FlagInfo>, p: PlayerId, ids: set<nat>) {
    exists k: nat :: k < |fis| && CarriedBy(fis[k], p) && k in ids
                     && forall f | k < f < |fis| :: !CarriedBy(fis[f], p)
  }

  lemma {:induction false} Highest(fis: seq<FlagInfo>, p: PlayerId, ids: set<nat>, n: nat) returns (k: nat)
    requires n <= |fis| && AnyIn(fis, p, ids, 0, n)
    ensures k < n && CarriedBy(fis[k], p) && k in ids && !AnyIn(fis, p, ids, k + 1, n)
  {
    if CarriedBy(fis[n - 1], p) && n - 1 in ids { k := n - 1; } else { k := Highest(fis, p, ids, n - 1); }
  }

  /** No flag is left behind exactly when none of p's flags is moved, or all those above
      his highest-numbered moved one are shown. */
  lemma NoneLeftIff(fis: seq<FlagInfo>, p: PlayerId, moved: set<nat>, shown: set<nat>)
    ensures (forall f: nat :: !LeftBehind(fis, p, moved, shown, f))
            <==> !AnyIn(fis, p, moved, 0, |fis|) || RestIn(fis, p, moved, shown)
  {
    if AnyIn(fis, p, moved, 0, |fis|) && forall f: nat :: !LeftBehind(fis, p, moved, shown, f) {
      var k := Highest(fis, p, moved, |fis|);
      forall f: nat | k < f < |fis| && CarriedBy(fis[f], p) ensures f in moved || f in shown {
        assert !LeftBehind(fis, p, moved, shown, f);
        assert AnyIn(fis, p, moved, 0, f) && !AnyIn(fis, p, moved, f + 1, |fis|);
      }
    }
  }

  /** When only moving a flag shows it, that is his highest-numbered flag being moved. */
  lemma RestIsHighest(fis: seq<FlagInfo>, p: PlayerId, moved: set<nat>)
    ensures RestIn(fis, p, moved, {}) <==> HighestIn(fis, p, moved)
  {
    if RestIn(fis, p, moved, {}) {
      var k := Highest(fis, p, moved, |fis|);
      var k0: nat :| k0 < |fis| && CarriedBy(fis[k0], p) && k0 in moved
                     && forall f: nat | k0 < f < |fis| && CarriedBy(fis[f], p) :: f in moved || f in {};
      assert k0 <= k;
    }
  }
}
