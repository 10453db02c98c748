/** mapdata.c's region index: every tile holds the number of an interned set of regions,
    and every region a bitmap of the sets it is in. */
module RegionIndex {
  import opened TileMap
  import opened Bitmaps

  type RegionId = nat

  // ---------------------------------------------------------------- index

  /** `tile` is the sparse array of set numbers (absent is 0), `sets` the interned sets
      with set 0 the empty one, `words` the set each region's setmap stands for; `lost` is set once the
      limit on sets has been reached and a tile was dropped with a warning. */
  datatype Index = Index(tile: map<Tile, nat>, sets: seq<seq<RegionId>>, words: map<RegionId, set<nat>>, lost: bool) {
    /** The sparse array only looks at the low ten bits of a coordinate. */
    static function Key(x: int, y: int): Tile { (x % SIZE, y % SIZE) }

    function Number(t: Tile): nat { if t in tile then tile[t] else 0 }

    function SetAt(t: Tile): seq<RegionId> { if Number(t) < |sets| then sets[Number(t)] else [] }
  }

  function BitsOf(words: map<RegionId, set<nat>>, r: RegionId): set<nat> { if r in words then words[r] else {} }

  const EMPTY_INDEX := Index(map[], [[]], map[], false)

  /** Contains; a set number is one byte. */
  predicate Contains(ix: Index, r: RegionId, x: int, y: int) {
    var i := ix.Number(Index.Key(x, y));
    i < MAX_SETS && i in BitsOf(ix.words, r)
  }

  /** The set of a point: what EnumContaining goes through for coordinates that are not
      negative, and GetOneContaining takes the first of. */
  function Enum(ix: Index, x: int, y: int): seq<RegionId> { ix.SetAt(Index.Key(x, y)) }

  /** The tiles of the map whose set the region is in. */
  function TilesOf(ix: Index, r: RegionId): Tiles {
    set x, y | 0 <= x < SIZE && 0 <= y < SIZE && r in ix.SetAt((x, y)) :: (x, y)
  }

  /** The test add_rgn_tile makes on null-terminated lists: the old set is a prefix and
      the new region comes right after it. More may follow. */
  predicate PrefixMatch(oldset: seq<RegionId>, tryset: seq<RegionId>, r: RegionId) {
    |tryset| > |oldset| && tryset[..|oldset|] == oldset && tryset[|oldset|] == r
  }

  /** The first interned set from i on that passes the test, or the number of sets. */
  function FindSet(sets: seq<seq<RegionId>>, oldset: seq<RegionId>, r: RegionId, i: nat): nat
    decreases |sets| - i, sets
  {
    if i >= |sets| then |sets| else if PrefixMatch(oldset, sets[i], r) then i else FindSet(sets, oldset, r, i + 1)
  }

  lemma {:induction false} FindSetFirst(sets: seq<seq<RegionId>>, oldset: seq<RegionId>, r: RegionId, i: nat)
    requires i <= |sets|
    ensures i <= FindSet(sets, oldset, r, i) <= |sets|
    ensures FindSet(sets, oldset, r, i) < |sets| ==> PrefixMatch(oldset, sets[FindSet(sets, oldset, r, i)], r)
    ensures forall j | i <= j < FindSet(sets, oldset, r, i) :: !PrefixMatch(oldset, sets[j], r)
    decreases |sets| - i
  {
    if i < |sets| { FindSetFirst(sets, oldset, r, i + 1); }
  }

  /** Setting bit i in the setmap of every region of a set. */
  function Marked(words: map<RegionId, set<nat>>, regions: seq<RegionId>, i: nat): map<RegionId, set<nat>> {
    map r | r in words.Keys + (set q | q in regions) ::
      if r in regions then BitsOf(words, r) + {i} else BitsOf(words, r)
  }

  /** add_rgn_tile. */
  function AddTile(ix: Index, r: RegionId, x: int, y: int): Index {
    var t := Index.Key(x, y);
    var oldset := ix.SetAt(t);
    var i := FindSet(ix.sets, oldset, r, 1);
    if i < |ix.sets| then ix.(tile := ix.tile[t := i])
    else if i < MAX_SETS then
      Index(ix.tile[t := i], ix.sets + [oldset + [r]], Marked(ix.words, oldset + [r], i), ix.lost)
    else ix.(lost := true)
  }

  // ------------------------------------------------------------ invariant

  ghost predicate Increasing(s: seq<RegionId>) { forall i, j | 0 <= i < j < |s| :: s[i] < s[j] }

  /** Regions are numbered in load order, so while region `last` is being loaded every
      set is in load order and that region comes last in it; all sets are different. */
  ghost predicate SetsOk(sets: seq<seq<RegionId>>, last: RegionId) {
    && 1 <= |sets| <= MAX_SETS && sets[0] == []
    && (forall i | 0 <= i < |sets| :: Increasing(sets[i]) && forall r | r in sets[i] :: r <= last)
    && (forall i, j | 0 <= i < j < |sets| :: sets[i] != sets[j])
  }

  /** Bit i of a region's setmap is set exactly if the region belongs to set i. */
  ghost predicate BitsOk(words: map<RegionId, set<nat>>, sets: seq<seq<RegionId>>) {
    forall r: RegionId, i: nat {:trigger i in BitsOf(words, r)} | i < MAX_SETS ::
      i in BitsOf(words, r) <==> i < |sets| && r in sets[i]
  }

  ghost predicate IndexOk(ix: Index, last: RegionId) {
    && SetsOk(ix.sets, last) && BitsOk(ix.words, ix.sets) && forall t | t in ix.tile :: ix.tile[t] < |ix.sets|
  }

  lemma EmptyIndexOk(last: RegionId)
    ensures IndexOk(EMPTY_INDEX, last)
    ensures forall r: RegionId :: TilesOf(EMPTY_INDEX, r) == {}
  {
  }

  /** Contains and the set of a point follow from the tile sets, at every point. */
  lemma LooksUp(ix: Index, last: RegionId, x: int, y: int)
    requires IndexOk(ix, last)
    ensures forall r: RegionId :: Contains(ix, r, x, y) <==> Index.Key(x, y) in TilesOf(ix, r)
    ensures forall r: RegionId :: r in Enum(ix, x, y) <==> Index.Key(x, y) in TilesOf(ix, r)
    ensures Increasing(Enum(ix, x, y))
  {
  }

  // -------------------------------------------------------------- one tile

  /** While a region is being loaded it is last in every set it is in, so matching a
      prefix and the region after it never picks a longer set. */
  lemma PrefixMatchIsExact(sets: seq<seq<RegionId>>, r: RegionId, oldset: seq<RegionId>, i: nat)
    requires SetsOk(sets, r) && i < |sets| && PrefixMatch(oldset, sets[i], r)
    ensures sets[i] == oldset + [r]
  {
    var s := sets[i];
    var end := s[|s| - 1];
    assert end in s && (|oldset| < |s| - 1 ==> r < end);
    assert s == s[..|oldset|] + [s[|oldset|]];
  }

  lemma NewSetFits(sets: seq<seq<RegionId>>, r: RegionId, k: nat)
    requires SetsOk(sets, r) && k < |sets| && r !in sets[k] && |sets| < MAX_SETS
    requires FindSet(sets, sets[k], r, 1) == |sets|
    ensures SetsOk(sets + [sets[k] + [r]], r)
  {
    var s := sets[k];
    FindSetFirst(sets, s, r, 1);
    forall i | 0 <= i < |s| ensures s[i] < r { assert s[i] in s; }
    forall i | 0 <= i < |sets| ensures sets[i] != s + [r] {
      assert i > 0 ==> !PrefixMatch(s, sets[i], r);
    }
  }

  lemma MarkedBits(words: map<RegionId, set<nat>>, regions: seq<RegionId>, i: nat, r: RegionId)
    ensures BitsOf(Marked(words, regions, i), r) == BitsOf(words, r) + if r in regions then {i} else {}
  {
  }

  lemma NewSetBits(words: map<RegionId, set<nat>>, sets: seq<seq<RegionId>>, regions: seq<RegionId>)
    requires BitsOk(words, sets) && |sets| < MAX_SETS
    ensures BitsOk(Marked(words, regions, |sets|), sets + [regions])
  {
    var words', sets' := Marked(words, regions, |sets|), sets + [regions];
    forall r: RegionId, j: nat | j < MAX_SETS
      ensures j in BitsOf(words', r) <==> j < |sets'| && r in sets'[j]
    {
      MarkedBits(words, regions, |sets|, r);
      assert j < |sets| ==> sets'[j] == sets[j];
      assert j in BitsOf(words, r) <==> j < |sets| && r in sets[j];
    }
  }

  /** The set of one tile has grown by r and no other tile's set has moved; or nothing
      has moved because the limit has been reached, and the set was not there. */
  ghost predicate Grown(ix: Index, ix': Index, r: RegionId, t: Tile) {
    && (ix.lost ==> ix'.lost)
    && (ix'.SetAt(t) == ix.SetAt(t) + [r] || (ix'.lost && ix'.SetAt(t) == ix.SetAt(t)))
    && (forall u | u != t :: ix'.SetAt(u) == ix.SetAt(u))
    && (ix'.sets == ix.sets || ix'.sets == ix.sets + [ix.SetAt(t) + [r]])
    && (ix'.lost && !ix.lost ==> |ix.sets| == MAX_SETS && ix.SetAt(t) + [r] !in ix.sets)
  }

  lemma SharedSet(ix: Index, r: RegionId, t: Tile, i: nat)
    requires IndexOk(ix, r) && i < |ix.sets| && PrefixMatch(ix.SetAt(t), ix.sets[i], r)
    ensures var ix' := ix.(tile := ix.tile[t := i]); IndexOk(ix', r) && Grown(ix, ix', r, t)
  {
    PrefixMatchIsExact(ix.sets, r, ix.SetAt(t), i);
  }

  lemma NewSet(ix: Index, r: RegionId, t: Tile)
    requires IndexOk(ix, r) && |ix.sets| < MAX_SETS && r !in ix.SetAt(t)
    requires FindSet(ix.sets, ix.SetAt(t), r, 1) == |ix.sets|
    ensures var i, s := |ix.sets|, ix.SetAt(t) + [r];
            var ix' := Index(ix.tile[t := i], ix.sets + [s], Marked(ix.words, s, i), ix.lost);
            IndexOk(ix', r) && Grown(ix, ix', r, t)
  {
    NewSetFits(ix.sets, r, ix.Number(t));
    NewSetBits(ix.words, ix.sets, ix.SetAt(t) + [r]);
  }

  lemma NoSet(ix: Index, r: RegionId, t: Tile)
    requires IndexOk(ix, r) && FindSet(ix.sets, ix.SetAt(t), r, 1) == |ix.sets|
    ensures ix.SetAt(t) + [r] !in ix.sets
  {
    FindSetFirst(ix.sets, ix.SetAt(t), r, 1);
    forall i | 0 <= i < |ix.sets| ensures ix.sets[i] != ix.SetAt(t) + [r] {
      assert i > 0 ==> !PrefixMatch(ix.SetAt(t), ix.sets[i], r);
    }
  }

  /** add_rgn_tile on a tile the region does not have yet. */
  lemma AddTileGrows(ix: Index, r: RegionId, x: int, y: int)
    requires IndexOk(ix, r) && r !in Enum(ix, x, y)
    ensures IndexOk(AddTile(ix, r, x, y), r) && Grown(ix, AddTile(ix, r, x, y), r, Index.Key(x, y))
  {
    var t := Index.Key(x, y);
    var i := FindSet(ix.sets, ix.SetAt(t), r, 1);
    FindSetFirst(ix.sets, ix.SetAt(t), r, 1);
    if i < |ix.sets| {
      SharedSet(ix, r, t, i);
    } else if i < MAX_SETS {
      NewSet(ix, r, t);
    } else {
      NoSet(ix, r, t);
    }
  }

  lemma GrownTiles(ix: Index, ix': Index, r: RegionId, x: int, y: int)
    requires InMap(x, y) && Grown(ix, ix', r, (x, y))
    ensures TilesOf(ix', r) == TilesOf(ix, r) + if ix'.SetAt((x, y)) == ix.SetAt((x, y)) then {} else {(x, y)}
  {
  }
}
