/** mapdata.c's decoder of region tiles. It reads the same ops as region.py's, but paints
    tiles into the region index and records rectangles for random points. */
module RegionLoad {
  import opened Options
  import opened Bytes
  import opened TileMap
  import opened RegionCodec
  import opened Bitmaps
  import opened RegionIndex

  datatype Rect = Rect(x: int, y: int, width: nat, height: nat)

  /** What is kept for random points: `list` is the region's rle_data, `tiles` its count,
      and last_row_data always holds the newest entries of the list, those from `from`
      on. */
  datatype Rects = Rects(list: seq<Rect>, from: nat, lastRow: int, tiles: int) {
    /** Op 1. */
    function Run(x: int, y: int, n: nat): Rects {
      Rects(list + [Rect(x, y, n, 1)], if y != lastRow then |list| else from, y, tiles + n)
    }

    /** Op 3: every entry of the last row grows by n rows. */
    function Stretch(y: int, n: nat): Rects {
      Rects(Stretched(list, from, n), from, y + n - 1, tiles + n * WidthFrom(list, from))
    }
  }

  function Stretched(list: seq<Rect>, from: nat, n: nat): seq<Rect> {
    seq(|list|, i requires 0 <= i < |list| =>
      if i < from then list[i] else list[i].(height := list[i].height + n))
  }

  function WidthFrom(list: seq<Rect>, from: nat): int
    decreases |list| - from
  {
    if from >= |list| then 0 else list[from].width + WidthFrom(list, from + 1)
  }

  /** Op 1's loop over the n tiles from (x, y). */
  function PaintRun(ix: Index, r: RegionId, x: int, y: int, n: nat): Index
    decreases n, ix
  {
    if n == 0 then ix else AddTile(PaintRun(ix, r, x, y, n - 1), r, x + n - 1, y)
  }

  /** One turn of op 3's inner loop. */
  function CopyTile(ix: Index, r: RegionId, of: int, x: int, y: int): Index {
    if Contains(ix, r, x, of) then AddTile(ix, r, x, y) else ix
  }

  /** Op 3's inner loop: the first n tiles of row y become those of row `of`. */
  function PaintCopy(ix: Index, r: RegionId, of: int, y: int, n: nat): Index
    decreases n, ix
  {
    if n == 0 then ix else CopyTile(PaintCopy(ix, r, of, y, n - 1), r, of, n - 1, y)
  }

  /** Op 3's outer loop: the n rows from y on become row `of`. */
  function PaintRows(ix: Index, r: RegionId, of: int, y: int, n: nat): Index
    decreases n, ix
  {
    if n == 0 then ix else PaintRows(PaintCopy(ix, r, of, y, SIZE), r, of, y + 1, n - 1)
  }

  /** The state of read_rle_tile_data. */
  datatype Loader = Loader(cx: int, cy: int, ix: Index, rects: Rects) {
    function Wrap(): Loader { if cx == SIZE then Loader(0, cy + 1, ix, rects) else this }
  }

  /** One op; None is a return of FALSE. */
  function LoadStep(r: RegionId, l: Loader, op: Op, n: nat): Option<Loader> {
    match op
    case Skip => Some(Loader(l.cx + n, l.cy, l.ix, l.rects).Wrap())
    case Fill =>
      Some(Loader(l.cx + n, l.cy, PaintRun(l.ix, r, l.cx, l.cy, n), l.rects.Run(l.cx, l.cy, n)).Wrap())
    case EmptyRows => if l.cx != 0 then None else Some(Loader(l.cx, l.cy + n, l.ix, l.rects))
    case RepeatRow =>
      if l.cx != 0 || l.cy == 0 then None
      else Some(Loader(l.cx, l.cy + n, PaintRows(l.ix, r, l.cy - 1, l.cy, n), l.rects.Stretch(l.cy, n)))
  }

  datatype Loaded = Loaded(end: Loader, ok: bool)

  /** read_rle_tile_data from the present position on: what it leaves, and what it
      returns. Where the second byte of the last op is missing the C code reads past the
      chunk and then returns FALSE; here it returns FALSE at once. */
  function LoadFrom(d: ByteString, r: RegionId, l: Loader): Loaded
    decreases |d|
  {
    if d == [] then Loaded(l, l.cy == SIZE)
    else if !InMap(l.cx, l.cy) then Loaded(l, false)
    else
      var item := ReadOp(d);
      if item.None? then Loaded(l, false)
      else
        var next := LoadStep(r, l, item.value.op, item.value.n);
        if next.None? then Loaded(l, false) else LoadFrom(d[item.value.length..], r, next.value)
  }

  const NO_RECTS := Rects([], 0, -1, 0)

  function Start(ix: Index): Loader { Loader(0, 0, ix, NO_RECTS) }

  function Load(d: ByteString, r: RegionId, ix: Index): Loaded { LoadFrom(d, r, Start(ix)) }

  // ------------------------------------------------------- the same verdict

  predicate SamePlace(l: Loader, c: Cursor) { l.cx == c.cx && l.cy == c.cy }

  /** The two decoders accept exactly the same strings. */
  lemma {:induction false} SameVerdict(d: ByteString, r: RegionId, l: Loader, c: Cursor)
    requires SamePlace(l, c)
    ensures LoadFrom(d, r, l).ok <==> DecodeFrom(d, c).Ok?
    decreases |d|
  {
    if d != [] && InRange(c) && ReadOp(d).Some? {
      var item := ReadOp(d).value;
      SameSteps(r, l, c, item.op, item.n);
      if Step(c, item.op, item.n).Some? {
        SameVerdict(d[item.length..], r, LoadStep(r, l, item.op, item.n).value, Step(c, item.op, item.n).value);
      }
    }
  }

  lemma SameSteps(r: RegionId, l: Loader, c: Cursor, op: Op, n: nat)
    requires SamePlace(l, c) && InRange(c)
    ensures LoadStep(r, l, op, n).Some? <==> Step(c, op, n).Some?
    ensures Step(c, op, n).Some? ==> SamePlace(LoadStep(r, l, op, n).value, Step(c, op, n).value)
  {
  }

  // ------------------------------------------------------ painting, in general

  /** What holds between an index and a set of tiles. */
  type Relation = (Index, Tiles) -> bool

  /** Painting a new tile of the map keeps the relation. */
  ghost predicate KeptByAdding(rel: Relation, r: RegionId) {
    forall ix, tiles, x, y {:trigger rel(ix, tiles), AddTile(ix, r, x, y)} ::
      rel(ix, tiles) && InMap(x, y) && (x, y) !in tiles ==> rel(AddTile(ix, r, x, y), tiles + {(x, y)})
  }

  function CopyOfTile(tiles: Tiles, of: int, x: int, y: int): Tiles { if (x, of) in tiles then {(x, y)} else {} }

  /** So does copying a tile from a row further up. */
  ghost predicate KeptByCopying(rel: Relation, r: RegionId) {
    forall ix, tiles, of, x, y {:trigger rel(ix, tiles), CopyTile(ix, r, of, x, y)} ::
      rel(ix, tiles) && InMap(x, of) && InMap(x, y) && of < y && (x, y) !in tiles ==>
        rel(CopyTile(ix, r, of, x, y), tiles + CopyOfTile(tiles, of, x, y))
  }

  lemma SpanNone(tiles: Tiles, x: int, y: int)
    ensures tiles + Span(x, y, 0) == tiles
  {
  }

  lemma SpanOne(tiles: Tiles, x: int, y: int, n: nat)
    requires n > 0
    ensures tiles + Span(x, y, n) == tiles + Span(x, y, n - 1) + {(x + n - 1, y)}
    ensures (x + n - 1, y) !in Span(x, y, n - 1)
  {
  }

  lemma {:induction false} RunKeeps(rel: Relation, ix: Index, r: RegionId, tiles: Tiles, x: int, y: int, n: nat)
    requires KeptByAdding(rel, r) && rel(ix, tiles) && 0 <= x && x + n <= SIZE && 0 <= y < SIZE
    requires forall u | x <= u < x + n :: (u, y) !in tiles
    ensures rel(PaintRun(ix, r, x, y, n), tiles + Span(x, y, n))
    decreases n
  {
    if n == 0 {
      SpanNone(tiles, x, y);
    } else {
      RunKeeps(rel, ix, r, tiles, x, y, n - 1);
      SpanOne(tiles, x, y, n);
    }
  }

  ghost predicate RowFree(tiles: Tiles, y: int) { forall t | t in tiles :: t.1 != y }

  /** The first n tiles of row y, as copied from row `of`. */
  function Copy(tiles: Tiles, of: int, y: int, n: int): Tiles { set x | 0 <= x < n && (x, of) in tiles :: (x, y) }

  lemma CopyNone(tiles: Tiles, of: int, y: int)
    ensures tiles + Copy(tiles, of, y, 0) == tiles
  {
  }

  lemma CopyOne(tiles: Tiles, of: int, y: int, n: nat)
    requires n > 0 && of < y && RowFree(tiles, y)
    ensures var before := tiles + Copy(tiles, of, y, n - 1);
            && (n - 1, y) !in before
            && tiles + Copy(tiles, of, y, n) == before + CopyOfTile(before, of, n - 1, y)
  {
  }

  lemma {:induction false} CopyKeeps(rel: Relation, ix: Index, r: RegionId, tiles: Tiles, of: int, y: int, n: nat)
    requires KeptByCopying(rel, r) && rel(ix, tiles) && n <= SIZE && 0 <= of < y < SIZE
    requires RowFree(tiles, y)
    ensures rel(PaintCopy(ix, r, of, y, n), tiles + Copy(tiles, of, y, n))
    decreases n
  {
    if n == 0 {
      CopyNone(tiles, of, y);
    } else {
      CopyKeeps(rel, ix, r, tiles, of, y, n - 1);
      CopyOne(tiles, of, y, n);
    }
  }

  predicate Above(tiles: Tiles, y: int) { forall t | t in tiles :: t.1 < y }

  /** The tiles with n rows copied one by one. */
  function RowsCopied(tiles: Tiles, of: int, y: int, n: nat): Tiles
    decreases n, tiles
  {
    if n == 0 then tiles else RowsCopied(tiles + Copy(tiles, of, y, SIZE), of, y + 1, n - 1)
  }

  lemma OneRowDown(tiles: Tiles, of: int, y: int)
    requires Above(tiles, y)
    ensures RowFree(tiles, y) && Above(tiles + Copy(tiles, of, y, SIZE), y + 1)
  {
  }

  /** A relation between index, tiles and the next free row. */
  type RowRelation = (Index, Tiles, int) -> bool

  ghost predicate KeptByRows(rel: RowRelation, r: RegionId, of: int) {
    forall ix, tiles, y {:trigger rel(ix, tiles, y), PaintCopy(ix, r, of, y, SIZE)} ::
      rel(ix, tiles, y) && of < y < SIZE ==> rel(PaintCopy(ix, r, of, y, SIZE), tiles + Copy(tiles, of, y, SIZE), y + 1)
  }

  lemma {:induction false} RowsKeep(rel: RowRelation, ix: Index, r: RegionId, tiles: Tiles, of: int, y: int, n: nat)
    requires KeptByRows(rel, r, of) && rel(ix, tiles, y) && of < y && y + n <= SIZE
    ensures rel(PaintRows(ix, r, of, y, n), RowsCopied(tiles, of, y, n), y + n)
    decreases n
  {
    if n > 0 {
      RowsKeep(rel, PaintCopy(ix, r, of, y, SIZE), r, tiles + Copy(tiles, of, y, SIZE), of, y + 1, n - 1);
    }
  }

  lemma RowIsKept(rel: Relation, r: RegionId, of: int)
    requires KeptByCopying(rel, r) && of >= 0
    ensures KeptByRows((ix, tiles, y) => rel(ix, tiles) && Above(tiles, y), r, of)
  {
    forall ix, tiles, y | rel(ix, tiles) && of < y < SIZE && Above(tiles, y)
      ensures rel(PaintCopy(ix, r, of, y, SIZE), tiles + Copy(tiles, of, y, SIZE))
      ensures Above(tiles + Copy(tiles, of, y, SIZE), y + 1)
    {
      OneRowDown(tiles, of, y);
      CopyKeeps(rel, ix, r, tiles, of, y, SIZE);
    }
  }

  /** The tiles of row `of` in the n rows from y on. */
  function RowCopies(tiles: Tiles, of: int, y: int, n: nat): Tiles {
    set x, v | 0 <= x < SIZE && y <= v < y + n && (x, of) in tiles :: (x, v)
  }

  lemma RowCopiesOne(tiles: Tiles, of: int, y: int, n: nat)
    requires n > 0 && of < y
    ensures var more := tiles + Copy(tiles, of, y, SIZE);
            more + RowCopies(more, of, y + 1, n - 1) == tiles + RowCopies(tiles, of, y, n)
  {
  }

  lemma {:induction false} RowsCopiedAre(tiles: Tiles, of: int, y: int, n: nat)
    requires of < y
    ensures RowsCopied(tiles, of, y, n) == tiles + RowCopies(tiles, of, y, n)
    decreases n
  {
    if n == 0 {
      assert tiles + RowCopies(tiles, of, y, n) == tiles;
    } else {
      RowCopiesOne(tiles, of, y, n);
      RowsCopiedAre(tiles + Copy(tiles, of, y, SIZE), of, y + 1, n - 1);
    }
  }

  lemma RowsRepeated(tiles: Tiles, cy: int, n: nat)
    ensures RowsCopied(tiles, cy - 1, cy, n) == tiles + Repeated(tiles, cy, n)
  {
    RowsCopiedAre(tiles, cy - 1, cy, n);
    assert RowCopies(tiles, cy - 1, cy, n) == Repeated(tiles, cy, n);
  }

  // ---------------------------------------------------------- what is painted

  /** Every set add_rgn_tile may look for while region r is painted over the index `was`. */
  function Wanted(was: Index, r: RegionId, tiles: Tiles): set<seq<RegionId>> {
    (set s | s in was.sets) + (set t | t in tiles :: was.SetAt(t) + [r])
  }

  predicate TooMany(sets: set<seq<RegionId>>) { |sets| > MAX_SETS }

  function WithRegion(set0: seq<RegionId>, r: RegionId, joins: bool): seq<RegionId> { if joins then set0 + [r] else set0 }

  ghost predicate Unused(ix: Index, r: RegionId) { forall s | s in ix.sets :: r !in s }

  /** The index while region r is being loaded over the index `was`: about r it agrees
      with a set of tiles, never more and not less unless something was lost; about every
      other region it says what it said before; and nothing is lost unless more sets
      were wanted than there is room for. */
  ghost predicate Shows(was: Index, ix: Index, r: RegionId, tiles: Tiles) {
    && IndexOk(ix, r) && Unused(was, r)
    && TilesOf(ix, r) <= tiles && (!ix.lost ==> TilesOf(ix, r) == tiles)
    && (forall t {:trigger ix.SetAt(t)} :: ix.SetAt(t) == WithRegion(was.SetAt(t), r, t in TilesOf(ix, r)))
    && was.sets <= ix.sets && (forall s | s in ix.sets :: s in Wanted(was, r, tiles))
    && (was.lost ==> ix.lost) && (ix.lost && !was.lost ==> TooMany(Wanted(was, r, tiles)))
  }

  lemma MoreWanted(was: Index, r: RegionId, tiles: Tiles, t: Tile)
    ensures Wanted(was, r, tiles + {t}) == Wanted(was, r, tiles) + {was.SetAt(t) + [r]}
  {
  }

  lemma {:induction false} DistinctCount(s: seq<seq<RegionId>>)
    requires forall i, j | 0 <= i < j < |s| :: s[i] != s[j]
    ensures |set q | q in s| == |s|
  {
    if s != [] {
      var front := s[..|s| - 1];
      DistinctCount(front);
      assert s == front + [s[|s| - 1]];
      assert (set q | q in s) == (set q | q in front) + {s[|s| - 1]};
    }
  }

  /** If all the places are taken and one more set is wanted, too many are wanted. */
  lemma OneTooMany(ix: Index, r: RegionId, wanted: set<seq<RegionId>>, s: seq<RegionId>)
    requires SetsOk(ix.sets, r) && |ix.sets| == MAX_SETS && s !in ix.sets && s in wanted
    requires forall q | q in ix.sets :: q in wanted
    ensures TooMany(wanted)
  {
    DistinctCount(ix.sets);
    var have := set q | q in ix.sets;
    assert have + {s} <= wanted;
    Fewer(have + {s}, wanted);
  }

  lemma {:induction false} Fewer(a: set<seq<RegionId>>, b: set<seq<RegionId>>)
    requires a <= b
    ensures |a| <= |b|
  {
    if a != {} {
      var x :| x in a;
      Fewer(a - {x}, b - {x});
    }
  }

  lemma AddShows(was: Index, ix: Index, r: RegionId, tiles: Tiles, x: int, y: int)
    requires Shows(was, ix, r, tiles) && InMap(x, y) && (x, y) !in tiles
    ensures Shows(was, AddTile(ix, r, x, y), r, tiles + {(x, y)})
  {
    assert Index.Key(x, y) == (x, y);
    AddTileGrows(ix, r, x, y);
    GrownShows(was, ix, AddTile(ix, r, x, y), r, tiles, x, y);
  }

  lemma GrownShows(was: Index, ix: Index, ix': Index, r: RegionId, tiles: Tiles, x: int, y: int)
    requires Shows(was, ix, r, tiles) && InMap(x, y) && (x, y) !in tiles
    requires IndexOk(ix', r) && Grown(ix, ix', r, (x, y))
    ensures Shows(was, ix', r, tiles + {(x, y)})
  {
    var t := (x, y);
    GrownTiles(ix, ix', r, x, y);
    assert ix.SetAt(t) == was.SetAt(t);
    StillWanted(was, ix, ix', r, tiles, t);
  }

  lemma StillWanted(was: Index, ix: Index, ix': Index, r: RegionId, tiles: Tiles, t: Tile)
    requires SetsOk(ix.sets, r) && Grown(ix, ix', r, t) && ix.SetAt(t) == was.SetAt(t)
    requires forall s | s in ix.sets :: s in Wanted(was, r, tiles)
    requires ix.lost && !was.lost ==> TooMany(Wanted(was, r, tiles))
    ensures forall s | s in ix'.sets :: s in Wanted(was, r, tiles + {t})
    ensures ix'.lost && !was.lost ==> TooMany(Wanted(was, r, tiles + {t}))
  {
    MoreWanted(was, r, tiles, t);
    if ix.lost && !was.lost {
      Fewer(Wanted(was, r, tiles), Wanted(was, r, tiles + {t}));
    } else if ix'.lost && !ix.lost {
      OneTooMany(ix, r, Wanted(was, r, tiles + {t}), ix.SetAt(t) + [r]);
    }
  }

  lemma CopyShows(was: Index, ix: Index, r: RegionId, tiles: Tiles, of: int, x: int, y: int)
    requires Shows(was, ix, r, tiles) && InMap(x, of) && InMap(x, y) && (x, y) !in tiles
    ensures Shows(was, CopyTile(ix, r, of, x, y), r, tiles + CopyOfTile(tiles, of, x, y))
  {
    LooksUp(ix, r, x, of);
    assert Index.Key(x, of) == (x, of);
    if Contains(ix, r, x, of) {
      AddShows(was, ix, r, tiles, x, y);
    } else {
      SkipShows(was, ix, r, tiles, tiles + CopyOfTile(tiles, of, x, y));
    }
  }

  /** Leaving out a tile that was lost before. */
  lemma SkipShows(was: Index, ix: Index, r: RegionId, tiles: Tiles, more: Tiles)
    requires Shows(was, ix, r, tiles) && tiles <= more && (!ix.lost ==> tiles == more)
    ensures Shows(was, ix, r, more)
  {
    Fewer(Wanted(was, r, tiles), Wanted(was, r, more));
  }

  lemma ShowsKept(was: Index, r: RegionId)
    ensures KeptByAdding((ix, tiles) => Shows(was, ix, r, tiles), r)
    ensures KeptByCopying((ix, tiles) => Shows(was, ix, r, tiles), r)
  {
    forall ix, tiles, x, y | Shows(was, ix, r, tiles) && InMap(x, y) && (x, y) !in tiles
      ensures Shows(was, AddTile(ix, r, x, y), r, tiles + {(x, y)})
    {
      AddShows(was, ix, r, tiles, x, y);
    }
    forall ix, tiles, of, x, y | Shows(was, ix, r, tiles) && InMap(x, of) && InMap(x, y) && of < y && (x, y) !in tiles
      ensures Shows(was, CopyTile(ix, r, of, x, y), r, tiles + CopyOfTile(tiles, of, x, y))
    {
      CopyShows(was, ix, r, tiles, of, x, y);
    }
  }

  // ----------------------------------------------------------- every string

  /** Everything painted so far lies before the cursor. */
  ghost predicate BeforeCursor(c: Cursor) {
    forall t | t in c.tiles :: InMap(t.0, t.1) && (t.1 < c.cy || (t.1 == c.cy && t.0 < c.cx))
  }

  /** Where an op of an accepted string may leave the cursor. */
  predicate StaysInMap(c: Cursor, op: Op, n: nat) {
    && Step(c, op, n).Some?
    && 0 <= Step(c, op, n).value.cx < SIZE && 0 <= Step(c, op, n).value.cy <= SIZE
  }

  /** While an accepted string is read the cursor never leaves the map. */
  lemma AcceptedStaysInMap(d: ByteString, c: Cursor)
    requires InRange(c) && d != [] && DecodeFrom(d, c).Ok?
    ensures ReadOp(d).Some? && StaysInMap(c, ReadOp(d).value.op, ReadOp(d).value.n)
    ensures var item := ReadOp(d).value;
            var next := Step(c, item.op, item.n).value;
            && DecodeFrom(d[item.length..], next) == DecodeFrom(d, c)
            && (d[item.length..] != [] ==> InRange(next))
  {
  }

  lemma StepBeforeCursor(c: Cursor, op: Op, n: nat)
    requires InRange(c) && BeforeCursor(c) && n >= 1 && StaysInMap(c, op, n)
    ensures BeforeCursor(Step(c, op, n).value)
    ensures op.Fill? || op.Skip? ==> c.cx + n <= SIZE
    ensures op.EmptyRows? || op.RepeatRow? ==> c.cx == 0 && c.cy + n <= SIZE
  {
  }

  lemma StepKeeps(rel: Relation, r: RegionId, l: Loader, c: Cursor, op: Op, n: nat)
    requires KeptByAdding(rel, r) && KeptByCopying(rel, r) && rel(l.ix, c.tiles) && SamePlace(l, c)
    requires InRange(c) && BeforeCursor(c) && n >= 1 && StaysInMap(c, op, n)
    ensures LoadStep(r, l, op, n).Some?
    ensures rel(LoadStep(r, l, op, n).value.ix, Step(c, op, n).value.tiles)
    ensures SamePlace(LoadStep(r, l, op, n).value, Step(c, op, n).value)
  {
    StepBeforeCursor(c, op, n);
    match op
    case Skip =>
    case Fill => RunKeeps(rel, l.ix, r, c.tiles, c.cx, c.cy, n);
    case EmptyRows =>
    case RepeatRow => RepeatKeeps(rel, r, l.ix, c.tiles, c.cy, n);
  }

  lemma RepeatKeeps(rel: Relation, r: RegionId, ix: Index, tiles: Tiles, cy: int, n: nat)
    requires KeptByCopying(rel, r) && rel(ix, tiles) && 0 < cy && cy + n <= SIZE && Above(tiles, cy)
    requires forall t | t in tiles :: InMap(t.0, t.1)
    ensures rel(PaintRows(ix, r, cy - 1, cy, n), tiles + Repeated(tiles, cy, n))
  {
    RowIsKept(rel, r, cy - 1);
    RowsKeep((ix, tiles, y) => rel(ix, tiles) && Above(tiles, y), ix, r, tiles, cy - 1, cy, n);
    RowsRepeated(tiles, cy, n);
  }

  lemma {:induction false} LoadKeeps(rel: Relation, d: ByteString, r: RegionId, l: Loader, c: Cursor)
    requires KeptByAdding(rel, r) && KeptByCopying(rel, r) && rel(l.ix, c.tiles) && SamePlace(l, c)
    requires BeforeCursor(c) && (d != [] ==> InRange(c)) && DecodeFrom(d, c).Ok?
    ensures rel(LoadFrom(d, r, l).end.ix, DecodeFrom(d, c).value)
    ensures forall t | t in DecodeFrom(d, c).value :: InMap(t.0, t.1)
    decreases |d|
  {
    if d != [] {
      AcceptedStaysInMap(d, c);
      var item := ReadOp(d).value;
      StepKeeps(rel, r, l, c, item.op, item.n);
      StepBeforeCursor(c, item.op, item.n);
      LoadKeeps(rel, d[item.length..], r, LoadStep(r, l, item.op, item.n).value, Step(c, item.op, item.n).value);
    }
  }

  lemma NewShows(ix: Index, r: RegionId)
    requires IndexOk(ix, r) && Unused(ix, r)
    ensures Shows(ix, ix, r, {})
  {
  }

  /** For every string region.py decodes, loading it here returns TRUE, leaves every
      other region as it was, and gives the region exactly the decoded tiles, unless the
      limit on sets was reached, in which case it has no others. */
  lemma LoadsWhatDecodes(d: ByteString, r: RegionId, ix: Index)
    requires IndexOk(ix, r) && Unused(ix, r)
    ensures Load(d, r, ix).ok <==> Decode(d).Ok?
    ensures Decode(d).Ok? ==> Shows(ix, Load(d, r, ix).end.ix, r, Decode(d).value)
    ensures Decode(d).Ok? ==> forall t | t in Decode(d).value :: InMap(t.0, t.1)
  {
    SameVerdict(d, r, Start(ix), Cursor(0, 0, {}));
    if Decode(d).Ok? {
      NewShows(ix, r);
      ShowsKept(ix, r);
      LoadKeeps((ix', tiles) => Shows(ix, ix', r, tiles), d, r, Start(ix), Cursor(0, 0, {}));
    }
  }
}
