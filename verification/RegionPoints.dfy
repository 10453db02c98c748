/** Random points: what the encoder writes never repeats an empty row, and then every
    index below a region's tile count names one tile and every tile has one index. */
module RegionPoints {
  import opened Options
  import opened Bytes
  import opened TileMap
  import opened RegionCodec
  import opened RegionRoundTrip
  import opened RegionIndex
  import opened RegionLoad
  import opened RegionRects

  // ------------------------------------------------ what the encoder writes

  predicate FreshOp(c: Cursor, op: Op) { op.RepeatRow? && c.tiles != {} ==> RowTaken(c.tiles, c.cy - 1) }

  lemma {:induction false} OpFresh(op: Op, n: nat, rest: ByteString, c: Cursor)
    requires 1 <= n <= 8192 && InRange(c) && FreshOp(c, op) && Step(c, op, n).Some?
    ensures NoStaleRepeat(OpBytes(op, n) + rest, c) <==> NoStaleRepeat(rest, Step(c, op, n).value)
  {
    OpRoundTrip(op, n, rest);
  }

  lemma {:induction false} OpStaysFresh(op: Op, n: nat, rest: ByteString, c: Cursor, next: Cursor)
    requires 1 <= n <= 8192 && InRange(c) && FreshOp(c, op) && Step(c, op, n) == Some(next)
    ensures NoStaleRepeat(OpBytes(op, n) + rest, c) <==> NoStaleRepeat(rest, next)
  {
    OpFresh(op, n, rest, c);
  }

  lemma {:induction false} RunFresh(row: Row, cx: nat, cy: int, tiles: Tiles, more: ByteString)
    requires cx < SIZE && 0 <= cy < SIZE
    ensures var e := RunEnd(row, cx, row[cx]);
            NoStaleRepeat(OpBytes(if row[cx] then Fill else Skip, e - cx) + more, Cursor(cx, cy, tiles))
            <==> NoStaleRepeat(more, AfterRun(row, cx, cy, tiles))
  {
    var e := RunEnd(row, cx, row[cx]);
    RunSteps(row, cx, cy, tiles);
    OpStaysFresh(if row[cx] then Fill else Skip, e - cx, more, Cursor(cx, cy, tiles), AfterRun(row, cx, cy, tiles));
  }

  lemma {:induction false} RowFresh(row: Row, cx: nat, cy: int, tiles: Tiles, rest: ByteString)
    requires cx < SIZE && 0 <= cy < SIZE
    ensures NoStaleRepeat(RowBytes(row, cx) + rest, Cursor(cx, cy, tiles))
            <==> NoStaleRepeat(rest, Cursor(0, cy + 1, tiles + RowTiles(row, cx, cy)))
    decreases SIZE - cx
  {
    var e := RunEnd(row, cx, row[cx]);
    RowBytesSplit(row, cx, rest);
    RunFresh(row, cx, cy, tiles, RowBytes(row, e) + rest);
    PaintedRow(row, cx, cy, tiles);
    if e < SIZE {
      RowFresh(row, e, cy, PaintedRun(row, cx, cy, tiles), rest);
    }
  }

  lemma RepeatFresh(row: Row, n: nat, cy: int, tiles: Tiles, rest: ByteString)
    requires 1 < n && 0 <= cy && cy + n <= SIZE && !IsEmptyRow(row) && forall x :: (x, cy) !in tiles
    ensures NoStaleRepeat(OpBytes(RepeatRow, n - 1) + rest, Cursor(0, cy + 1, tiles + RowTiles(row, 0, cy)))
            <==> NoStaleRepeat(rest, Cursor(0, cy + n, tiles + Block(row, cy, n)))
  {
    var x :| 0 <= x < SIZE && row[x];
    var c := Cursor(0, cy + 1, tiles + RowTiles(row, 0, cy));
    assert (x, cy) in c.tiles;
    RepeatSteps(row, n, cy, tiles);
    OpFresh(RepeatRow, n - 1, rest, c);
  }

  lemma OneRowFresh(row: Row, cy: int, tiles: Tiles, rest: ByteString)
    requires 0 <= cy < SIZE
    ensures NoStaleRepeat(RowBytes(row, 0) + rest, Cursor(0, cy, tiles))
            <==> NoStaleRepeat(rest, Cursor(0, cy + 1, tiles + Block(row, cy, 1)))
  {
    RowFresh(row, 0, cy, tiles, rest);
    OneRowBlock(row, cy, tiles);
  }

  lemma {:induction false} EmptyGroupFresh(row: Row, n: nat, cy: int, tiles: Tiles, rest: ByteString)
    requires 1 <= n <= SIZE && 0 <= cy < SIZE && IsEmptyRow(row)
    ensures NoStaleRepeat(OpBytes(EmptyRows, n) + rest, Cursor(0, cy, tiles))
            <==> NoStaleRepeat(rest, Cursor(0, cy + n, tiles + Block(row, cy, n)))
  {
    EmptyBlock(row, n, cy, tiles);
    EmptyStep(n, cy, tiles);
    OpFresh(EmptyRows, n, rest, Cursor(0, cy, tiles));
  }

  lemma {:induction false} EmptyCaseFresh(row: Row, n: nat, cy: int, tiles: Tiles, rest: ByteString)
    requires 1 <= n <= SIZE && 0 <= cy && cy + n <= SIZE && IsEmptyRow(row)
    requires forall x :: (x, cy) !in tiles
    requires GroupBytes(EncodedRow(row), n).Ok?
    ensures NoStaleRepeat(GroupBytes(EncodedRow(row), n).value + rest, Cursor(0, cy, tiles))
            <==> NoStaleRepeat(rest, Cursor(0, cy + n, tiles + Block(row, cy, n)))
  {
    assert GroupBytes(EncodedRow(row), n).value == OpBytes(EmptyRows, n);
    EmptyGroupFresh(row, n, cy, tiles, rest);
  }

  lemma {:induction false} SingleCaseFresh(row: Row, n: nat, cy: int, tiles: Tiles, rest: ByteString)
    requires 1 <= n <= SIZE && 0 <= cy && cy + n <= SIZE && !IsEmptyRow(row) && n == 1
    requires forall x :: (x, cy) !in tiles
    requires GroupBytes(EncodedRow(row), n).Ok?
    ensures NoStaleRepeat(GroupBytes(EncodedRow(row), n).value + rest, Cursor(0, cy, tiles))
            <==> NoStaleRepeat(rest, Cursor(0, cy + n, tiles + Block(row, cy, n)))
  {
    assert GroupBytes(EncodedRow(row), n).value == RowBytes(row, 0);
    OneRowFresh(row, cy, tiles, rest);
  }

  lemma {:induction false} RepeatedCaseFresh(row: Row, n: nat, cy: int, tiles: Tiles, rest: ByteString)
    requires 1 <= n <= SIZE && 0 <= cy && cy + n <= SIZE && !IsEmptyRow(row) && n > 1
    requires forall x :: (x, cy) !in tiles
    requires GroupBytes(EncodedRow(row), n).Ok?
    ensures NoStaleRepeat(GroupBytes(EncodedRow(row), n).value + rest, Cursor(0, cy, tiles))
            <==> NoStaleRepeat(rest, Cursor(0, cy + n, tiles + Block(row, cy, n)))
  {
    assert GroupBytes(EncodedRow(row), n).value == RowBytes(row, 0) + OpBytes(RepeatRow, n - 1);
    WrittenOnceFresh(row, n, cy, tiles, rest);
  }

  lemma {:induction false} GroupFresh(row: Row, n: nat, cy: int, tiles: Tiles, rest: ByteString)
    requires 1 <= n <= SIZE && 0 <= cy && cy + n <= SIZE
    requires forall x :: (x, cy) !in tiles
    requires GroupBytes(EncodedRow(row), n).Ok?
    ensures NoStaleRepeat(GroupBytes(EncodedRow(row), n).value + rest, Cursor(0, cy, tiles))
            <==> NoStaleRepeat(rest, Cursor(0, cy + n, tiles + Block(row, cy, n)))
  {
    if IsEmptyRow(row) {
      EmptyCaseFresh(row, n, cy, tiles, rest);
    } else if n == 1 {
      SingleCaseFresh(row, n, cy, tiles, rest);
    } else {
      RepeatedCaseFresh(row, n, cy, tiles, rest);
    }
  }

  lemma {:induction false} WrittenOnceFresh(row: Row, n: nat, cy: int, tiles: Tiles, rest: ByteString)
    requires 1 < n <= SIZE && 0 <= cy && cy + n <= SIZE && !IsEmptyRow(row) && forall x :: (x, cy) !in tiles
    ensures NoStaleRepeat(RowBytes(row, 0) + OpBytes(RepeatRow, n - 1) + rest, Cursor(0, cy, tiles))
            <==> NoStaleRepeat(rest, Cursor(0, cy + n, tiles + Block(row, cy, n)))
  {
    var more := OpBytes(RepeatRow, n - 1) + rest;
    assert RowBytes(row, 0) + OpBytes(RepeatRow, n - 1) + rest == RowBytes(row, 0) + more;
    RowFresh(row, 0, cy, tiles, more);
    RepeatFresh(row, n, cy, tiles, rest);
  }

  lemma {:induction false} GroupLeads(
      whole: ByteString, row: Row, n: nat, cy: int, tiles: Tiles, tiles': Tiles, rest: ByteString)
    requires 1 <= n <= SIZE && 0 <= cy && cy + n <= SIZE && forall x :: (x, cy) !in tiles
    requires GroupBytes(EncodedRow(row), n).Ok? && whole == GroupBytes(EncodedRow(row), n).value + rest
    requires tiles' == tiles + Block(row, cy, n)
    ensures NoStaleRepeat(whole, Cursor(0, cy, tiles)) <==> NoStaleRepeat(rest, Cursor(0, cy + n, tiles'))
  {
    GroupFresh(row, n, cy, tiles, rest);
  }

  lemma {:induction false} LinkFresh(c: Chain, y: nat)
    requires Link(c, y) && c.ok(y)
    ensures NoStaleRepeat(c.bytes(y), Cursor(0, y, c.have(y)))
            <==> NoStaleRepeat(c.bytes(c.ends(y)), Cursor(0, c.ends(y), c.have(c.ends(y))))
  {
    GroupLeads(c.bytes(y), c.row(y), c.ends(y) - y, y, c.have(y), c.have(c.ends(y)), c.bytes(c.ends(y)));
  }

  lemma {:induction false} ChainFresh(c: Chain)
    requires Linked(c) && c.ok(0)
    ensures NoStaleRepeat(c.bytes(0), Cursor(0, 0, c.have(0)))
            <==> NoStaleRepeat(c.bytes(SIZE), Cursor(0, SIZE, c.have(SIZE)))
  {
    var at := (y: nat) => NoStaleRepeat(c.bytes(y), Cursor(0, y, c.have(y)));
    forall z: nat | z < SIZE && c.ok(z) ensures at(z) == at(c.ends(z)) {
      assert Link(c, z);
      LinkFresh(c, z);
    }
    ChainSteps(c, at, 0);
  }

  /** The encoder repeats a row only right after writing it. */
  lemma EncodedIsFresh(tiles: Tiles)
    requires Encode(tiles).Ok?
    ensures NoStaleRepeat(Encode(tiles).value, Cursor(0, 0, {}))
  {
    var c := ChainOf(tiles);
    ChainIsLinked(tiles);
    ChainFresh(c);
    assert c.have(0) == {} && c.bytes(SIZE) == [];
  }

  // ------------------------------------------------------- a stale string

  /** Row 0 filled, one empty row, and the empty row repeated to the end. */
  const STALE: ByteString := OpBytes(Fill, 1024) + (OpBytes(EmptyRows, 1) + OpBytes(RepeatRow, 1022))

  /** The string is accepted and paints row 0 only, but its rectangle covers more. */
  lemma StaleRepeatStretches(r: RegionId, ix: Index)
    ensures Decode(STALE) == Ok(Span(0, 0, 1024))
    ensures !Partition(Load(STALE, r, ix).end.rects.list, Span(0, 0, 1024))
  {
    var c0, c1 := Cursor(0, 0, {}), Cursor(0, 1, Span(0, 0, 1024));
    var c2, c3 := Cursor(0, 2, c1.tiles), Cursor(0, 1024, c1.tiles);
    var d1 := OpBytes(EmptyRows, 1) + OpBytes(RepeatRow, 1022);
    var d2 := OpBytes(RepeatRow, 1022) + [];
    assert d1 == OpBytes(EmptyRows, 1) + d2;
    assert {} + Span(0, 0, 1024) == Span(0, 0, 1024);
    assert c2.tiles + Repeated(c2.tiles, 2, 1022) == c2.tiles;
    OpDecodes(Fill, 1024, d1, c0);
    OpDecodes(EmptyRows, 1, d2, c1);
    OpDecodes(RepeatRow, 1022, [], c2);
    OpFresh(Fill, 1024, d1, c0);
    OpFresh(EmptyRows, 1, d2, c1);
    OpRoundTrip(RepeatRow, 1022, []);
    assert (0, 0) in c2.tiles && !RowTaken(c2.tiles, 1);
    RectsPartitionIff(STALE, r, ix);
  }

  // ----------------------------------------------------------------- points

  /** FindRandomPoint's walk down the list; None is its error branch. */
  function PointFrom(list: seq<Rect>, k: nat, i: nat): Option<Tile>
    decreases |list| - k
  {
    if k >= |list| then None
    else
      var e := list[k];
      var n := e.width * e.height;
      if i < n then Some((e.x + i % e.width, e.y + i / e.width)) else PointFrom(list, k + 1, i - n)
  }

  /** The other way: the index of a tile of the rectangles from k on. */
  function IndexFrom(list: seq<Rect>, k: nat, t: Tile): int
    decreases |list| - k
  {
    if k >= |list| then 0
    else
      var e := list[k];
      if In(e, t) then (t.1 - e.y) * e.width + (t.0 - e.x)
      else e.width * e.height + IndexFrom(list, k + 1, t)
  }

  lemma RowMajor(w: int, h: int, i: int)
    requires w >= 1 && 0 <= i < w * h
    ensures 0 <= i % w < w && 0 <= i / w < h && (i / w) * w + i % w == i
  {
  }

  lemma Product(a: int, b: int, w: int)
    requires a <= b && w >= 0
    ensures a * w <= b * w
  {
  }

  lemma RowMajorBack(w: int, h: int, x: int, y: int)
    requires 0 <= x < w && 0 <= y < h
    ensures 0 <= y * w + x < w * h
    ensures (y * w + x) % w == x && (y * w + x) / w == y
  {
    Product(y + 1, h, w);
    Product(0, y, w);
    var i := y * w + x;
    var q, m := i / w, i % w;
    assert i == q * w + m;
    if q < y { Product(q + 1, y, w); } else if q > y { Product(y + 1, q, w); }
  }

  /** Index to tile and back. */
  lemma {:induction false} PointOfIndex(list: seq<Rect>, k: nat, i: int)
    requires Solid(list) && Disjoint(list) && k <= |list| && 0 <= i < AreaFrom(list, k)
    ensures PointFrom(list, k, i).Some? && IndexFrom(list, k, PointFrom(list, k, i).value) == i
    ensures exists j :: k <= j < |list| && In(list[j], PointFrom(list, k, i).value)
    decreases |list| - k
  {
    var e := list[k];
    if i < e.width * e.height {
      RowMajor(e.width, e.height, i);
      assert In(list[k], PointFrom(list, k, i).value);
    } else {
      PointOfIndex(list, k + 1, i - e.width * e.height);
    }
  }

  /** Tile to index and back. */
  lemma {:induction false} IndexOfPoint(list: seq<Rect>, k: nat, j: nat, t: Tile)
    requires Solid(list) && k <= j < |list| && In(list[j], t)
    ensures 0 <= IndexFrom(list, k, t) < AreaFrom(list, k)
    ensures PointFrom(list, k, IndexFrom(list, k, t)) == Some(t)
    decreases |list| - k
  {
    var e := list[k];
    AreaPositive(list, k + 1);
    if In(e, t) {
      RowMajorBack(e.width, e.height, t.0 - e.x, t.1 - e.y);
    } else {
      IndexOfPoint(list, k + 1, j, t);
    }
  }

  lemma {:induction false} AreaPositive(list: seq<Rect>, k: nat)
    requires Solid(list)
    ensures AreaFrom(list, k) >= 0
    decreases |list| - k
  {
    if k < |list| {
      Product(0, list[k].height, list[k].width);
      AreaPositive(list, k + 1);
    }
  }

  /** PointFrom is a bijection from the indices below `count` onto the tiles. */
  ghost predicate Bijection(list: seq<Rect>, count: int, tiles: Tiles) {
    && (forall i | 0 <= i < count :: PointFrom(list, 0, i).Some? && PointFrom(list, 0, i).value in tiles)
    && (forall i, j | 0 <= i < j < count :: PointFrom(list, 0, i) != PointFrom(list, 0, j))
    && (forall t | t in tiles :: exists i :: 0 <= i < count && PointFrom(list, 0, i) == Some(t))
  }

  lemma PartitionBijection(list: seq<Rect>, tiles: Tiles)
    requires Partition(list, tiles)
    ensures Bijection(list, AreaFrom(list, 0), tiles)
  {
    forall i | 0 <= i < AreaFrom(list, 0)
      ensures PointFrom(list, 0, i).Some? && PointFrom(list, 0, i).value in tiles
      ensures IndexFrom(list, 0, PointFrom(list, 0, i).value) == i
    {
      PointOfIndex(list, 0, i);
    }
    forall t | t in tiles ensures exists i :: 0 <= i < AreaFrom(list, 0) && PointFrom(list, 0, i) == Some(t) {
      var j :| 0 <= j < |list| && In(list[j], t);
      IndexOfPoint(list, 0, j, t);
    }
  }

  lemma {:induction false} BijectionCount(list: seq<Rect>, count: nat, tiles: Tiles)
    requires Bijection(list, count, tiles)
    ensures |tiles| == count
    decreases count
  {
    if count == 0 {
      assert tiles == {};
    } else {
      var t := PointFrom(list, 0, count - 1).value;
      BijectionCount(list, count - 1, tiles - {t});
    }
  }

  /** Once an encoded region has been loaded, rgn->tiles is the number of its tiles and
      FindRandomPoint maps the numbers below it one to one onto them. */
  lemma RandomPointsOfEncoded(tiles: Tiles, r: RegionId, ix: Index)
    requires Encode(tiles).Ok?
    ensures var b := Load(Encode(tiles).value, r, ix).end.rects;
            && Partition(b.list, OnMap(tiles)) && Bijection(b.list, b.tiles, OnMap(tiles))
            && b.tiles == |OnMap(tiles)|
  {
    var d := Encode(tiles).value;
    var b := Load(d, r, ix).end.rects;
    RoundTrip(tiles);
    EncodedIsFresh(tiles);
    RectsPartitionIff(d, r, ix);
    PartitionBijection(b.list, OnMap(tiles));
    AreaPositive(b.list, 0);
    BijectionCount(b.list, b.tiles, OnMap(tiles));
  }
}
