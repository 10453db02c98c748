/** The rectangles read_rle_tile_data records, and random points drawn from them. */
module RegionRects {
  import opened Options
  import opened Bytes
  import opened TileMap
  import opened RegionCodec
  import opened RegionIndex
  import opened RegionLoad

  predicate In(e: Rect, t: Tile) { e.x <= t.0 < e.x + e.width && e.y <= t.1 < e.y + e.height }

  ghost predicate Solid(list: seq<Rect>) { forall k | 0 <= k < |list| :: list[k].width >= 1 && list[k].height >= 1 }

  ghost predicate Disjoint(list: seq<Rect>) {
    forall j, k, t | 0 <= j < k < |list| && In(list[j], t) :: !In(list[k], t)
  }

  ghost predicate Inside(list: seq<Rect>, tiles: Tiles) {
    forall k, t | 0 <= k < |list| && In(list[k], t) :: t in tiles
  }

  ghost predicate Covered(list: seq<Rect>, t: Tile) { exists k :: 0 <= k < |list| && In(list[k], t) }

  /** The rectangles partition the tiles. */
  ghost predicate Partition(list: seq<Rect>, tiles: Tiles) {
    Solid(list) && Disjoint(list) && Inside(list, tiles) && forall t | t in tiles :: Covered(list, t)
  }

  function AreaFrom(list: seq<Rect>, k: nat): int
    decreases |list| - k
  {
    if k >= |list| then 0 else list[k].width * list[k].height + AreaFrom(list, k + 1)
  }

  // ------------------------------------------------- when a repeat is stale

  predicate RowTaken(tiles: Tiles, y: int) { exists t :: t in tiles && t.1 == y }

  /** Every op 3 repeats a row with something in it, unless there is nothing at all yet. */
  predicate NoStaleRepeat(d: ByteString, c: Cursor)
    decreases |d|
  {
    if d == [] || !InRange(c) || ReadOp(d).None? then true
    else
      var item := ReadOp(d).value;
      (item.op.RepeatRow? && c.tiles != {} ==> RowTaken(c.tiles, c.cy - 1))
      && match Step(c, item.op, item.n)
         case None => true
         case Some(next) => NoStaleRepeat(d[item.length..], next)
  }

  // -------------------------------------------------------------- invariant

  /** Entries from `from` on end at lastRow, all others above it. */
  ghost predicate Layered(b: Rects) {
    && b.from <= |b.list| && (b.list == [] || b.from < |b.list|) && Solid(b.list)
    && (forall k | b.from <= k < |b.list| :: b.list[k].y + b.list[k].height == b.lastRow + 1)
    && (forall k | 0 <= k < b.from :: b.list[k].y + b.list[k].height <= b.lastRow)
  }

  ghost predicate RectsOk(c: Cursor, b: Rects) {
    && Layered(b) && b.lastRow <= c.cy && (c.cx == 0 ==> b.lastRow < c.cy)
    && Partition(b.list, c.tiles)
    && b.tiles == AreaFrom(b.list, 0)
  }

  lemma {:induction false} AreaPlus(list: seq<Rect>, e: Rect, k: nat)
    requires k <= |list|
    ensures AreaFrom(list + [e], k) == AreaFrom(list, k) + e.width * e.height
    decreases |list| - k
  {
    if k < |list| {
      AreaPlus(list, e, k + 1);
    } else {
      assert AreaFrom(list + [e], k) == e.width * e.height + AreaFrom(list + [e], k + 1);
    }
  }

  lemma Distribute(n: int, a: int, b: int)
    ensures n * (a + b) == n * a + n * b && (a + b) * n == a * n + b * n
  {
  }

  lemma {:induction false} AreaStretched(list: seq<Rect>, from: nat, n: nat, k: nat)
    requires from <= |list| && k <= |list|
    ensures AreaFrom(Stretched(list, from, n), k)
            == AreaFrom(list, k) + n * WidthFrom(list, if k < from then from else k)
    decreases |list| - k
  {
    if k < |list| {
      AreaStretched(list, from, n, k + 1);
      Distribute(list[k].width, list[k].height, n);
      Distribute(n, list[k].width, WidthFrom(list, k + 1));
    }
  }

  lemma CountStretched(b: Rects, y: int, n: nat)
    requires b.from <= |b.list| && b.tiles == AreaFrom(b.list, 0)
    ensures b.Stretch(y, n).tiles == AreaFrom(b.Stretch(y, n).list, 0)
  {
    AreaStretched(b.list, b.from, n, 0);
  }

  lemma NewEntry(c: Cursor, b: Rects, n: nat)
    requires InRange(c) && BeforeCursor(c) && RectsOk(c, b) && n >= 1
    ensures Layered(b.Run(c.cx, c.cy, n)) && Partition(b.Run(c.cx, c.cy, n).list, c.tiles + Span(c.cx, c.cy, n))
    ensures b.Run(c.cx, c.cy, n).tiles == AreaFrom(b.Run(c.cx, c.cy, n).list, 0)
  {
    var e := Rect(c.cx, c.cy, n, 1);
    AreaPlus(b.list, e, 0);
    assert forall t :: In(e, t) <==> t in Span(c.cx, c.cy, n);
    EntryPartitions(b.list, c.tiles, e, Span(c.cx, c.cy, n));
  }

  lemma EntryPartitions(list: seq<Rect>, tiles: Tiles, e: Rect, span: Tiles)
    requires Partition(list, tiles) && e.width >= 1 && e.height >= 1 && tiles !! span
    requires forall t :: In(e, t) <==> t in span
    ensures Partition(list + [e], tiles + span)
  {
    var more := list + [e];
    forall t | t in tiles + span ensures Covered(more, t) {
      if t in tiles {
        var k :| 0 <= k < |list| && In(list[k], t);
        assert In(more[k], t);
      } else {
        assert In(more[|list|], t);
      }
    }
  }

  lemma StretchedInAt(b: Rects, n: nat, k: nat, t: Tile)
    requires Layered(b) && k < |b.list|
    ensures In(Stretched(b.list, b.from, n)[k], t) <==>
              In(b.list[k], t) || (b.lastRow < t.1 <= b.lastRow + n && In(b.list[k], (t.0, b.lastRow)))
  {
  }

  lemma StretchPartitions(b: Rects, tiles: Tiles, n: nat)
    requires Layered(b) && Partition(b.list, tiles) && b.lastRow >= 0
    requires forall t | t in tiles :: t.1 <= b.lastRow && 0 <= t.0 < SIZE
    ensures Partition(Stretched(b.list, b.from, n), tiles + Repeated(tiles, b.lastRow + 1, n))
  {
    var list, grown := b.list, Stretched(b.list, b.from, n);
    var more := tiles + Repeated(tiles, b.lastRow + 1, n);
    forall k, t | 0 <= k < |grown| && In(grown[k], t) ensures t in more {
      StretchedInAt(b, n, k, t);
    }
    forall t | t in more ensures Covered(grown, t) {
      var u := if t in tiles then t else (t.0, b.lastRow);
      var k :| 0 <= k < |list| && In(list[k], u);
      StretchedInAt(b, n, k, t);
    }
    forall j, k, t | 0 <= j < k < |grown| && In(grown[j], t) ensures !In(grown[k], t) {
      StretchedInAt(b, n, j, t);
      StretchedInAt(b, n, k, t);
      assert In(list[j], t) ==> t.1 <= b.lastRow;
      assert In(list[k], t) ==> t.1 <= b.lastRow;
    }
  }

  lemma StepRects(r: RegionId, l: Loader, c: Cursor, op: Op, n: nat)
    requires SamePlace(l, c) && RectsOk(c, l.rects)
    requires InRange(c) && BeforeCursor(c) && n >= 1 && StaysInMap(c, op, n) && LoadStep(r, l, op, n).Some?
    requires op.RepeatRow? && c.tiles != {} ==> RowTaken(c.tiles, c.cy - 1)
    ensures RectsOk(Step(c, op, n).value, LoadStep(r, l, op, n).value.rects)
  {
    StepBeforeCursor(c, op, n);
    match op
    case Skip =>
    case Fill => NewEntry(c, l.rects, n);
    case EmptyRows =>
    case RepeatRow => RepeatRects(c, l.rects, n);
  }

  lemma EntryHasTile(list: seq<Rect>, tiles: Tiles)
    requires Solid(list) && Inside(list, tiles)
    ensures list != [] ==> tiles != {}
  {
    if list != [] {
      var t := (list[0].x, list[0].y);
      assert In(list[0], t);
      assert t in tiles;
    }
  }

  lemma NothingBelow(b: Rects, tiles: Tiles)
    requires Layered(b) && Partition(b.list, tiles)
    ensures forall t | t in tiles :: t.1 <= b.lastRow
  {
  }

  lemma LastRowTaken(c: Cursor, b: Rects)
    requires RectsOk(c, b) && c.cx == 0
    ensures RowTaken(c.tiles, c.cy - 1) ==> b.lastRow == c.cy - 1
    ensures c.tiles != {} && !RowTaken(c.tiles, c.cy - 1) ==> b.list != [] && b.lastRow < c.cy - 1
  {
    if RowTaken(c.tiles, c.cy - 1) {
      var t :| t in c.tiles && t.1 == c.cy - 1;
      var k :| 0 <= k < |b.list| && In(b.list[k], t);
    } else if c.tiles != {} {
      var t :| t in c.tiles;
      assert Covered(b.list, t);
      var e := b.list[|b.list| - 1];
      assert In(e, (e.x, b.lastRow));
    }
  }

  lemma RepeatRects(c: Cursor, b: Rects, n: nat)
    requires RectsOk(c, b) && BeforeCursor(c) && InRange(c) && c.cx == 0 && c.cy > 0 && n >= 1
    requires c.tiles != {} ==> RowTaken(c.tiles, c.cy - 1)
    ensures RectsOk(Cursor(0, c.cy + n, c.tiles + Repeated(c.tiles, c.cy, n)), b.Stretch(c.cy, n))
  {
    CountStretched(b, c.cy, n);
    if c.tiles == {} {
      EntryHasTile(b.list, c.tiles);
    } else {
      LastRowTaken(c, b);
      StretchPartitions(b, c.tiles, n);
    }
  }

  // -------------------------------------------------------- a stale repeat

  /** Some entry reaches over a tile the decoder has passed without painting it. */
  ghost predicate Astray(c: Cursor, list: seq<Rect>) {
    exists k, t :: 0 <= k < |list| && In(list[k], t) && t !in c.tiles && t.1 < c.cy
  }

  lemma GoesAstray(c: Cursor, b: Rects, n: nat)
    requires RectsOk(c, b) && BeforeCursor(c) && c.cx == 0 && n >= 1
    requires c.tiles != {} && !RowTaken(c.tiles, c.cy - 1)
    ensures Astray(Cursor(0, c.cy + n, c.tiles + Repeated(c.tiles, c.cy, n)), Stretched(b.list, b.from, n))
  {
    LastRowTaken(c, b);
    var k := |b.list| - 1;
    var e := b.list[k];
    var t := (e.x, b.lastRow + 1);
    assert In(Stretched(b.list, b.from, n)[k], t);
    NothingBelow(b, c.tiles);
  }

  lemma StaysAstray(r: RegionId, l: Loader, c: Cursor, op: Op, n: nat)
    requires SamePlace(l, c) && Astray(c, l.rects.list) && n >= 1
    requires Step(c, op, n).Some? && LoadStep(r, l, op, n).Some?
    ensures Astray(Step(c, op, n).value, LoadStep(r, l, op, n).value.rects.list)
  {
    var k, t :| 0 <= k < |l.rects.list| && In(l.rects.list[k], t) && t !in c.tiles && t.1 < c.cy;
    assert In(LoadStep(r, l, op, n).value.rects.list[k], t);
  }

  lemma {:induction false} EndsAstray(d: ByteString, r: RegionId, l: Loader, c: Cursor)
    requires SamePlace(l, c) && Astray(c, l.rects.list) && DecodeFrom(d, c).Ok?
    ensures !Inside(LoadFrom(d, r, l).end.rects.list, DecodeFrom(d, c).value)
    decreases |d|
  {
    if d != [] {
      AcceptedStaysInMap(d, c);
      var item := ReadOp(d).value;
      SameSteps(r, l, c, item.op, item.n);
      StaysAstray(r, l, c, item.op, item.n);
      EndsAstray(d[item.length..], r, LoadStep(r, l, item.op, item.n).value, Step(c, item.op, item.n).value);
    }
  }

  // ---------------------------------------------------------- main results

  lemma {:induction false} LoadedRects(d: ByteString, r: RegionId, l: Loader, c: Cursor)
    requires SamePlace(l, c) && RectsOk(c, l.rects)
    requires BeforeCursor(c) && (d != [] ==> InRange(c)) && DecodeFrom(d, c).Ok?
    ensures NoStaleRepeat(d, c) ==>
              Partition(LoadFrom(d, r, l).end.rects.list, DecodeFrom(d, c).value)
              && LoadFrom(d, r, l).end.rects.tiles == AreaFrom(LoadFrom(d, r, l).end.rects.list, 0)
    ensures !NoStaleRepeat(d, c) ==> !Inside(LoadFrom(d, r, l).end.rects.list, DecodeFrom(d, c).value)
    decreases |d|
  {
    if d != [] {
      AcceptedStaysInMap(d, c);
      var item := ReadOp(d).value;
      var l', c' := LoadStep(r, l, item.op, item.n).value, Step(c, item.op, item.n).value;
      SameSteps(r, l, c, item.op, item.n);
      StepBeforeCursor(c, item.op, item.n);
      if item.op.RepeatRow? && c.tiles != {} && !RowTaken(c.tiles, c.cy - 1) {
        GoesAstray(c, l.rects, item.n);
        EndsAstray(d[item.length..], r, l', c');
      } else {
        StepRects(r, l, c, item.op, item.n);
        LoadedRects(d[item.length..], r, l', c');
      }
    }
  }

  /** For every accepted string the recorded rectangles partition the painted tiles if
      and only if no op 3 repeats an empty row once something has been painted; and then
      their areas add up to the region's tile count. */
  lemma RectsPartitionIff(d: ByteString, r: RegionId, ix: Index)
    requires Decode(d).Ok?
    ensures Partition(Load(d, r, ix).end.rects.list, Decode(d).value) <==> NoStaleRepeat(d, Cursor(0, 0, {}))
    ensures NoStaleRepeat(d, Cursor(0, 0, {})) ==>
              Load(d, r, ix).end.rects.tiles == AreaFrom(Load(d, r, ix).end.rects.list, 0)
  {
    LoadedRects(d, r, Start(ix), Cursor(0, 0, {}));
  }
}
