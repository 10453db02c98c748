/** The bytes of a region's tile data as mapdata.c reads them, said by the format alone. */
module RegionLoadBits {
  import opened Options
  import opened Bytes
  import opened TileMap
  import opened RegionCodec
  import opened RegionIndex
  import opened RegionLoad
  import opened RegionBits

  /** read_rle_tile_data returns TRUE for exactly the strings the format allows, and leaves
      the region with exactly the tiles it gives them, unless the limit on sets was
      reached, in which case it has no others. */
  lemma LoadReads(d: ByteString, r: RegionId, ix: Index)
    requires IndexOk(ix, r) && Unused(ix, r)
    ensures Load(d, r, ix).ok <==> Reads(d, 0, 0, {}).Some?
    ensures Load(d, r, ix).ok ==> Shows(ix, Load(d, r, ix).end.ix, r, Reads(d, 0, 0, {}).value)
  {
    LoadsWhatDecodes(d, r, ix);
    DecodeReads(d, Cursor(0, 0, {}));
  }

  /** Where a run of n tiles leads. */
  predicate MovesOn(l: Loader, l1: Loader, n: int) {
    if l.cx + n == 1024 then l1.cx == 0 && l1.cy == l.cy + 1 else l1.cx == l.cx + n && l1.cy == l.cy
  }

  /** Room for n tiles in the row, or for n rows that start where a row starts. */
  predicate Fits(l: Loader, code: int, n: int) {
    if code <= 1 then l.cx + n <= 1024 else l.cx == 0 && l.cy + n <= 1024 && (code == 3 ==> l.cy > 0)
  }

  /** What an op of this code and count does: 0 and 2 paint nothing, 1 exactly the n tiles
      from the present one on, 3 the last row in each of the next n. `shows` is how index
      and tiles belong together. */
  predicate Paints(shows: Relation, tiles: Tiles, l: Loader, l1: Loader, code: int, n: int) {
    match code
    case 0 => l1.ix == l.ix && l1.rects == l.rects && MovesOn(l, l1, n)
    case 1 =>
      && shows(l1.ix, tiles + set u | l.cx <= u < l.cx + n :: (u, l.cy))
      && l1.rects.tiles == l.rects.tiles + n && MovesOn(l, l1, n)
    case 2 => l1 == l.(cy := l.cy + n)
    case _ => shows(l1.ix, tiles + Again(tiles, l.cy, n)) && l1.cx == 0 && l1.cy == l.cy + n
  }

  /** The op d begins with, in the middle of a chunk: whatever the tiles painted so far are,
      it paints what the format says and goes on behind it. */
  lemma FirstOpLoads(was: Index, d: ByteString, r: RegionId, l: Loader, tiles: Tiles) returns (l1: Loader)
    requires d != [] && InMap(l.cx, l.cy) && (HasSecond(d[0]) ==> |d| >= 2)
    requires Shows(was, l.ix, r, tiles) && BeforeCursor(Cursor(l.cx, l.cy, tiles))
    requires Fits(l, TopBits(d[0]), CountOf(d))
    ensures LoadFrom(d, r, l) == LoadFrom(d[if HasSecond(d[0]) then 2 else 1..], r, l1)
    ensures Paints((ix, ts) => Shows(was, ix, r, ts), tiles, l, l1, TopBits(d[0]), CountOf(d))
  {
    var op := OpAt(d);
    l1 := StepLoads(was, r, l, tiles, op, CountOf(d));
    LoadUnfolds(d, r, l, op, l1);
  }

  /** The op d begins with, by its code. */
  lemma OpAt(d: ByteString) returns (op: Op)
    requires d != [] && (HasSecond(d[0]) ==> |d| >= 2)
    ensures CodeOf(op) == TopBits(d[0]) && CountOf(d) >= 1
    ensures ReadOp(d) == Some(Item(op, CountOf(d), if HasSecond(d[0]) then 2 else 1))
  {
    ReadsOp(d);
    op := ReadOp(d).value.op;
  }

  lemma LoadUnfolds(d: ByteString, r: RegionId, l: Loader, op: Op, l1: Loader)
    requires d != [] && InMap(l.cx, l.cy) && (HasSecond(d[0]) ==> |d| >= 2) && CountOf(d) >= 1
    requires ReadOp(d) == Some(Item(op, CountOf(d), if HasSecond(d[0]) then 2 else 1))
    requires LoadStep(r, l, op, CountOf(d)) == Some(l1)
    ensures LoadFrom(d, r, l) == LoadFrom(d[if HasSecond(d[0]) then 2 else 1..], r, l1)
  {
  }

  lemma StepLoads(was: Index, r: RegionId, l: Loader, tiles: Tiles, op: Op, n: nat) returns (l1: Loader)
    requires InMap(l.cx, l.cy) && n >= 1 && Shows(was, l.ix, r, tiles) && BeforeCursor(Cursor(l.cx, l.cy, tiles))
    requires Fits(l, CodeOf(op), n)
    ensures LoadStep(r, l, op, n) == Some(l1)
    ensures Paints((ix, ts) => Shows(was, ix, r, ts), tiles, l, l1, CodeOf(op), n)
  {
    if op.Fill? { FillLoads(was, r, l, tiles, n); }
    if op.RepeatRow? { RepeatLoads(was, r, l, tiles, n); }
    l1 := StepPaints((ix, ts) => Shows(was, ix, r, ts), r, l, tiles, op, n);
  }

  lemma StepPaints(shows: Relation, r: RegionId, l: Loader, tiles: Tiles, op: Op, n: nat) returns (l1: Loader)
    requires InMap(l.cx, l.cy) && n >= 1 && Fits(l, CodeOf(op), n)
    requires op.Fill? ==> shows(PaintRun(l.ix, r, l.cx, l.cy, n), tiles + set u | l.cx <= u < l.cx + n :: (u, l.cy))
    requires op.RepeatRow? ==> shows(PaintRows(l.ix, r, l.cy - 1, l.cy, n), tiles + Again(tiles, l.cy, n))
    ensures LoadStep(r, l, op, n) == Some(l1) && Paints(shows, tiles, l, l1, CodeOf(op), n)
  {
    l1 := LoadStep(r, l, op, n).value;
  }

  lemma FillLoads(was: Index, r: RegionId, l: Loader, tiles: Tiles, n: nat)
    requires InMap(l.cx, l.cy) && Shows(was, l.ix, r, tiles) && BeforeCursor(Cursor(l.cx, l.cy, tiles)) && l.cx + n <= 1024
    ensures Shows(was, PaintRun(l.ix, r, l.cx, l.cy, n), r, tiles + set u | l.cx <= u < l.cx + n :: (u, l.cy))
  {
    ShowsKept(was, r);
    RunKeeps((ix, ts) => Shows(was, ix, r, ts), l.ix, r, tiles, l.cx, l.cy, n);
    assert Span(l.cx, l.cy, n) == set u | l.cx <= u < l.cx + n :: (u, l.cy);
  }

  lemma RepeatLoads(was: Index, r: RegionId, l: Loader, tiles: Tiles, n: nat)
    requires InMap(l.cx, l.cy) && Shows(was, l.ix, r, tiles) && BeforeCursor(Cursor(l.cx, l.cy, tiles))
    requires l.cx == 0 && 0 < l.cy && l.cy + n <= 1024
    ensures Shows(was, PaintRows(l.ix, r, l.cy - 1, l.cy, n), r, tiles + Again(tiles, l.cy, n))
  {
    ShowsKept(was, r);
    RepeatKeeps((ix, ts) => Shows(was, ix, r, ts), r, l.ix, tiles, l.cy, n);
    assert Repeated(tiles, l.cy, n) == Again(tiles, l.cy, n);
  }
}
