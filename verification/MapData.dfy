/** mapdata.c in place: the level's index and a region's rectangle list. */
module MapData {
  import opened Options
  import opened Bytes
  import opened TileMap
  import opened Bitmaps
  import opened RegionCodec
  import opened RegionIndex
  import opened RegionLoad
  import opened RegionRects
  import opened RegionPoints

  /** The sets the bitmaps stand for. */
  function Abstract(setmaps: map<RegionId, Bitmap>): map<RegionId, set<nat>> {
    map r | r in setmaps :: BitsIn(setmaps[r])
  }

  function SetmapOf(setmaps: map<RegionId, Bitmap>, r: RegionId): Bitmap {
    if r in setmaps then setmaps[r] else NO_BITS
  }

  lemma SetmapStandsFor(setmaps: map<RegionId, Bitmap>, r: RegionId)
    ensures BitsOf(Abstract(setmaps), r) == BitsIn(SetmapOf(setmaps, r))
  {
  }

  lemma MarkOneMore(setmaps: map<RegionId, Bitmap>, words: map<RegionId, set<nat>>, regions: seq<RegionId>, j: nat, i: nat)
    requires i < MAX_SETS && j < |regions| && Abstract(setmaps) == Marked(words, regions[..j], i)
    ensures Abstract(setmaps[regions[j] := WithBit(SetmapOf(setmaps, regions[j]), i)])
            == Marked(words, regions[..j + 1], i)
  {
    var r := regions[j];
    var marked := setmaps[r := WithBit(SetmapOf(setmaps, r), i)];
    SetmapStandsFor(setmaps, r);
    BitsInWith(SetmapOf(setmaps, r), i);
    MarkedMore(words, regions, j, i);
    assert Abstract(marked) == Abstract(setmaps)[r := BitsOf(Abstract(setmaps), r) + {i}];
  }

  lemma MarkedMore(words: map<RegionId, set<nat>>, regions: seq<RegionId>, j: nat, i: nat)
    requires i < MAX_SETS && j < |regions|
    ensures var before := Marked(words, regions[..j], i);
            before[regions[j] := BitsOf(before, regions[j]) + {i}] == Marked(words, regions[..j + 1], i)
  {
  }

  class Level {
    var rgntiles: map<Tile, nat>
    var rgnsets: seq<seq<RegionId>>
    var setmaps: map<RegionId, Bitmap>
    var lost: bool
    /** The table of all named regions, in some order. */
    var regions: seq<RegionId>

    constructor ()
      ensures Snapshot() == EMPTY_INDEX && regions == []
    {
      rgntiles, rgnsets, setmaps, lost := map[], [[]], map[], false;
      regions := [];
    }

    ghost function Snapshot(): Index
      reads this
    {
      Index(rgntiles, rgnsets, Abstract(setmaps), lost)
    }

    method Lookup(x: int, y: int) returns (i: nat)
      ensures i == Snapshot().Number(Index.Key(x, y))
    {
      var t := (x % SIZE, y % SIZE);
      i := if t in rgntiles then rgntiles[t] else 0;
    }

    method Contains(r: RegionId, x: int, y: int) returns (b: bool)
      ensures b == RegionIndex.Contains(Snapshot(), r, x, y)
    {
      var i := Lookup(x, y);
      SetmapStandsFor(setmaps, r);
      b := i < MAX_SETS && Bit(SetmapOf(setmaps, r), i);
    }

    method SetOf(x: int, y: int) returns (found: seq<RegionId>)
      ensures found == Enum(Snapshot(), x, y)
    {
      var i := Lookup(x, y);
      found := if i < |rgnsets| then rgnsets[i] else [];
    }

    /** The regions the callback is called for; a negative coordinate asks for all. */
    method EnumContaining(x: int, y: int) returns (found: seq<RegionId>)
      ensures found == if x >= 0 && y >= 0 then Enum(Snapshot(), x, y) else regions
    {
      if x >= 0 && y >= 0 {
        found := SetOf(x, y);
      } else {
        found := regions;
      }
    }

    method GetOneContaining(x: int, y: int) returns (found: Option<RegionId>)
      ensures found == if Enum(Snapshot(), x, y) == [] then None else Some(Enum(Snapshot(), x, y)[0])
    {
      var set0 := SetOf(x, y);
      found := if set0 == [] then None else Some(set0[0]);
    }

    /** Sets the bit of set i in the bitmap of every region of the set. */
    method MarkSet(regions: seq<RegionId>, i: nat)
      requires i < MAX_SETS
      modifies this`setmaps
      ensures Abstract(setmaps) == Marked(Abstract(old(setmaps)), regions, i)
    {
      ghost var words := Abstract(setmaps);
      assert Marked(words, regions[..0], i) == words;
      for j := 0 to |regions|
        invariant Abstract(setmaps) == Marked(words, regions[..j], i)
      {
        MarkOneMore(setmaps, words, regions, j, i);
        setmaps := setmaps[regions[j] := WithBit(SetmapOf(setmaps, regions[j]), i)];
      }
      assert regions[..|regions|] == regions;
    }

    method AddRgnTile(r: RegionId, x: int, y: int)
      requires 1 <= |rgnsets| <= MAX_SETS
      modifies this`rgntiles, this`rgnsets, this`setmaps, this`lost
      ensures Snapshot() == AddTile(old(Snapshot()), r, x, y)
      ensures |old(rgnsets)| <= |rgnsets| <= MAX_SETS
    {
      var t := (x % SIZE, y % SIZE);
      var oldset := SetOf(x, y);
      var i := 1;
      while i < 256 && i < |rgnsets|
        invariant 1 <= i <= |rgnsets|
        invariant FindSet(rgnsets, oldset, r, i) == FindSet(rgnsets, oldset, r, 1)
      {
        if PrefixMatch(oldset, rgnsets[i], r) {
          rgntiles := rgntiles[t := i];
          return;
        }
        i := i + 1;
      }
      if i < 256 {
        MarkSet(oldset + [r], i);
        rgnsets := rgnsets + [oldset + [r]];
        rgntiles := rgntiles[t := i];
      } else {
        lost := true;
      }
    }

    /** Op 1's loop. */
    method AddRun(r: RegionId, cx: int, cy: int, n: nat)
      requires 1 <= |rgnsets| <= MAX_SETS
      modifies this`rgntiles, this`rgnsets, this`setmaps, this`lost
      ensures Snapshot() == PaintRun(old(Snapshot()), r, cx, cy, n)
      ensures 1 <= |rgnsets| <= MAX_SETS
    {
      var x := 0;
      while x < n
        invariant x <= n && 1 <= |rgnsets| <= MAX_SETS
        invariant Snapshot() == PaintRun(old(Snapshot()), r, cx, cy, x)
      {
        AddRgnTile(r, cx + x, cy);
        x := x + 1;
      }
    }

    method CopyOne(r: RegionId, of: int, x: int, y: int)
      requires 1 <= |rgnsets| <= MAX_SETS
      modifies this`rgntiles, this`rgnsets, this`setmaps, this`lost
      ensures Snapshot() == CopyTile(old(Snapshot()), r, of, x, y)
      ensures 1 <= |rgnsets| <= MAX_SETS
    {
      var b := Contains(r, x, of);
      if b { AddRgnTile(r, x, y); }
    }

    /** Op 3's inner loop. */
    method CopyRow(r: RegionId, of: int, y: int, width: nat)
      requires 1 <= |rgnsets| <= MAX_SETS
      modifies this`rgntiles, this`rgnsets, this`setmaps, this`lost
      ensures Snapshot() == PaintCopy(old(Snapshot()), r, of, y, width)
      ensures 1 <= |rgnsets| <= MAX_SETS
    {
      var x := 0;
      while x < width
        invariant x <= width && 1 <= |rgnsets| <= MAX_SETS
        invariant Snapshot() == PaintCopy(old(Snapshot()), r, of, y, x)
      {
        CopyOne(r, of, x, y);
        x := x + 1;
      }
    }

    /** Op 3's outer loop. */
    method CopyRows(r: RegionId, cy: int, n: nat)
      requires 1 <= |rgnsets| <= MAX_SETS
      modifies this`rgntiles, this`rgnsets, this`setmaps, this`lost
      ensures Snapshot() == PaintRows(old(Snapshot()), r, cy - 1, cy, n)
      ensures 1 <= |rgnsets| <= MAX_SETS
    {
      var y := cy;
      while y < cy + n
        invariant cy <= y <= cy + n && 1 <= |rgnsets| <= MAX_SETS
        invariant PaintRows(Snapshot(), r, cy - 1, y, cy + n - y) == PaintRows(old(Snapshot()), r, cy - 1, cy, n)
      {
        CopyRow(r, cy - 1, y, 1024);
        y := y + 1;
      }
    }
  }

  class Region {
    const id: RegionId
    var rleData: seq<Rect>
    var tiles: int
    var lastRowData: nat
    var lastRow: int

    constructor (id: RegionId)
      ensures this.id == id && Rectangles() == NO_RECTS
    {
      this.id := id;
      rleData, tiles, lastRowData, lastRow := [], 0, 0, -1;
    }

    ghost function Rectangles(): Rects
      reads this
    {
      Rects(rleData, lastRowData, lastRow, tiles)
    }

    /** Op 1: one more entry. */
    method AddEntry(cx: int, cy: int, n: nat)
      modifies this
      ensures Rectangles() == old(Rectangles()).Run(cx, cy, n)
    {
      if cy != lastRow {
        lastRowData := |rleData|;
        lastRow := cy;
      }
      rleData := rleData + [Rect(cx, cy, n, 1)];
      tiles := tiles + n;
    }

    /** Op 3: the entries of the last row grow. */
    method GrowEntries(cy: int, n: nat)
      modifies this
      ensures Rectangles() == old(Rectangles()).Stretch(cy, n)
    {
      ghost var list := rleData;
      var k := lastRowData;
      while k < |rleData|
        invariant |rleData| == |list| && lastRowData == old(lastRowData) && lastRowData <= k
        invariant forall j | 0 <= j < |list| ::
            rleData[j] == if lastRowData <= j < k then list[j].(height := list[j].height + n) else list[j]
        invariant tiles + n * WidthFrom(list, k) == old(tiles) + n * WidthFrom(list, lastRowData)
      {
        Distribute(n, list[k].width, WidthFrom(list, k + 1));
        tiles := tiles + n * rleData[k].width;
        rleData := rleData[k := rleData[k].(height := rleData[k].height + n)];
        k := k + 1;
      }
      assert rleData == Stretched(list, lastRowData, n);
      lastRow := cy + n - 1;
    }

    /** One op. */
    method Apply(lvl: Level, cx: int, cy: int, op: Op, n: nat) returns (ok: bool, cx': int, cy': int)
      requires 1 <= |lvl.rgnsets| <= MAX_SETS
      modifies this, lvl`rgntiles, lvl`rgnsets, lvl`setmaps, lvl`lost
      ensures var next := LoadStep(id, old(Loader(cx, cy, lvl.Snapshot(), Rectangles())), op, n);
              if ok then next == Some(Loader(cx', cy', lvl.Snapshot(), Rectangles()))
              else next == None && lvl.Snapshot() == old(lvl.Snapshot()) && Rectangles() == old(Rectangles())
                   && cx' == cx && cy' == cy
      ensures 1 <= |lvl.rgnsets| <= MAX_SETS
    {
      ok, cx', cy' := true, cx, cy;
      match op {
        case Skip =>
          cx' := cx + n;
        case Fill =>
          AddEntry(cx, cy, n);
          lvl.AddRun(id, cx, cy, n);
          cx' := cx + n;
        case EmptyRows =>
          if cx != 0 { return false, cx, cy; }
          cy' := cy + n;
        case RepeatRow =>
          if cx != 0 || cy == 0 { return false, cx, cy; }
          GrowEntries(cy, n);
          lvl.CopyRows(id, cy, n);
          cy' := cy + n;
      }
      if cx' == 1024 {
        cx' := 0;
        cy' := cy' + 1;
      }
    }

    /** read_rle_tile_data. */
    method ReadRleTileData(lvl: Level, d: ByteString) returns (ok: bool)
      requires 1 <= |lvl.rgnsets| <= MAX_SETS
      modifies this, lvl`rgntiles, lvl`rgnsets, lvl`setmaps, lvl`lost
      ensures var loaded := LoadFrom(d, id, old(Loader(0, 0, lvl.Snapshot(), Rects(rleData, |rleData|, -1, tiles))));
              ok == loaded.ok && lvl.Snapshot() == loaded.end.ix && Rectangles() == loaded.end.rects
      ensures 1 <= |lvl.rgnsets| <= MAX_SETS
    {
      var cx, cy, i := 0, 0, 0;
      lastRow, lastRowData := -1, |rleData|;
      ghost var start := Loader(0, 0, lvl.Snapshot(), Rectangles());
      assert d[0..] == d;
      while i < |d|
        invariant 0 <= i <= |d| && 1 <= |lvl.rgnsets| <= MAX_SETS
        invariant LoadFrom(d[i..], id, Loader(cx, cy, lvl.Snapshot(), Rectangles())) == LoadFrom(d, id, start)
      {
        if cx < 0 || cx > 1023 || cy < 0 || cy > 1023 { return false; }
        var item := ReadOp(d[i..]);
        if item.None? { return false; }
        ok, cx, cy := Apply(lvl, cx, cy, item.value.op, item.value.n);
        if !ok { return false; }
        assert d[i..][item.value.length..] == d[i + item.value.length..];
        i := i + item.value.length;
      }
      return cy == 1024;
    }

    /** FindRandomPoint; the random number is drawn by the caller, and None stands for
        the point (-1, -1). */
    method FindRandomPoint(randIndex: nat) returns (p: Option<Tile>)
      ensures p == if tiles == 0 then None else PointFrom(rleData, 0, randIndex)
    {
      if tiles == 0 { return None; }
      var rest := randIndex;
      var k := 0;
      while k < |rleData|
        invariant k <= |rleData| && rest >= 0
        invariant PointFrom(rleData, k, rest) == PointFrom(rleData, 0, randIndex)
      {
        var e := rleData[k];
        var n := e.width * e.height;
        if rest < n { return Some((e.x + rest % e.width, e.y + rest / e.width)); }
        rest := rest - n;
        k := k + 1;
      }
      return None;
    }
  }
}
