/** Decoding what the encoder writes gives back the tiles, and the encoder writes
    something exactly when no empty row stands alone. */
module RegionRoundTrip {
  import opened Options
  import opened Bytes
  import opened TileMap
  import opened RegionCodec

  /** The tiles of a map. */
  function OnMap(tiles: Tiles): Tiles { Upto(tiles, SIZE) }

  function Upto(tiles: Tiles, cy: int): Tiles {
    set t | t in tiles && 0 <= t.0 < SIZE && 0 <= t.1 < cy
  }

  function RowTiles(row: Row, cx: int, cy: int): Tiles { set x | 0 <= x < SIZE && cx <= x && row[x] :: (x, cy) }

  function Block(row: Row, cy: int, n: nat): Tiles {
    set x, y | 0 <= x < SIZE && cy <= y < cy + n && row[x] :: (x, y)
  }

  // ---------------------------------------------------------------- one op

  lemma OpDecodes(op: Op, n: nat, rest: ByteString, c: Cursor)
    requires 1 <= n <= 8192 && InRange(c)
    ensures DecodeFrom(OpBytes(op, n) + rest, c)
            == if Step(c, op, n).None? then Err(Rejected) else DecodeFrom(rest, Step(c, op, n).value)
  {
    OpRoundTrip(op, n, rest);
  }

  /** The same, when it is known where the op leads. */
  lemma OpLeads(op: Op, n: nat, rest: ByteString, c: Cursor, next: Cursor)
    requires 1 <= n <= 8192 && InRange(c) && Step(c, op, n) == Some(next)
    ensures DecodeFrom(OpBytes(op, n) + rest, c) == DecodeFrom(rest, next)
  {
    OpDecodes(op, n, rest, c);
  }

  // --------------------------------------------------------------- one row

  /** The run at cx, as tiles. */
  lemma RunTiles(row: Row, cx: nat, cy: int)
    requires cx < SIZE
    ensures var e := RunEnd(row, cx, row[cx]);
            RowTiles(row, cx, cy) == (if row[cx] then Span(cx, cy, e - cx) else {}) + RowTiles(row, e, cy)
  {
    var e := RunEnd(row, cx, row[cx]);
    forall x: int | 0 <= x < SIZE
      ensures (x, cy) in RowTiles(row, cx, cy)
              <==> (x, cy) in (if row[cx] then Span(cx, cy, e - cx) else {}) + RowTiles(row, e, cy)
    {
    }
  }

  /** The cursor once the run at cx has been read. */
  function AfterRun(row: Row, cx: nat, cy: int, tiles: Tiles): Cursor
    requires cx < SIZE
  {
    var e := RunEnd(row, cx, row[cx]);
    Wrap(Cursor(e, cy, if row[cx] then tiles + Span(cx, cy, e - cx) else tiles))
  }

  lemma RunSteps(row: Row, cx: nat, cy: int, tiles: Tiles)
    requires cx < SIZE
    ensures Step(Cursor(cx, cy, tiles), if row[cx] then Fill else Skip, RunEnd(row, cx, row[cx]) - cx)
            == Some(AfterRun(row, cx, cy, tiles))
  {
  }

  /** One run of a row: the cursor moves to its end with the run painted. */
  lemma RunDecodes(row: Row, cx: nat, cy: int, tiles: Tiles, more: ByteString)
    requires cx < SIZE && 0 <= cy < SIZE
    ensures var e := RunEnd(row, cx, row[cx]);
            DecodeFrom(OpBytes(if row[cx] then Fill else Skip, e - cx) + more, Cursor(cx, cy, tiles))
            == DecodeFrom(more, AfterRun(row, cx, cy, tiles))
  {
    var e := RunEnd(row, cx, row[cx]);
    RunSteps(row, cx, cy, tiles);
    OpLeads(if row[cx] then Fill else Skip, e - cx, more, Cursor(cx, cy, tiles), AfterRun(row, cx, cy, tiles));
  }

  function PaintedRun(row: Row, cx: nat, cy: int, tiles: Tiles): Tiles
    requires cx < SIZE
  {
    if row[cx] then tiles + Span(cx, cy, RunEnd(row, cx, row[cx]) - cx) else tiles
  }

  lemma PaintedRow(row: Row, cx: nat, cy: int, tiles: Tiles)
    requires cx < SIZE
    ensures var e := RunEnd(row, cx, row[cx]);
            && PaintedRun(row, cx, cy, tiles) + RowTiles(row, e, cy) == tiles + RowTiles(row, cx, cy)
            && AfterRun(row, cx, cy, tiles)
               == if e == SIZE then Cursor(0, cy + 1, tiles + RowTiles(row, cx, cy))
                  else Cursor(e, cy, PaintedRun(row, cx, cy, tiles))
  {
    RunTiles(row, cx, cy);
    var e := RunEnd(row, cx, row[cx]);
    assert PaintedRun(row, cx, cy, tiles) + RowTiles(row, e, cy) == tiles + RowTiles(row, cx, cy);
    assert RowTiles(row, SIZE, cy) == {};
  }

  lemma RowBytesSplit(row: Row, cx: nat, rest: ByteString)
    requires cx < SIZE
    ensures var e := RunEnd(row, cx, row[cx]);
            && RowBytes(row, cx) + rest
               == OpBytes(if row[cx] then Fill else Skip, e - cx) + (RowBytes(row, e) + rest)
            && (e == SIZE ==> RowBytes(row, e) + rest == rest)
  {
  }

  lemma {:induction false} RowDecodes(row: Row, cx: nat, cy: int, tiles: Tiles, rest: ByteString)
    requires cx < SIZE && 0 <= cy < SIZE
    ensures DecodeFrom(RowBytes(row, cx) + rest, Cursor(cx, cy, tiles))
            == DecodeFrom(rest, Cursor(0, cy + 1, tiles + RowTiles(row, cx, cy)))
    decreases SIZE - cx
  {
    var e := RunEnd(row, cx, row[cx]);
    RowBytesSplit(row, cx, rest);
    RunDecodes(row, cx, cy, tiles, RowBytes(row, e) + rest);
    PaintedRow(row, cx, cy, tiles);
    if e < SIZE {
      RowDecodes(row, e, cy, PaintedRun(row, cx, cy, tiles), rest);
    }
  }

  /** Rows with the same bytes are the same row. */
  lemma RowBytesInjective(r1: Row, r2: Row)
    requires RowBytes(r1, 0) == RowBytes(r2, 0)
    ensures r1 == r2
  {
    RowDecodes(r1, 0, SIZE - 1, {}, []);
    RowDecodes(r2, 0, SIZE - 1, {}, []);
    forall x | 0 <= x < SIZE ensures r1[x] == r2[x] {
      assert (x, SIZE - 1) in RowTiles(r1, 0, SIZE - 1) <==> r1[x];
      assert (x, SIZE - 1) in RowTiles(r2, 0, SIZE - 1) <==> r2[x];
    }
  }

  lemma EncodedRowInjective(r1: Row, r2: Row)
    requires EncodedRow(r1) == EncodedRow(r2)
    ensures r1 == r2
  {
    if EncodedRow(r1).None? {
      assert r1 == r2;
    } else {
      RowBytesInjective(r1, r2);
    }
  }

  // ------------------------------------------------------------- one group

  lemma EmptyBlock(row: Row, n: nat, cy: int, tiles: Tiles)
    requires IsEmptyRow(row)
    ensures tiles + Block(row, cy, n) == tiles
  {
  }

  lemma EmptyStep(n: nat, cy: int, tiles: Tiles)
    requires 1 <= n <= SIZE && 0 <= cy < SIZE
    ensures Step(Cursor(0, cy, tiles), EmptyRows, n) == Some(Cursor(0, cy + n, tiles))
  {
  }

  lemma EmptyGroupDecodes(row: Row, n: nat, cy: int, tiles: Tiles, rest: ByteString)
    requires 1 <= n <= SIZE && 0 <= cy < SIZE && IsEmptyRow(row)
    ensures DecodeFrom(OpBytes(EmptyRows, n) + rest, Cursor(0, cy, tiles))
            == DecodeFrom(rest, Cursor(0, cy + n, tiles + Block(row, cy, n)))
  {
    EmptyBlock(row, n, cy, tiles);
    EmptyStep(n, cy, tiles);
    OpDecodes(EmptyRows, n, rest, Cursor(0, cy, tiles));
  }

  lemma OneRowBlock(row: Row, cy: int, tiles: Tiles)
    ensures tiles + RowTiles(row, 0, cy) == tiles + Block(row, cy, 1)
  {
    assert RowTiles(row, 0, cy) == Block(row, cy, 1);
  }

  lemma OneRowDecodes(row: Row, cy: int, tiles: Tiles, rest: ByteString)
    requires 0 <= cy < SIZE
    ensures DecodeFrom(RowBytes(row, 0) + rest, Cursor(0, cy, tiles))
            == DecodeFrom(rest, Cursor(0, cy + 1, tiles + Block(row, cy, 1)))
  {
    RowDecodes(row, 0, cy, tiles, rest);
    OneRowBlock(row, cy, tiles);
  }

  lemma RepeatSteps(row: Row, n: nat, cy: int, tiles: Tiles)
    requires 1 < n && 0 <= cy
    requires forall x :: (x, cy) !in tiles
    ensures Step(Cursor(0, cy + 1, tiles + RowTiles(row, 0, cy)), RepeatRow, n - 1)
            == Some(Cursor(0, cy + n, tiles + Block(row, cy, n)))
  {
    RepeatedBlock(row, n, cy, tiles);
  }

  lemma RepeatedGroupDecodes(row: Row, n: nat, cy: int, tiles: Tiles, rest: ByteString)
    requires 1 < n <= SIZE && 0 <= cy && cy + n <= SIZE
    requires forall x :: (x, cy) !in tiles
    ensures DecodeFrom(OpBytes(RepeatRow, n - 1) + rest, Cursor(0, cy + 1, tiles + RowTiles(row, 0, cy)))
            == DecodeFrom(rest, Cursor(0, cy + n, tiles + Block(row, cy, n)))
  {
    OpDecodes(RepeatRow, n - 1, rest, Cursor(0, cy + 1, tiles + RowTiles(row, 0, cy)));
    RepeatSteps(row, n, cy, tiles);
  }

  lemma EmptyCaseDecodes(row: Row, n: nat, cy: int, tiles: Tiles, rest: ByteString)
    requires 1 <= n <= SIZE && 0 <= cy && cy + n <= SIZE && IsEmptyRow(row)
    requires forall x :: (x, cy) !in tiles
    requires GroupBytes(EncodedRow(row), n).Ok?
    ensures DecodeFrom(GroupBytes(EncodedRow(row), n).value + rest, Cursor(0, cy, tiles))
            == DecodeFrom(rest, Cursor(0, cy + n, tiles + Block(row, cy, n)))
  {
    assert GroupBytes(EncodedRow(row), n).value == OpBytes(EmptyRows, n);
    EmptyGroupDecodes(row, n, cy, tiles, rest);
  }

  lemma SingleCaseDecodes(row: Row, n: nat, cy: int, tiles: Tiles, rest: ByteString)
    requires 1 <= n <= SIZE && 0 <= cy && cy + n <= SIZE && !IsEmptyRow(row) && n == 1
    requires forall x :: (x, cy) !in tiles
    requires GroupBytes(EncodedRow(row), n).Ok?
    ensures DecodeFrom(GroupBytes(EncodedRow(row), n).value + rest, Cursor(0, cy, tiles))
            == DecodeFrom(rest, Cursor(0, cy + n, tiles + Block(row, cy, n)))
  {
    assert GroupBytes(EncodedRow(row), n).value == RowBytes(row, 0);
    OneRowDecodes(row, cy, tiles, rest);
  }

  lemma RepeatedCaseDecodes(row: Row, n: nat, cy: int, tiles: Tiles, rest: ByteString)
    requires 1 <= n <= SIZE && 0 <= cy && cy + n <= SIZE && !IsEmptyRow(row) && n > 1
    requires forall x :: (x, cy) !in tiles
    requires GroupBytes(EncodedRow(row), n).Ok?
    ensures DecodeFrom(GroupBytes(EncodedRow(row), n).value + rest, Cursor(0, cy, tiles))
            == DecodeFrom(rest, Cursor(0, cy + n, tiles + Block(row, cy, n)))
  {
    assert GroupBytes(EncodedRow(row), n).value == RowBytes(row, 0) + OpBytes(RepeatRow, n - 1);
    WrittenOnceDecodes(row, n, cy, tiles, rest);
  }

  lemma GroupDecodes(row: Row, n: nat, cy: int, tiles: Tiles, rest: ByteString)
    requires 1 <= n <= SIZE && 0 <= cy && cy + n <= SIZE
    requires forall x :: (x, cy) !in tiles
    requires GroupBytes(EncodedRow(row), n).Ok?
    ensures DecodeFrom(GroupBytes(EncodedRow(row), n).value + rest, Cursor(0, cy, tiles))
            == DecodeFrom(rest, Cursor(0, cy + n, tiles + Block(row, cy, n)))
  {
    if IsEmptyRow(row) {
      EmptyCaseDecodes(row, n, cy, tiles, rest);
    } else if n == 1 {
      SingleCaseDecodes(row, n, cy, tiles, rest);
    } else {
      RepeatedCaseDecodes(row, n, cy, tiles, rest);
    }
  }

  lemma WrittenOnceDecodes(row: Row, n: nat, cy: int, tiles: Tiles, rest: ByteString)
    requires 1 < n <= SIZE && 0 <= cy && cy + n <= SIZE
    requires forall x :: (x, cy) !in tiles
    ensures DecodeFrom(RowBytes(row, 0) + OpBytes(RepeatRow, n - 1) + rest, Cursor(0, cy, tiles))
            == DecodeFrom(rest, Cursor(0, cy + n, tiles + Block(row, cy, n)))
  {
    var more := OpBytes(RepeatRow, n - 1) + rest;
    assert RowBytes(row, 0) + OpBytes(RepeatRow, n - 1) + rest == RowBytes(row, 0) + more;
    RowDecodes(row, 0, cy, tiles, more);
    RepeatedGroupDecodes(row, n, cy, tiles, rest);
  }

  lemma RepeatedBlock(row: Row, n: nat, cy: int, tiles: Tiles)
    requires n > 1 && forall x :: (x, cy) !in tiles
    ensures var once := tiles + RowTiles(row, 0, cy);
            once + Repeated(once, cy + 1, n - 1) == tiles + Block(row, cy, n)
  {
    var once := tiles + RowTiles(row, 0, cy);
    forall x: int | 0 <= x < SIZE ensures (x, cy) in once <==> row[x] {
      assert (x, cy) in RowTiles(row, 0, cy) <==> row[x];
    }
    assert Block(row, cy, n) == RowTiles(row, 0, cy) + Repeated(once, cy + 1, n - 1);
  }

  // ------------------------------------------------------------ all groups

  lemma GroupIsBlock(tiles: Tiles, cy: nat, e: nat)
    requires cy < e <= SIZE
    requires forall y | cy <= y < e :: RowOf(tiles, y) == RowOf(tiles, cy)
    ensures Upto(tiles, e) == Upto(tiles, cy) + Block(RowOf(tiles, cy), cy, e - cy)
  {
    forall x: int, y: int | 0 <= x < SIZE && cy <= y < e ensures (x, y) in tiles <==> RowOf(tiles, cy)[x] {
      assert RowOf(tiles, y)[x] == RowOf(tiles, cy)[x];
    }
    assert forall t :: t in Upto(tiles, e) <==> t in Upto(tiles, cy) + Block(RowOf(tiles, cy), cy, e - cy);
  }

  /** Rows written as one group are equal rows. */
  lemma GroupRowsEqual(tiles: Tiles, cy: nat)
    requires cy < SIZE
    ensures var e := SameEnd(RowsOf(tiles), cy, RowsOf(tiles)[cy]);
            e > cy && forall y | cy <= y < e :: RowOf(tiles, y) == RowOf(tiles, cy)
  {
    var rows := RowsOf(tiles);
    var e := SameEnd(rows, cy, rows[cy]);
    forall y | cy <= y < e ensures RowOf(tiles, y) == RowOf(tiles, cy) {
      assert rows[y] == rows[cy];
      EncodedRowInjective(RowOf(tiles, y), RowOf(tiles, cy));
    }
  }

  lemma GroupsSplit(rows: Rows, cy: nat)
    requires cy < SIZE && GroupsFrom(rows, cy).Ok?
    ensures var e := SameEnd(rows, cy, rows[cy]);
            e > cy && GroupBytes(rows[cy], e - cy).Ok? && GroupsFrom(rows, e).Ok?
            && GroupsFrom(rows, cy).value == GroupBytes(rows[cy], e - cy).value + GroupsFrom(rows, e).value
  {
  }

  /** What the first group of equal rows is, in bytes and in tiles. */
  lemma {:induction false} FirstGroup(tiles: Tiles, cy: nat, e: nat)
    requires cy < SIZE && GroupsFrom(RowsOf(tiles), cy).Ok? && e == SameEnd(RowsOf(tiles), cy, RowsOf(tiles)[cy])
    ensures var row, rows := RowOf(tiles, cy), RowsOf(tiles);
            && cy < e && GroupBytes(EncodedRow(row), e - cy).Ok? && GroupsFrom(rows, e).Ok?
            && GroupsFrom(rows, cy).value == GroupBytes(EncodedRow(row), e - cy).value + GroupsFrom(rows, e).value
            && Upto(tiles, e) == Upto(tiles, cy) + Block(row, cy, e - cy)
  {
    GroupRowsEqual(tiles, cy);
    GroupsSplit(RowsOf(tiles), cy);
    GroupIsBlock(tiles, cy, e);
  }

  /** The groups one after another: where the one at each row ends, its row, the bytes
      from there on, and the tiles above it. `ok` rows are those that can be written. */
  datatype Chain = Chain(
    ok: nat -> bool, ends: nat -> nat, row: nat -> Row, bytes: nat -> ByteString, have: nat -> Tiles)

  ghost predicate Link(c: Chain, y: nat) {
    c.ok(y) ==>
      && y < c.ends(y) <= SIZE && c.ok(c.ends(y)) && (forall x :: (x, y) !in c.have(y))
      && GroupBytes(EncodedRow(c.row(y)), c.ends(y) - y).Ok?
      && c.bytes(y) == GroupBytes(EncodedRow(c.row(y)), c.ends(y) - y).value + c.bytes(c.ends(y))
      && c.have(c.ends(y)) == c.have(y) + Block(c.row(y), y, c.ends(y) - y)
  }

  ghost predicate Linked(c: Chain) { forall y: nat | y < SIZE :: Link(c, y) }

  function ChainOf(tiles: Tiles): Chain {
    Chain((y: nat) => y <= SIZE && GroupsFrom(RowsOf(tiles), y).Ok?,
          (y: nat) => if y < SIZE then SameEnd(RowsOf(tiles), y, RowsOf(tiles)[y]) else SIZE,
          (y: nat) => RowOf(tiles, y),
          (y: nat) => if y <= SIZE && GroupsFrom(RowsOf(tiles), y).Ok? then GroupsFrom(RowsOf(tiles), y).value else [],
          (y: nat) => Upto(tiles, y))
  }

  lemma ChainIsLinked(tiles: Tiles)
    ensures Linked(ChainOf(tiles))
  {
    forall y: nat | y < SIZE ensures Link(ChainOf(tiles), y) {
      if GroupsFrom(RowsOf(tiles), y).Ok? { FirstGroup(tiles, y, SameEnd(RowsOf(tiles), y, RowsOf(tiles)[y])); }
    }
  }

  lemma GroupLeadsTo(whole: ByteString, row: Row, n: nat, cy: int, tiles: Tiles, tiles': Tiles, rest: ByteString)
    requires 1 <= n <= SIZE && 0 <= cy && cy + n <= SIZE && forall x :: (x, cy) !in tiles
    requires GroupBytes(EncodedRow(row), n).Ok? && whole == GroupBytes(EncodedRow(row), n).value + rest
    requires tiles' == tiles + Block(row, cy, n)
    ensures DecodeFrom(whole, Cursor(0, cy, tiles)) == DecodeFrom(rest, Cursor(0, cy + n, tiles'))
  {
    GroupDecodes(row, n, cy, tiles, rest);
  }

  /** What does not change from one group to the next does not change at all. */
  lemma {:induction false} ChainSteps<T(!new)>(c: Chain, at: nat -> T, y: nat)
    requires Linked(c) && y <= SIZE && c.ok(y)
    requires forall z: nat | z < SIZE && c.ok(z) :: at(z) == at(c.ends(z))
    ensures at(y) == at(SIZE)
    decreases SIZE - y
  {
    if y < SIZE {
      assert Link(c, y);
      ChainSteps(c, at, c.ends(y));
    }
  }

  lemma LinkDecodes(c: Chain, y: nat)
    requires Link(c, y) && c.ok(y)
    ensures DecodeFrom(c.bytes(y), Cursor(0, y, c.have(y)))
            == DecodeFrom(c.bytes(c.ends(y)), Cursor(0, c.ends(y), c.have(c.ends(y))))
  {
    GroupLeadsTo(c.bytes(y), c.row(y), c.ends(y) - y, y, c.have(y), c.have(c.ends(y)), c.bytes(c.ends(y)));
  }

  lemma ChainDecodes(c: Chain)
    requires Linked(c) && c.ok(0)
    ensures DecodeFrom(c.bytes(0), Cursor(0, 0, c.have(0))) == DecodeFrom(c.bytes(SIZE), Cursor(0, SIZE, c.have(SIZE)))
  {
    var at := (y: nat) => DecodeFrom(c.bytes(y), Cursor(0, y, c.have(y)));
    forall z: nat | z < SIZE && c.ok(z) ensures at(z) == at(c.ends(z)) {
      assert Link(c, z);
      LinkDecodes(c, z);
    }
    ChainSteps(c, at, 0);
  }

  /** Decoding the encoder's bytes gives back the tiles of the map, whatever they are. */
  lemma RoundTrip(tiles: Tiles)
    requires Encode(tiles).Ok?
    ensures Decode(Encode(tiles).value) == Ok(OnMap(tiles))
  {
    var c := ChainOf(tiles);
    ChainIsLinked(tiles);
    ChainDecodes(c);
    assert c.have(0) == {} && c.bytes(SIZE) == [] && c.have(SIZE) == OnMap(tiles);
  }

  // ------------------------------------------- when there is nothing to decode

  predicate EmptyAt(tiles: Tiles, y: int) { IsEmptyRow(RowOf(tiles, y)) }

  /** An empty row with no empty row next to it. */
  predicate LoneEmptyRow(tiles: Tiles, y: nat) {
    && y < SIZE && EmptyAt(tiles, y)
    && (y > 0 ==> !EmptyAt(tiles, y - 1))
    && (y + 1 < SIZE ==> !EmptyAt(tiles, y + 1))
  }

  lemma {:induction false} GroupsFail(tiles: Tiles, cy: nat)
    requires cy <= SIZE && (0 < cy < SIZE ==> RowsOf(tiles)[cy - 1] != RowsOf(tiles)[cy])
    ensures GroupsFrom(RowsOf(tiles), cy).Err? <==> exists y :: cy <= y && LoneEmptyRow(tiles, y)
    decreases SIZE - cy
  {
    if cy < SIZE {
      var rows := RowsOf(tiles);
      var e := SameEnd(rows, cy, rows[cy]);
      assert forall y | 0 <= y < SIZE :: rows[y].None? <==> EmptyAt(tiles, y);
      assert e < SIZE ==> rows[e] != rows[e - 1];
      GroupsFail(tiles, e);
      if rows[cy].None? && e == cy + 1 {
        assert LoneEmptyRow(tiles, cy);
      } else {
        forall y | cy <= y < e ensures !LoneEmptyRow(tiles, y) {
          if rows[cy].None? { assert rows[if y > cy then y - 1 else y + 1].None?; }
        }
      }
    }
  }

  /** The encoder writes a tile set if and only if it has no empty row standing alone;
      otherwise joining the rows fails. */
  lemma EncodesIff(tiles: Tiles)
    ensures Encode(tiles).Ok? <==> forall y :: !LoneEmptyRow(tiles, y)
  {
    GroupsFail(tiles, 0);
  }

  /** A map filled but for row 1 cannot be encoded. */
  lemma LoneEmptyRowFails()
    ensures var tiles := set x, y | 0 <= x < SIZE && 0 <= y < SIZE && y != 1 :: (x, y); Encode(tiles).Err?
  {
    var tiles: Tiles := set x, y | 0 <= x < SIZE && 0 <= y < SIZE && y != 1 :: (x, y);
    assert RowOf(tiles, 0)[0] && RowOf(tiles, 2)[0];
    assert LoneEmptyRow(tiles, 1);
    EncodesIff(tiles);
  }
}
