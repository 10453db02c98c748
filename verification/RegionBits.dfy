/** What the bytes of a region's tile data mean, bit by bit: what the encoder writes for
    every run and every group of rows, and what the two decoders make of every string. */
module RegionBits {
  import opened Options
  import opened Bytes
  import opened TileMap
  import opened RegionCodec
  import opened RegionRoundTrip

  // -------------------------------------------------------------- the op byte

  function TopBits(b: byte): int { b / 64 }

  predicate HasSecond(b: byte) { b / 32 % 2 == 1 }

  function LowBits(b: byte): int { b % 32 }

  /** The three fields, as both sources take them out of the byte. */
  lemma FieldsAreBits(v: bv8)
    ensures TopBits(v as int) == ((v & 192) >> 6) as int && LowBits(v as int) == (v & 31) as int
    ensures HasSecond(v as int) <==> v & 32 != 0
  {
    TopFive(v);
    MiddleBit(v);
  }

  lemma TopFive(v: bv8)
    ensures ((v & 192) >> 6) as int == v as int / 64 && (v & 31) as int == v as int % 32
  {
  }

  lemma MiddleBit(v: bv8)
    ensures v & 32 != 0 <==> v as int / 32 % 2 == 1
  {
  }

  /** d begins with an op of this code and count: up to 32 the count less one is in the low
      five bits; above that bit 5 is set, and they are its high part, the second byte
      its low part. */
  predicate Begins(d: ByteString, code: int, n: int) {
    && d != [] && TopBits(d[0]) == code
    && if n <= 32 then !HasSecond(d[0]) && LowBits(d[0]) + 1 == n
       else HasSecond(d[0]) && |d| >= 2 && LowBits(d[0]) * 256 + d[1] + 1 == n
  }

  function Size(n: int): nat { if n <= 32 then 1 else 2 }

  lemma OpBegins(op: Op, n: nat, rest: ByteString)
    requires 1 <= n <= 8192
    ensures |OpBytes(op, n)| == Size(n)
    ensures Begins(OpBytes(op, n) + rest, CodeOf(op), n)
    ensures (OpBytes(op, n) + rest)[Size(n)..] == rest
  {
    var code := op.Code();
    var d := OpBytes(op, n) + rest;
    ByteFields(code, if n <= 32 then n - 1 else (n - 1) / 256);
  }

  /** The codes the format gives the four ops. */
  function CodeOf(op: Op): int {
    if op.Skip? then 0 else if op.Fill? then 1 else if op.EmptyRows? then 2 else 3
  }

  // ------------------------------------------------------------- the encoder

  /** The tiles from cx to e are a run that cannot be longer. */
  predicate IsRun(row: Row, cx: int, e: int) {
    && 0 <= cx < e <= SIZE && (forall i | cx <= i < e :: row[i] == row[cx]) && (e < SIZE ==> row[e] != row[cx])
  }

  /** d spells the row from cx on: for each run an op 1 or 0, as its tiles are set or not,
      with its length. */
  ghost predicate SpellsRow(d: ByteString, row: Row, cx: int)
    decreases SIZE - cx
  {
    if cx >= SIZE then d == []
    else exists e: int :: IsRun(row, cx, e) && Begins(d, if row[cx] then 1 else 0, e - cx) && SpellsRow(d[Size(e - cx)..], row, e)
  }

  lemma RunOf(row: Row, cx: nat) returns (e: nat)
    requires cx < SIZE
    ensures IsRun(row, cx, e) && RowBytes(row, cx) == OpBytes(if row[cx] then Fill else Skip, e - cx) + RowBytes(row, e)
  {
    e := RunEnd(row, cx, row[cx]);
  }

  lemma {:induction false} RowIsSpelled(row: Row, cx: nat)
    requires cx <= SIZE
    ensures SpellsRow(RowBytes(row, cx), row, cx)
    decreases SIZE - cx
  {
    if cx < SIZE {
      var e := RunOf(row, cx);
      RowIsSpelled(row, e);
      RunIsSpelled(row, cx, e, if row[cx] then Fill else Skip, RowBytes(row, e));
    }
  }

  lemma RunIsSpelled(row: Row, cx: nat, e: nat, op: Op, rest: ByteString)
    requires IsRun(row, cx, e) && op == (if row[cx] then Fill else Skip) && SpellsRow(rest, row, e)
    ensures SpellsRow(OpBytes(op, e - cx) + rest, row, cx)
  {
    OpBegins(op, e - cx, rest);
    OneRunSpelled(row, cx, e, OpBytes(op, e - cx), rest);
  }

  lemma OneRunSpelled(row: Row, cx: nat, e: nat, op: ByteString, rest: ByteString)
    requires IsRun(row, cx, e) && |op| == Size(e - cx) && Begins(op + rest, if row[cx] then 1 else 0, e - cx)
    requires SpellsRow(rest, row, e)
    ensures SpellsRow(op + rest, row, cx)
  {
    assert (op + rest)[Size(e - cx)..] == rest;
  }

  predicate IsBlank(row: Row) { forall x | 0 <= x < SIZE :: !row[x] }

  /** What is written for one group of n equal rows: an op 2 with their number for empty
      rows, of which there are at least two; otherwise the row, and if there are more of
      them an op 3 with how many. `rest` is what follows. */
  ghost predicate SpellsGroup(d: ByteString, row: Row, n: int, rest: ByteString) {
    if IsBlank(row) then n >= 2 && Begins(d, 2, n) && d[Size(n)..] == rest
    else exists first: ByteString, more: ByteString ::
      d == first + more && SpellsRow(first, row, 0)
      && if n == 1 then more == rest else Begins(more, 3, n - 1) && more[Size(n - 1)..] == rest
  }

  /** The rows from cy to y are equal, and the next one, if there is one, is not. */
  predicate IsGroup(tiles: Tiles, cy: int, y: int) {
    && 0 <= cy < y <= SIZE && (forall i | cy <= i < y :: RowOf(tiles, i) == RowOf(tiles, cy))
    && (y < SIZE ==> RowOf(tiles, y) != RowOf(tiles, cy))
  }

  /** d spells the rows from cy on, group by group. */
  ghost predicate SpellsRows(d: ByteString, tiles: Tiles, cy: int)
    decreases SIZE - cy
  {
    if cy >= SIZE then d == []
    else exists y: int, rest: ByteString ::
      IsGroup(tiles, cy, y) && SpellsGroup(d, RowOf(tiles, cy), y - cy, rest) && SpellsRows(rest, tiles, y)
  }

  lemma GroupIsSpelled(row: Row, n: nat, rest: ByteString)
    requires 1 <= n <= SIZE && GroupBytes(EncodedRow(row), n).Ok?
    ensures SpellsGroup(GroupBytes(EncodedRow(row), n).value + rest, row, n, rest)
  {
    if IsBlank(row) {
      OpBegins(EmptyRows, n, rest);
    } else {
      RowIsSpelled(row, 0);
      if n > 1 { OpBegins(RepeatRow, n - 1, rest); }
      FullGroupSpelled(row, n, RowBytes(row, 0), if n == 1 then [] else OpBytes(RepeatRow, n - 1), rest);
    }
  }

  lemma FullGroupSpelled(row: Row, n: nat, first: ByteString, op: ByteString, rest: ByteString)
    requires n >= 1 && !IsBlank(row) && SpellsRow(first, row, 0)
    requires if n == 1 then op == [] else |op| == Size(n - 1) && Begins(op + rest, 3, n - 1)
    ensures SpellsGroup(first + op + rest, row, n, rest)
  {
    assert first + op + rest == first + (op + rest);
    assert n == 1 ==> op + rest == rest;
    assert n > 1 ==> (op + rest)[Size(n - 1)..] == rest;
  }

  lemma GroupOfRows(tiles: Tiles, cy: nat)
    requires cy < SIZE
    ensures IsGroup(tiles, cy, SameEnd(RowsOf(tiles), cy, RowsOf(tiles)[cy]))
  {
    var rows := RowsOf(tiles);
    var y := SameEnd(rows, cy, rows[cy]);
    forall i | cy <= i < y ensures RowOf(tiles, i) == RowOf(tiles, cy) {
      assert rows[i] == rows[cy];
      EncodedRowInjective(RowOf(tiles, i), RowOf(tiles, cy));
    }
  }

  lemma FirstGroup(rows: Rows, cy: nat, y: nat)
    requires cy < SIZE && y == SameEnd(rows, cy, rows[cy]) && GroupsFrom(rows, cy).Ok?
    ensures cy < y && GroupBytes(rows[cy], y - cy).Ok? && GroupsFrom(rows, y).Ok?
    ensures GroupsFrom(rows, cy).value == GroupBytes(rows[cy], y - cy).value + GroupsFrom(rows, y).value
  {
  }

  lemma OneGroupSpelled(d: ByteString, tiles: Tiles, cy: nat, y: nat, rest: ByteString)
    requires IsGroup(tiles, cy, y) && SpellsGroup(d, RowOf(tiles, cy), y - cy, rest) && SpellsRows(rest, tiles, y)
    ensures SpellsRows(d, tiles, cy)
  {
  }

  lemma GroupSpelled(row: Row, n: nat, g: ByteString, rest: ByteString)
    requires 1 <= n <= SIZE && GroupBytes(EncodedRow(row), n) == Ok(g)
    ensures SpellsGroup(g + rest, row, n, rest)
  {
    GroupIsSpelled(row, n, rest);
  }

  lemma GroupOnTop(tiles: Tiles, cy: nat, y: nat, row: Row, g: ByteString, rest: ByteString)
    requires IsGroup(tiles, cy, y) && row == RowOf(tiles, cy) && GroupBytes(EncodedRow(row), y - cy) == Ok(g)
    requires SpellsRows(rest, tiles, y)
    ensures SpellsRows(g + rest, tiles, cy)
  {
    GroupSpelled(row, y - cy, g, rest);
    OneGroupSpelled(g + rest, tiles, cy, y, rest);
  }

  lemma RowAt(tiles: Tiles, cy: nat)
    requires cy < SIZE
    ensures RowsOf(tiles)[cy] == EncodedRow(RowOf(tiles, cy))
  {
  }

  lemma NoRows(tiles: Tiles)
    ensures SpellsRows([], tiles, SIZE)
  {
  }

  lemma {:induction false} GroupsAreSpelled(tiles: Tiles, cy: nat)
    requires cy <= SIZE && GroupsFrom(RowsOf(tiles), cy).Ok?
    ensures SpellsRows(GroupsFrom(RowsOf(tiles), cy).value, tiles, cy)
    decreases SIZE - cy
  {
    if cy == SIZE {
      NoRows(tiles);
    } else {
      var rows := RowsOf(tiles);
      var y := SameEnd(rows, cy, rows[cy]);
      FirstGroup(rows, cy, y);
      GroupsAreSpelled(tiles, y);
      RowAt(tiles, cy);
      GroupOfRows(tiles, cy);
      GroupOnTop(tiles, cy, y, RowOf(tiles, cy), GroupBytes(rows[cy], y - cy).value, GroupsFrom(rows, y).value);
    }
  }

  /** Whatever the encoder writes for a set of tiles spells its rows. */
  lemma EncoderSpells(tiles: Tiles)
    requires Encode(tiles).Ok?
    ensures SpellsRows(Encode(tiles).value, tiles, 0)
  {
    GroupsAreSpelled(tiles, 0);
  }

  // ------------------------------------------------------------ the decoders

  /** The count of an op byte and the byte after it. */
  function CountOf(d: ByteString): int
    requires d != [] && (HasSecond(d[0]) ==> |d| >= 2)
  {
    if HasSecond(d[0]) then LowBits(d[0]) * 256 + d[1] + 1 else LowBits(d[0]) + 1
  }

  /** The tiles of row cy - 1 again in each of the n rows from cy on. */
  function Again(tiles: Tiles, cy: int, n: int): Tiles {
    set x, y | 0 <= x < 1024 && cy <= y < cy + n && (x, cy - 1) in tiles :: (x, y)
  }

  /** What the bytes from (cx, cy) on paint, by the format alone; None if they are not
      acceptable there. */
  function Reads(d: ByteString, cx: int, cy: int, tiles: Tiles): Option<Tiles>
    decreases |d|
  {
    if d == [] then if cy == 1024 then Some(tiles) else None
    else if !(0 <= cx < 1024 && 0 <= cy < 1024) || (HasSecond(d[0]) && |d| < 2) then None
    else
      var n, rest := CountOf(d), d[if HasSecond(d[0]) then 2 else 1..];
      var x, y := if cx + n == 1024 then 0 else cx + n, if cx + n == 1024 then cy + 1 else cy;
      match TopBits(d[0])
      case 0 => Reads(rest, x, y, tiles)
      case 1 => Reads(rest, x, y, tiles + set u | cx <= u < cx + n :: (u, cy))
      case 2 => if cx == 0 then Reads(rest, 0, cy + n, tiles) else None
      case _ => if cx == 0 && cy > 0 then Reads(rest, 0, cy + n, tiles + Again(tiles, cy, n)) else None
  }

  function Accepted(r: Result<Tiles, Failure>): Option<Tiles> { if r.Ok? then Some(r.value) else None }

  lemma ReadsOp(d: ByteString)
    requires d != []
    ensures ReadOp(d).None? <==> HasSecond(d[0]) && |d| < 2
    ensures ReadOp(d).Some? ==>
              && CodeOf(ReadOp(d).value.op) == TopBits(d[0]) && ReadOp(d).value.n == CountOf(d)
              && ReadOp(d).value.length == if HasSecond(d[0]) then 2 else 1
  {
  }

  /** load_tile_data accepts exactly the strings the format allows, with exactly the tiles
      it gives them. */
  lemma {:induction false} DecodeReads(d: ByteString, c: Cursor)
    ensures Accepted(DecodeFrom(d, c)) == Reads(d, c.cx, c.cy, c.tiles)
    decreases |d|
  {
    if d != [] && InRange(c) {
      ReadsOp(d);
      if ReadOp(d).Some? {
        var item := ReadOp(d).value;
        StepReads(c, item.op, item.n);
        if Step(c, item.op, item.n).Some? { DecodeReads(d[item.length..], Step(c, item.op, item.n).value); }
      }
    }
  }

  /** One op, once its fields are known. */
  lemma StepReads(c: Cursor, op: Op, n: nat)
    requires n >= 1
    ensures Repeated(c.tiles, c.cy, n) == Again(c.tiles, c.cy, n)
    ensures Span(c.cx, c.cy, n) == set u | c.cx <= u < c.cx + n :: (u, c.cy)
  {
  }
}
