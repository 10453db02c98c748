/** The region tile codec: region.py's encoder and decoder, byte for byte. A row is a
    sequence of runs; equal rows in a row are written once and repeated. */
module RegionCodec {
  import opened Options
  import opened Bytes
  import opened TileMap

  // ------------------------------------------------------------------- ops

  /** The two top bits of an op byte. */
  datatype Op = Skip | Fill | EmptyRows | RepeatRow
  {
    function Code(): nat { match this case Skip => 0 case Fill => 1 case EmptyRows => 2 case RepeatRow => 3 }
  }

  function OpOf(code: nat): Op
    requires code < 4
  {
    if code == 0 then Skip else if code == 1 then Fill else if code == 2 then EmptyRows else RepeatRow
  }

  /** One byte for counts up to 32, two above. */
  function OpBytes(op: Op, n: nat): ByteString
    requires 1 <= n <= 8192
  {
    if n <= 32 then [64 * op.Code() + (n - 1)]
    else [64 * op.Code() + 32 + (n - 1) / 256, (n - 1) % 256]
  }

  datatype Item = Item(op: Op, n: nat, length: nat)

  /** The first op of a non-empty string; None if its second byte is missing. */
  function ReadOp(d: ByteString): (r: Option<Item>)
    requires d != []
    ensures r.Some? ==> 1 <= r.value.length <= |d| && r.value.n >= 1
  {
    var b := d[0] as int;
    var op := OpOf(b / 64);
    var d1 := b % 32;
    if b / 32 % 2 == 0 then Some(Item(op, d1 + 1, 1))
    else if |d| < 2 then None
    else Some(Item(op, d1 * 256 + (d[1] as int) + 1, 2))
  }

  lemma ByteFields(code: nat, k: nat)
    requires code < 4 && k < 32
    ensures (64 * code + k) / 64 == code && (64 * code + k) / 32 % 2 == 0 && (64 * code + k) % 32 == k
    ensures (64 * code + 32 + k) / 64 == code && (64 * code + 32 + k) / 32 % 2 == 1 && (64 * code + 32 + k) % 32 == k
  {
    assert (64 * code + k) / 32 == 2 * code && (64 * code + 32 + k) / 32 == 2 * code + 1;
  }

  lemma OpRoundTrip(op: Op, n: nat, rest: ByteString)
    requires 1 <= n <= 8192
    ensures ReadOp(OpBytes(op, n) + rest) == Some(Item(op, n, |OpBytes(op, n)|))
    ensures (OpBytes(op, n) + rest)[|OpBytes(op, n)|..] == rest
  {
    var d := OpBytes(op, n) + rest;
    assert OpOf(op.Code()) == op;
    if n <= 32 {
      ByteFields(op.Code(), n - 1);
      assert d[0] as int == 64 * op.Code() + (n - 1);
    } else {
      ByteFields(op.Code(), (n - 1) / 256);
      assert d[0] as int == 64 * op.Code() + 32 + (n - 1) / 256 && d[1] as int == (n - 1) % 256;
    }
  }

  // --------------------------------------------------------------- encoder

  type Row = r: seq<bool> | |r| == SIZE witness seq(SIZE, _ => false)

  function RowOf(tiles: Tiles, y: int): Row { seq(SIZE, x => (x, y) in tiles) }

  predicate IsEmptyRow(row: Row) { forall i | 0 <= i < SIZE :: !row[i] }

  /** Where the run that x is in ends. */
  function RunEnd(row: Row, x: nat, cur: bool): (e: nat)
    requires x <= SIZE
    ensures x <= e <= SIZE && (forall i | x <= i < e :: row[i] == cur) && (e < SIZE ==> row[e] != cur)
    decreases SIZE - x, row
  {
    if x < SIZE && row[x] == cur then RunEnd(row, x + 1, cur) else x
  }

  function RowBytes(row: Row, cx: nat): ByteString
    requires cx <= SIZE
    decreases SIZE - cx, row
  {
    if cx == SIZE then []
    else
      var e := RunEnd(row, cx, row[cx]);
      OpBytes(if row[cx] then Fill else Skip, e - cx) + RowBytes(row, e)
  }

  /** A row with nothing in it is None until the rows are put together. */
  function EncodedRow(row: Row): Option<ByteString> {
    if IsEmptyRow(row) then None else Some(RowBytes(row, 0))
  }

  type Rows = r: seq<Option<ByteString>> | |r| == SIZE witness seq(SIZE, _ => None)

  function RowsOf(tiles: Tiles): Rows { seq(SIZE, y => EncodedRow(RowOf(tiles, y))) }

  function SameEnd(rows: Rows, y: nat, cur: Option<ByteString>): (e: nat)
    requires y <= SIZE
    ensures y <= e <= SIZE && (forall i | y <= i < e :: rows[i] == cur) && (e < SIZE ==> rows[e] != cur)
    decreases SIZE - y, rows
  {
    if y < SIZE && rows[y] == cur then SameEnd(rows, y + 1, cur) else y
  }

  datatype Failure = TypeError | Rejected

  /** One group of n equal rows. A single empty row is appended as None, which the final
      join cannot handle. */
  function GroupBytes(cur: Option<ByteString>, n: nat): Result<ByteString, Failure>
    requires 1 <= n <= SIZE
  {
    match cur
    case None => if n == 1 then Err(TypeError) else Ok(OpBytes(EmptyRows, n))
    case Some(row) => if n == 1 then Ok(row) else Ok(row + OpBytes(RepeatRow, n - 1))
  }

  function Joined(first: Result<ByteString, Failure>, rest: Result<ByteString, Failure>): Result<ByteString, Failure> {
    if first.Err? then first else if rest.Err? then rest else Ok(first.value + rest.value)
  }

  function GroupsFrom(rows: Rows, cy: nat): Result<ByteString, Failure>
    requires cy <= SIZE
    decreases SIZE - cy, rows
  {
    if cy == SIZE then Ok([])
    else
      var e := SameEnd(rows, cy, rows[cy]);
      Joined(GroupBytes(rows[cy], e - cy), GroupsFrom(rows, e))
  }

  /** get_tile_data. */
  function Encode(tiles: Tiles): Result<ByteString, Failure> { GroupsFrom(RowsOf(tiles), 0) }

  // --------------------------------------------------------------- decoder

  function Span(cx: int, cy: int, n: nat): Tiles { set x | cx <= x < cx + n :: (x, cy) }

  /** The tiles that repeating row cy - 1 n times adds. */
  function Repeated(tiles: Tiles, cy: int, n: nat): Tiles {
    set x, y | 0 <= x < SIZE && cy <= y < cy + n && (x, cy - 1) in tiles :: (x, y)
  }

  datatype Cursor = Cursor(cx: int, cy: int, tiles: Tiles)

  function Wrap(c: Cursor): Cursor { if c.cx == SIZE then c.(cx := 0, cy := c.cy + 1) else c }

  /** One op; None is a failed assert. */
  function Step(c: Cursor, op: Op, n: nat): Option<Cursor> {
    match op
    case Skip => Some(Wrap(c.(cx := c.cx + n)))
    case Fill => Some(Wrap(c.(cx := c.cx + n, tiles := c.tiles + Span(c.cx, c.cy, n))))
    case EmptyRows => if c.cx != 0 then None else Some(c.(cy := c.cy + n))
    case RepeatRow =>
      if c.cx != 0 || c.cy <= 0 then None
      else Some(c.(cy := c.cy + n, tiles := c.tiles + Repeated(c.tiles, c.cy, n)))
  }

  predicate InRange(c: Cursor) { 0 <= c.cx < SIZE && 0 <= c.cy < SIZE }

  /** load_tile_data from the present position on. */
  function DecodeFrom(d: ByteString, c: Cursor): Result<Tiles, Failure>
    decreases |d|
  {
    if d == [] then if c.cy == SIZE then Ok(c.tiles) else Err(Rejected)
    else if !InRange(c) then Err(Rejected)
    else
      var item := ReadOp(d);
      if item.None? then Err(Rejected)
      else
        var next := Step(c, item.value.op, item.value.n);
        if next.None? then Err(Rejected) else DecodeFrom(d[item.value.length..], next.value)
  }

  function Decode(d: ByteString): Result<Tiles, Failure> { DecodeFrom(d, Cursor(0, 0, {})) }

  // --------------------------------------------------------------- in place

  /** How far the run starting at cx reaches. */
  method ScanRun(tiles: Tiles, cy: nat, cx: nat) returns (x: nat)
    requires cx < SIZE
    ensures x == RunEnd(RowOf(tiles, cy), cx, (cx, cy) in tiles) && x > cx
  {
    ghost var row := RowOf(tiles, cy);
    var cur := (cx, cy) in tiles;
    x := cx;
    while x < SIZE && ((x, cy) in tiles) == cur
      invariant cx <= x <= SIZE && RunEnd(row, x, cur) == RunEnd(row, cx, cur)
      invariant x > cx || (x < SIZE && row[x] == cur)
    {
      assert row[x] == cur;
      x := x + 1;
    }
    assert x < SIZE ==> row[x] != cur;
  }

  method Emit(op: Op, n: nat) returns (bytes: ByteString)
    requires 1 <= n <= 8192
    ensures bytes == OpBytes(op, n)
  {
    if n <= 32 {
      bytes := [64 * op.Code() + (n - 1)];
    } else {
      bytes := [64 * op.Code() + 32 + (n - 1) / 256];
      bytes := bytes + [(n - 1) % 256];
    }
  }

  lemma RowBytesStep(row: Row, cx: nat, bytes: ByteString)
    requires cx < SIZE
    ensures var e := RunEnd(row, cx, row[cx]);
            e > cx && bytes + RowBytes(row, cx) == bytes + OpBytes(if row[cx] then Fill else Skip, e - cx) + RowBytes(row, e)
  {
    var e := RunEnd(row, cx, row[cx]);
    Associates(bytes, OpBytes(if row[cx] then Fill else Skip, e - cx), RowBytes(row, e));
  }

  lemma Associates(a: ByteString, b: ByteString, c: ByteString)
    ensures a + (b + c) == a + b + c
  {
  }

  lemma WholeEmptyRun(row: Row, cx: nat)
    requires cx < SIZE
    ensures cx == 0 && RunEnd(row, cx, row[cx]) == SIZE && !row[cx] ==> IsEmptyRow(row)
    ensures IsEmptyRow(row) ==> RunEnd(row, 0, false) == SIZE && !row[0]
  {
  }

  /** One run of a row and its op. */
  method EncodeRun(tiles: Tiles, cy: nat, cx: nat) returns (x: nat, cur: bool, op: ByteString)
    requires cx < SIZE
    ensures var row := RowOf(tiles, cy);
            && cur == row[cx] && x == RunEnd(row, cx, cur) && x > cx
            && op == OpBytes(if cur then Fill else Skip, x - cx)
  {
    cur := (cx, cy) in tiles;
    x := ScanRun(tiles, cy, cx);
    op := Emit(if cur then Fill else Skip, x - cx);
  }

  /** What a written run leaves to be written; a row that is one empty run is empty. */
  lemma RunWritten(row: Row, cx: nat, bytes: ByteString, x: nat, op: ByteString)
    requires cx < SIZE && x == RunEnd(row, cx, row[cx]) && op == OpBytes(if row[cx] then Fill else Skip, x - cx)
    ensures bytes + RowBytes(row, cx) == bytes + op + RowBytes(row, x)
    ensures x - cx == SIZE && !row[cx] ==> IsEmptyRow(row)
    ensures IsEmptyRow(row) && cx == 0 ==> x == SIZE && !row[cx]
  {
    RowBytesStep(row, cx, bytes);
    WholeEmptyRun(row, cx);
  }

  /** The inner loop of get_tile_data's first half: one row. */
  method EncodeRow(tiles: Tiles, cy: nat) returns (crow: Option<ByteString>)
    ensures crow == EncodedRow(RowOf(tiles, cy))
  {
    ghost var row := RowOf(tiles, cy);
    ghost var full := RowBytes(row, 0);
    var cx := 0;
    var bytes: ByteString := [];
    assert bytes + full == full;
    while cx < SIZE
      invariant 0 <= cx <= SIZE
      invariant bytes + RowBytes(row, cx) == full
      invariant cx > 0 ==> !IsEmptyRow(row)
      decreases SIZE - cx
    {
      var x, cur, op := EncodeRun(tiles, cy, cx);
      RunWritten(row, cx, bytes, x, op);
      if x - cx == SIZE && !cur { return None; }
      bytes := bytes + op;
      cx := x;
    }
    assert bytes + [] == bytes;
    return Some(bytes);
  }

  /** get_tile_data. */
  method GetTileData(tiles: Tiles) returns (r: Result<ByteString, Failure>)
    ensures r == Encode(tiles)
  {
    var rows: seq<Option<ByteString>> := [];
    var cy := 0;
    while cy < SIZE
      invariant 0 <= cy <= SIZE && rows == RowsOf(tiles)[..cy]
    {
      var crow := EncodeRow(tiles, cy);
      rows := rows + [crow];
      cy := cy + 1;
    }
    assert rows == RowsOf(tiles);
    r := JoinRows(rows);
  }

  method ScanSame(rows: Rows, cy: nat) returns (y: nat)
    requires cy < SIZE
    ensures y == SameEnd(rows, cy, rows[cy]) && y > cy
  {
    y := cy;
    while y < SIZE && rows[y] == rows[cy]
      invariant cy <= y <= SIZE && SameEnd(rows, y, rows[cy]) == SameEnd(rows, cy, rows[cy])
      invariant y > cy || rows[y] == rows[cy]
    {
      y := y + 1;
    }
  }

  /** get_tile_data's second half: equal rows are written once and repeated. */
  method JoinRows(rows: Rows) returns (r: Result<ByteString, Failure>)
    ensures r == GroupsFrom(rows, 0)
  {
    r := Ok([]);
    JoinedNothing(GroupsFrom(rows, 0));
    var cy := 0;
    while cy < SIZE
      invariant 0 <= cy <= SIZE
      invariant Joined(r, GroupsFrom(rows, cy)) == GroupsFrom(rows, 0)
      decreases SIZE - cy
    {
      var y := ScanSame(rows, cy);
      JoinedMore(r, GroupBytes(rows[cy], y - cy), GroupsFrom(rows, y));
      r := Joined(r, GroupBytes(rows[cy], y - cy));
      cy := y;
    }
    JoinedNothing(r);
  }

  lemma JoinedNothing(r: Result<ByteString, Failure>)
    ensures Joined(Ok([]), r) == r && Joined(r, Ok([])) == r
  {
    if r.Ok? { assert [] + r.value == r.value && r.value + [] == r.value; }
  }

  lemma JoinedMore(a: Result<ByteString, Failure>, b: Result<ByteString, Failure>, c: Result<ByteString, Failure>)
    ensures Joined(Joined(a, b), c) == Joined(a, Joined(b, c))
  {
    if a.Ok? && b.Ok? && c.Ok? {
      assert a.value + b.value + c.value == a.value + (b.value + c.value);
    }
  }

  // ------------------------------------------------------ decoder, in place

  method FillSpan(tiles: Tiles, cx: int, cy: int, n: nat) returns (r: Tiles)
    ensures r == tiles + Span(cx, cy, n)
  {
    r := tiles;
    for x := 0 to n
      invariant r == tiles + Span(cx, cy, x)
    {
      r := r + {(cx + x, cy)};
    }
  }

  function RowCopied(tiles: Tiles, cy: int, y: int, n: nat): Tiles { set x | 0 <= x < n && (x, cy - 1) in tiles :: (x, y) }

  method CopyRow(tiles: Tiles, cy: int, y: int) returns (r: Tiles)
    requires y >= cy
    ensures r == tiles + RowCopied(tiles, cy, y, SIZE)
  {
    r := tiles;
    for x := 0 to SIZE
      invariant r == tiles + RowCopied(tiles, cy, y, x)
    {
      assert RowCopied(tiles, cy, y, x + 1)
          == RowCopied(tiles, cy, y, x) + if (x, cy - 1) in tiles then {(x as int, y)} else {};
      if (x, cy - 1) in r { r := r + {(x, y)}; }
    }
  }

  method RepeatLastRow(tiles: Tiles, cy: int, n: nat) returns (r: Tiles)
    ensures r == tiles + Repeated(tiles, cy, n)
  {
    r := tiles;
    for y := 0 to n
      invariant r == tiles + Repeated(tiles, cy, y)
    {
      ghost var before := r;
      r := CopyRow(r, cy, cy + y);
      assert Repeated(tiles, cy, y + 1) == Repeated(tiles, cy, y) + RowCopied(before, cy, cy + y, SIZE);
    }
  }

  /** The body of load_tile_data's loop once an op has been read. */
  method ApplyOp(c: Cursor, op: Op, n: nat) returns (next: Option<Cursor>)
    ensures next == Step(c, op, n)
  {
    var cx, cy, tiles := c.cx, c.cy, c.tiles;
    match op {
      case Skip =>
        cx := cx + n;
      case Fill =>
        tiles := FillSpan(tiles, cx, cy, n);
        cx := cx + n;
      case EmptyRows =>
        if cx != 0 { return None; }
        cy := cy + n;
      case RepeatRow =>
        if !(cx == 0 && cy > 0) { return None; }
        tiles := RepeatLastRow(tiles, cy, n);
        cy := cy + n;
    }
    if cx == SIZE {
      cx := 0;
      cy := cy + 1;
    }
    return Some(Cursor(cx, cy, tiles));
  }

  /** load_tile_data. */
  method LoadTileData(d: ByteString) returns (r: Result<Tiles, Failure>)
    ensures r == Decode(d)
  {
    var c := Cursor(0, 0, {});
    var i := 0;
    assert d[0..] == d;
    while i < |d|
      invariant 0 <= i <= |d|
      invariant DecodeFrom(d[i..], c) == Decode(d)
    {
      if !InRange(c) { return Err(Rejected); }
      var item := ReadOp(d[i..]);
      if item.None? { return Err(Rejected); }
      var next := ApplyOp(c, item.value.op, item.value.n);
      if next.None? { return Err(Rejected); }
      assert d[i..][item.value.length..] == d[i + item.value.length..];
      i := i + item.value.length;
      c := next.value;
    }
    if c.cy != SIZE { return Err(Rejected); }
    return Ok(c.tiles);
  }
}
