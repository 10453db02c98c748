/** All the regions of a file, loaded one after another: what the index answers about
    them, and when it runs out of sets. */
module RegionFile {
  import opened Options
  import opened Bytes
  import opened TileMap
  import opened RegionCodec
  import opened Bitmaps
  import opened RegionIndex
  import opened RegionLoad
  import opened RegionRoundTrip

  /** Region k is the one whose tile chunk comes k-th. */
  function LoadAll(chunks: seq<ByteString>): Index
    decreases |chunks|, chunks
  {
    if chunks == [] then EMPTY_INDEX
    else
      var k := |chunks| - 1;
      Load(chunks[k], k, LoadAll(chunks[..k])).end.ix
  }

  predicate AllDecode(chunks: seq<ByteString>) { forall d | d in chunks :: Decode(d).Ok? }

  /** The tiles a region is meant to have. */
  function Painted(chunks: seq<ByteString>, r: RegionId): Tiles
    requires AllDecode(chunks)
  {
    if r < |chunks| then Decode(chunks[r]).value else {}
  }

  /** The regions on a tile, in load order. */
  function Containing(chunks: seq<ByteString>, t: Tile): seq<RegionId>
    requires AllDecode(chunks)
    decreases |chunks|, chunks
  {
    if chunks == [] then []
    else
      var k := |chunks| - 1;
      WithRegion(Containing(chunks[..k], t), k, t in Painted(chunks, k))
  }

  /** Every list of regions some tile has had at some time. */
  ghost function Lists(chunks: seq<ByteString>): set<seq<RegionId>>
    requires AllDecode(chunks)
    decreases |chunks|, chunks
  {
    if chunks == [] then {[]}
    else
      var front := chunks[..|chunks| - 1];
      Lists(front) + set t | t in Painted(chunks, |chunks| - 1) :: Containing(front, t) + [|chunks| - 1]
  }

  ghost predicate Exact(chunks: seq<ByteString>, ix: Index)
    requires AllDecode(chunks)
  {
    && (forall t: Tile | InMap(t.0, t.1) :: ix.SetAt(t) == Containing(chunks, t))
    && (set s | s in ix.sets) == Lists(chunks)
  }

  /** What holds of the index once some regions have been loaded. */
  ghost predicate Loaded(chunks: seq<ByteString>, ix: Index)
    requires AllDecode(chunks)
  {
    && IndexOk(ix, |chunks|) && (forall s, r | s in ix.sets && r in s :: r < |chunks|)
    && (forall r: RegionId :: TilesOf(ix, r) <= Painted(chunks, r))
    && (if ix.lost then TooMany(Lists(chunks)) else Exact(chunks, ix))
  }

  lemma OnTheMap(d: ByteString)
    requires Decode(d).Ok?
    ensures forall t | t in Decode(d).value :: InMap(t.0, t.1)
  {
    EmptyIndexOk(0);
    LoadsWhatDecodes(d, 0, EMPTY_INDEX);
  }

  lemma {:induction false} ContainingMembers(chunks: seq<ByteString>, t: Tile, r: RegionId)
    requires AllDecode(chunks)
    ensures r in Containing(chunks, t) <==> t in Painted(chunks, r)
    decreases |chunks|
  {
    if chunks != [] { ContainingMembers(chunks[..|chunks| - 1], t, r); }
  }

  lemma LoadOne(chunks: seq<ByteString>, was: Index)
    requires chunks != [] && AllDecode(chunks) && Loaded(chunks[..|chunks| - 1], was)
    ensures var k := |chunks| - 1; Shows(was, Load(chunks[k], k, was).end.ix, k, Painted(chunks, k))
  {
    var k := |chunks| - 1;
    assert Unused(was, k);
    LoadsWhatDecodes(chunks[k], k, was);
  }

  lemma WantedLists(chunks: seq<ByteString>, was: Index)
    requires chunks != [] && AllDecode(chunks) && Exact(chunks[..|chunks| - 1], was)
    ensures Wanted(was, |chunks| - 1, Painted(chunks, |chunks| - 1)) == Lists(chunks)
  {
    var k := |chunks| - 1;
    OnTheMap(chunks[k]);
    assert forall t | t in Painted(chunks, k) :: was.SetAt(t) == Containing(chunks[..k], t);
  }

  lemma {:induction false} AllLoaded(chunks: seq<ByteString>)
    requires AllDecode(chunks)
    ensures Loaded(chunks, LoadAll(chunks))
    decreases |chunks|
  {
    if chunks == [] {
      EmptyIndexOk(0);
      assert (set s | s in EMPTY_INDEX.sets) == {[]};
    } else {
      var k := |chunks| - 1;
      AllLoaded(chunks[..k]);
      LoadOne(chunks, LoadAll(chunks[..k]));
      ShownIsLoaded(chunks, LoadAll(chunks[..k]), LoadAll(chunks));
    }
  }

  lemma ShownIsLoaded(chunks: seq<ByteString>, was: Index, ix: Index)
    requires chunks != [] && AllDecode(chunks) && Loaded(chunks[..|chunks| - 1], was)
    requires Shows(was, ix, |chunks| - 1, Painted(chunks, |chunks| - 1))
    ensures Loaded(chunks, ix)
  {
    var k := |chunks| - 1;
    assert forall s | s in ix.sets :: exists i :: 0 <= i < |ix.sets| && ix.sets[i] == s;
    forall r: RegionId ensures TilesOf(ix, r) <= Painted(chunks, r) { TilesStay(was, ix, k, Painted(chunks, k), r); }
    if !ix.lost {
      StaysExact(chunks, was, ix);
    } else if was.lost {
      Fewer(Lists(chunks[..k]), Lists(chunks));
    } else {
      WantedLists(chunks, was);
    }
  }

  lemma TilesStay(was: Index, ix: Index, k: RegionId, tiles: Tiles, r: RegionId)
    requires Shows(was, ix, k, tiles)
    ensures TilesOf(ix, r) <= if r == k then tiles else TilesOf(was, r)
  {
  }

  lemma StaysExact(chunks: seq<ByteString>, was: Index, ix: Index)
    requires chunks != [] && AllDecode(chunks) && Exact(chunks[..|chunks| - 1], was) && !ix.lost
    requires Shows(was, ix, |chunks| - 1, Painted(chunks, |chunks| - 1))
    ensures Exact(chunks, ix)
  {
  }

  // ---------------------------------------------------------- main results

  /** Unless the limit was reached, Contains and the set of a point answer exactly the
      painted tile sets at every point; a coordinate counts modulo the map's size. */
  lemma AnswersArePainted(chunks: seq<ByteString>, x: int, y: int)
    requires AllDecode(chunks) && !LoadAll(chunks).lost
    ensures Enum(LoadAll(chunks), x, y) == Containing(chunks, Index.Key(x, y))
    ensures forall r: RegionId :: Contains(LoadAll(chunks), r, x, y) <==> Index.Key(x, y) in Painted(chunks, r)
  {
    var t := Index.Key(x, y);
    AllLoaded(chunks);
    LooksUp(LoadAll(chunks), |chunks|, x, y);
    assert InMap(t.0, t.1);
    forall r: RegionId ensures r in Containing(chunks, t) <==> t in Painted(chunks, r) {
      ContainingMembers(chunks, t, r);
    }
  }

  /** Past the limit tiles are missing, but there is never one too many. */
  lemma AnswersNeverInvent(chunks: seq<ByteString>, r: RegionId, x: int, y: int)
    requires AllDecode(chunks) && Contains(LoadAll(chunks), r, x, y)
    ensures Index.Key(x, y) in Painted(chunks, r)
  {
    AllLoaded(chunks);
    LooksUp(LoadAll(chunks), |chunks|, x, y);
  }

  /** Tiles are lost if and only if some tile's regions, in load order, have gone
      through more different lists than there are sets. */
  lemma LostIff(chunks: seq<ByteString>)
    requires AllDecode(chunks)
    ensures LoadAll(chunks).lost <==> |Lists(chunks)| > 256
  {
    AllLoaded(chunks);
    if !LoadAll(chunks).lost {
      DistinctCount(LoadAll(chunks).sets);
    }
  }

  function Encoded(regions: seq<Tiles>): seq<ByteString>
    requires forall i | 0 <= i < |regions| :: Encode(regions[i]).Ok?
  {
    seq(|regions|, i requires 0 <= i < |regions| => Encode(regions[i]).value)
  }

  /** From the map editor's tile sets through the encoder and the decoder in C to the
      index: the server answers with the sets that went in. */
  lemma EncoderToIndex(regions: seq<Tiles>, r: RegionId, x: int, y: int)
    requires forall i | 0 <= i < |regions| :: Encode(regions[i]).Ok?
    requires !LoadAll(Encoded(regions)).lost && r < |regions|
    ensures Load(Encoded(regions)[r], r, LoadAll(Encoded(regions)[..r])).ok
    ensures Contains(LoadAll(Encoded(regions)), r, x, y) <==> Index.Key(x, y) in regions[r]
  {
    var chunks := Encoded(regions);
    forall d | d in chunks ensures Decode(d).Ok? {
      var i :| 0 <= i < |chunks| && chunks[i] == d;
      RoundTrip(regions[i]);
    }
    RoundTrip(regions[r]);
    AnswersArePainted(chunks, x, y);
    SameVerdict(chunks[r], r, Start(LoadAll(chunks[..r])), Cursor(0, 0, {}));
    assert Index.Key(x, y) in OnMap(regions[r]) <==> Index.Key(x, y) in regions[r];
  }
}
