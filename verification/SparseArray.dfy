/** The emitted C in place: init_sparse, lookup_sparse, insert_sparse, cleanup_sparse. */
module SparseArray {
  import opened Options
  import opened Bytes
  import opened Sparse

  lemma By32(x: int, q: int, r: int)
    requires x == 32 * q + r && 0 <= r < 32
    ensures x / 32 == q && x % 32 == r
  {
  }

  lemma By8(x: int, q: int, r: int)
    requires x == 8 * q + r && 0 <= r < 8
    ensures x / 8 == q && x % 8 == r
  {
  }

  lemma By4(x: int, q: int, r: int)
    requires x == 4 * q + r && 0 <= r < 4
    ensures x / 4 == q && x % 4 == r
  {
  }

  lemma LowBits(x: int)
    ensures x / 32 % 32 == x % 1024 / 32 && x / 8 % 4 == x % 1024 / 8 % 4 && x % 8 == x % 1024 % 8
  {
    var q, m := x / 1024, x % 1024;
    By32(x, 32 * q + m / 32, m % 32);
    By32(32 * q + m / 32, q, m / 32);
    By8(x, 128 * q + m / 8, m % 8);
    By4(128 * q + m / 8, 32 * q + m / 8 / 4, m / 8 % 4);
  }

  lemma SameViewTrans(h0: Heap, o0: Homes, h1: Heap, o1: Homes, h2: Heap, o2: Homes)
    requires Valid(h0, o0) && Valid(h1, o1) && Valid(h2, o2)
    requires SameView(h0, o0, h1, o1) && SameView(h1, o1, h2, o2)
    ensures SameView(h0, o0, h2, o2)
  {
  }

  /** The flat map has changed at one point. */
  ghost predicate ViewWith(h: Heap, o: Homes, h': Heap, o': Homes, x: int, y: int, v: byte)
    requires Valid(h, o) && Valid(h', o')
  {
    forall a, b | 0 <= a < 1024 && 0 <= b < 1024 ::
      View(h', o', a, b) == if a == x && b == y then v else View(h, o, a, b)
  }

  lemma Inserted(h0: Heap, o0: Homes, h: Heap, o: Homes, x: nat, y: nat, v: byte)
    requires Valid(h0, o0) && Valid(h, o) && SameView(h0, o0, h, o)
    requires x < 1024 && y < 1024 && LeafAt(h, o, x, y).Some?
    ensures var h' := SetIn(h, LeafAt(h, o, x, y).value, x % 8, y % 8, v);
            Valid(h', o) && ViewWith(h0, o0, h', o, x, y, v)
  {
    SetCell(h, o, x, y, v);
    var h' := SetIn(h, LeafAt(h, o, x, y).value, x % 8, y % 8, v);
    forall a, b | 0 <= a < 1024 && 0 <= b < 1024
      ensures View(h', o, a, b) == if a == x && b == y then v else View(h0, o0, a, b)
    {
      assert View(h, o, a, b) == View(h0, o0, a, b);
    }
  }

  lemma InsertedAt(h0: Heap, o0: Homes, h: Heap, o: Homes, q: Ptr, x: nat, y: nat, v: byte,
                   i: nat, j: nat, k: nat, l: nat, m: nat, n: nat)
    requires Valid(h0, o0) && Valid(h, o) && SameView(h0, o0, h, o) && x < 1024 && y < 1024
    requires i == x / 32 && j == y / 32 && k == x / 8 % 4 && l == y / 8 % 4 && m == x % 8 && n == y % 8
    requires LeafIn(h, o, i, j, k, l) == Some(q)
    ensures q in h.leaves && Valid(SetIn(h, q, m, n, v), o) && ViewWith(h0, o0, SetIn(h, q, m, n, v), o, x, y, v)
  {
    CellByLeaf(h, o, i, j, k, l, m, n);
    Inserted(h0, o0, h, o, x, y, v);
  }

  /** amalloc: some address not in use. */
  method Malloc(used: set<Ptr>) returns (p: Ptr)
    ensures p !in used
  {
    p := 0;
    var rest := used;
    while p in rest
      invariant forall q | q in used :: q in rest || q < p
      decreases |rest|
    {
      rest := rest - {p};
      p := p + 1;
    }
  }

  /** No leaf of the branch holds only defaults, and the branch has a leaf. */
  ghost predicate Tidy(h: Heap, o: Homes, p: Ptr)
    requires LeavesOk(h, o)
  {
    p in h.branches && !EmptyBranch(h.branches[p]) && TidyUpTo(h, o, p, 4, 0)
  }

  ghost predicate Before(k: int, l: int, i: int, j: int) { k < i || (k == i && l < j) }

  ghost predicate TidyUpTo(h: Heap, o: Homes, p: Ptr, i: int, j: int)
    requires LeavesOk(h, o) && p in h.branches
  {
    forall k, l | 0 <= k < 4 && 0 <= l < 4 && Before(k, l, i, j) && h.branches[p][k][l].Some? ::
      !EmptyLeaf(h.leaves[h.branches[p][k][l].value])
  }

  ghost predicate Disposable(h: Heap, p: Ptr, k: nat, l: nat)
    requires p in h.branches && Shape(h.branches[p], 4) && k < 4 && l < 4
  {
    && h.branches[p][k][l].Some? && h.branches[p][k][l].value in h.leaves
    && Shape(h.leaves[h.branches[p][k][l].value], 8) && EmptyLeaf(h.leaves[h.branches[p][k][l].value])
  }

  ghost function CleanedLeaf(h: Heap, p: Ptr, k: nat, l: nat): Heap
    requires p in h.branches && Shape(h.branches[p], 4) && k < 4 && l < 4
  {
    if Disposable(h, p, k, l) then FreeLeaf(h, p, k, l) else h
  }

  ghost function CleanedHomes(h: Heap, o: Homes, p: Ptr, k: nat, l: nat): Homes
    requires p in h.branches && Shape(h.branches[p], 4) && k < 4 && l < 4
  {
    if Disposable(h, p, k, l) then o.(leaf := Without(o.leaf, h.branches[p][k][l].value)) else o
  }

  /** What cleaning inside branch p may change: entries of p go, and leaves go, but no
      leaf that stays changes. */
  ghost predicate OnlyDrops(h: Heap, h': Heap, p: Ptr) {
    && h'.top == h.top && h'.branches.Keys == h.branches.Keys
    && (forall b | b in h.branches && b != p :: h'.branches[b] == h.branches[b])
    && (forall q | q in h'.leaves :: q in h.leaves && h'.leaves[q] == h.leaves[q])
  }

  lemma FreeOnlyDrops(h: Heap, p: Ptr, k: nat, l: nat)
    requires p in h.branches && Shape(h.branches[p], 4) && k < 4 && l < 4 && h.branches[p][k][l].Some?
    ensures OnlyDrops(h, FreeLeaf(h, p, k, l), p)
  {
  }

  lemma CleanedLeafOk(h: Heap, o: Homes, p: Ptr, k: nat, l: nat)
    requires Valid(h, o) && p in h.branches && k < 4 && l < 4
    ensures var h', o' := CleanedLeaf(h, p, k, l), CleanedHomes(h, o, p, k, l);
            Valid(h', o') && SameView(h, o, h', o') && OnlyDrops(h, h', p)
  {
    if Disposable(h, p, k, l) {
      DropLeaf(h, o, p, k, l);
      FreeOnlyDrops(h, p, k, l);
    }
  }

  lemma CleanedLeafTidy(h: Heap, o: Homes, p: Ptr, k: nat, l: nat)
    requires Valid(h, o) && p in h.branches && k < 4 && l < 4 && TidyUpTo(h, o, p, k, l)
    requires Valid(CleanedLeaf(h, p, k, l), CleanedHomes(h, o, p, k, l))
    ensures TidyUpTo(CleanedLeaf(h, p, k, l), CleanedHomes(h, o, p, k, l), p, k, l + 1)
  {
  }

  lemma CleanedLeafNone(h: Heap, o: Homes, p: Ptr, k: nat, l: nat)
    requires Valid(h, o) && p in h.branches && k < 4 && l < 4
    ensures NoneUpTo(CleanedLeaf(h, p, k, l), p, k, l + 1)
            <==> NoneUpTo(h, p, k, l) && CleanedLeaf(h, p, k, l).branches[p][k][l].None?
  {
  }

  ghost predicate NoneUpTo(h: Heap, p: Ptr, i: int, j: int) {
    p in h.branches && Shape(h.branches[p], 4)
    && forall k, l | 0 <= k < 4 && 0 <= l < 4 && Before(k, l, i, j) :: h.branches[p][k][l].None?
  }

  lemma DropsTrans(h0: Heap, h1: Heap, h2: Heap, p: Ptr)
    requires OnlyDrops(h0, h1, p) && OnlyDrops(h1, h2, p)
    ensures OnlyDrops(h0, h2, p)
  {
  }

  /** Every branch hanging before (i, j) is tidy. */
  ghost predicate TidyTop(h: Heap, o: Homes, i: int, j: int)
    requires Valid(h, o)
  {
    forall a, b | 0 <= a < 32 && 0 <= b < 32 && Before(a, b, i, j) && h.top[a][b].Some? :: Tidy(h, o, h.top[a][b].value)
  }

  /** Tidying a branch does not untidy another. */
  lemma StaysTidy(h: Heap, o: Homes, h': Heap, o': Homes, p: Ptr, q: Ptr)
    requires Valid(h, o) && Valid(h', o') && OnlyDrops(h, h', p) && q != p && Tidy(h, o, q)
    ensures Tidy(h', o', q)
  {
  }

  lemma TidiedOne(h: Heap, o: Homes, h': Heap, o': Homes, i: nat, j: nat)
    requires Valid(h, o) && Valid(h', o') && i < 32 && j < 32 && h.top[i][j].Some?
    requires OnlyDrops(h, h', h.top[i][j].value) && TidyTop(h, o, i, j)
    requires !EmptyBranch(h'.branches[h.top[i][j].value]) ==> Tidy(h', o', h.top[i][j].value)
    ensures TidyTop(h', o', i, j)
    ensures !EmptyBranch(h'.branches[h.top[i][j].value]) ==> TidyTop(h', o', i, j + 1)
  {
    var p := h.top[i][j].value;
    forall a, b | 0 <= a < 32 && 0 <= b < 32 && Before(a, b, i, j) && h'.top[a][b].Some?
      ensures Tidy(h', o', h'.top[a][b].value)
    {
      assert o.branch[h.top[a][b].value] == (a, b) && o.branch[p] == (i, j);
      StaysTidy(h, o, h', o', p, h.top[a][b].value);
    }
  }

  lemma FreedTop(h: Heap, o: Homes, i: nat, j: nat)
    requires Valid(h, o) && i < 32 && j < 32 && h.top[i][j].Some? && EmptyBranch(h.branches[h.top[i][j].value])
    requires TidyTop(h, o, i, j)
    requires Valid(FreeBranch(h, i, j), o.(branch := Without(o.branch, h.top[i][j].value)))
    ensures TidyTop(FreeBranch(h, i, j), o.(branch := Without(o.branch, h.top[i][j].value)), i, j + 1)
  {
  }

  /** Once everything is tidy no live chunk holds only defaults. */
  lemma AllTidy(h: Heap, o: Homes)
    requires Valid(h, o) && TidyTop(h, o, 32, 0)
    ensures forall p | p in h.branches :: !EmptyBranch(h.branches[p])
    ensures forall q | q in h.leaves :: !EmptyLeaf(h.leaves[q])
  {
    forall p | p in h.branches ensures !EmptyBranch(h.branches[p]) { BranchIsTidy(h, o, p); }
    forall q | q in h.leaves ensures !EmptyLeaf(h.leaves[q]) {
      BranchIsTidy(h, o, o.leaf[q].branch);
      LeafIsTidy(h, o, q);
    }
  }

  lemma BranchIsTidy(h: Heap, o: Homes, p: Ptr)
    requires Valid(h, o) && TidyTop(h, o, 32, 0) && p in h.branches
    ensures Tidy(h, o, p)
  {
    assert h.top[o.branch[p].0][o.branch[p].1] == Some(p);
  }

  lemma LeafIsTidy(h: Heap, o: Homes, q: Ptr)
    requires LeavesOk(h, o) && q in h.leaves && Tidy(h, o, o.leaf[q].branch)
    ensures !EmptyLeaf(h.leaves[q])
  {
    assert h.branches[o.leaf[q].branch][o.leaf[q].k][o.leaf[q].l] == Some(q);
  }

  class SparseArray {
    var top: Grid<Option<Ptr>>
    var branches: map<Ptr, Grid<Option<Ptr>>>
    var leaves: map<Ptr, Grid<byte>>
    ghost var homes: Homes

    ghost function Snapshot(): Heap
      reads this
    {
      Heap(top, branches, leaves)
    }

    ghost predicate Ok()
      reads this
    {
      Valid(Snapshot(), homes)
    }

    /** init_sparse. */
    constructor ()
      ensures Ok()
      ensures forall x, y | 0 <= x < 1024 && 0 <= y < 1024 :: View(Snapshot(), homes, x, y) == DEFAULT
    {
      top, branches, leaves := Blank(32, None), map[], map[];
      homes := Homes(map[], map[]);
    }

    method Lookup(x: int, y: int) returns (v: byte)
      requires Ok()
      ensures v == View(Snapshot(), homes, x % 1024, y % 1024)
    {
      LowBits(x);
      LowBits(y);
      var b := top[x / 32 % 32][y / 32 % 32];
      if b.Some? {
        var l := branches[b.value][x / 8 % 4][y / 8 % 4];
        if l.Some? { return leaves[l.value][x % 8][y % 8]; }
      }
      return DEFAULT;
    }

    method EnsureBranch(i: nat, j: nat) returns (p: Ptr)
      requires Ok() && i < 32 && j < 32
      modifies this
      ensures Ok() && top[i][j] == Some(p)
      ensures SameView(old(Snapshot()), old(homes), Snapshot(), homes)
    {
      if top[i][j].None? {
        p := Malloc(branches.Keys);
        AddBranch(Snapshot(), homes, i, j, p);
        branches := branches[p := Blank(4, None)];
        top := Put(top, 32, i, j, Some(p));
        homes := homes.(branch := homes.branch[p := (i, j)]);
      } else {
        p := top[i][j].value;
      }
    }

    method Hang(p: Ptr, k: nat, l: nat, q: Ptr)
      requires p in branches && Shape(branches[p], 4) && k < 4 && l < 4
      modifies this
      ensures Snapshot() == HangLeaf(old(Snapshot()), p, k, l, q)
      ensures homes == old(homes.(leaf := homes.leaf[q := Slot(p, k, l)]))
    {
      leaves := leaves[q := Blank(8, DEFAULT)];
      branches := branches[p := Put(branches[p], 4, k, l, Some(q))];
      homes := homes.(leaf := homes.leaf[q := Slot(p, k, l)]);
    }

    method EnsureLeaf(p: Ptr, k: nat, l: nat) returns (q: Ptr)
      requires Ok() && p in branches && k < 4 && l < 4
      modifies this
      ensures Ok() && top == old(top) && p in branches && branches[p][k][l] == Some(q)
      ensures SameView(old(Snapshot()), old(homes), Snapshot(), homes)
    {
      if branches[p][k][l].None? {
        q := Malloc(leaves.Keys);
        AddLeaf(Snapshot(), homes, p, k, l, q);
        Hang(p, k, l, q);
      } else {
        q := branches[p][k][l].value;
      }
    }

    /** insert_sparse changes the flat map at one point. */
    method Insert(x: int, y: int, datum: byte)
      requires Ok()
      modifies this
      ensures Ok() && ViewWith(old(Snapshot()), old(homes), Snapshot(), homes, x % 1024, y % 1024, datum)
    {
      LowBits(x);
      LowBits(y);
      InsertAt(x / 32 % 32, y / 32 % 32, x / 8 % 4, y / 8 % 4, x % 8, y % 8, datum, x % 1024, y % 1024);
    }

    /** The same with the coordinates already taken apart. */
    method InsertAt(i: nat, j: nat, k: nat, l: nat, m: nat, n: nat, datum: byte, ghost x: nat, ghost y: nat)
      requires Ok() && x < 1024 && y < 1024 && i < 32 && j < 32 && k < 4 && l < 4 && m < 8 && n < 8
      requires i == x / 32 && j == y / 32 && k == x / 8 % 4 && l == y / 8 % 4 && m == x % 8 && n == y % 8
      modifies this
      ensures Ok() && ViewWith(old(Snapshot()), old(homes), Snapshot(), homes, x, y, datum)
    {
      ghost var h0, o0 := Snapshot(), homes;
      var q := EnsureChunks(i, j, k, l);
      InsertedAt(h0, o0, Snapshot(), homes, q, x, y, datum, i, j, k, l, m, n);
      ghost var h := SetIn(Snapshot(), q, m, n, datum);
      SetLeaf(q, m, n, datum);
      assert Snapshot() == h;
    }

    method EnsureChunks(i: nat, j: nat, k: nat, l: nat) returns (q: Ptr)
      requires Ok() && i < 32 && j < 32 && k < 4 && l < 4
      modifies this
      ensures Ok() && LeafIn(Snapshot(), homes, i, j, k, l) == Some(q)
      ensures SameView(old(Snapshot()), old(homes), Snapshot(), homes)
    {
      ghost var h0, o0 := Snapshot(), homes;
      var p := EnsureBranch(i, j);
      ghost var h1, o1 := Snapshot(), homes;
      q := EnsureLeaf(p, k, l);
      SameViewTrans(h0, o0, h1, o1, Snapshot(), homes);
    }

    method SetLeaf(q: Ptr, m: nat, n: nat, datum: byte)
      requires q in leaves && Shape(leaves[q], 8) && m < 8 && n < 8
      modifies this`leaves
      ensures Snapshot() == SetIn(old(Snapshot()), q, m, n, datum) && homes == old(homes)
    {
      leaves := leaves[q := Put(leaves[q], 8, m, n, datum)];
    }

    /** The innermost loops of cleanup_sparse. */
    method LeafIsEmpty(q: Ptr) returns (chunkempty: bool)
      requires Ok() && q in leaves
      ensures chunkempty <==> EmptyLeaf(leaves[q])
    {
      var g := leaves[q];
      chunkempty := true;
      for x := 0 to 8
        invariant chunkempty <==> forall m, n | 0 <= m < x && 0 <= n < 8 :: g[m][n] == DEFAULT
      {
        for y := 0 to 8
          invariant chunkempty <==> forall m, n | 0 <= m < 8 && 0 <= n < 8 && Before(m, n, x, y) :: g[m][n] == DEFAULT
        {
          if g[x][y] != DEFAULT { chunkempty := false; }
        }
      }
    }

    method Free(p: Ptr, k: nat, l: nat)
      requires p in branches && Shape(branches[p], 4) && k < 4 && l < 4 && branches[p][k][l].Some?
      modifies this
      ensures Snapshot() == FreeLeaf(old(Snapshot()), p, k, l)
      ensures homes == old(homes.(leaf := Without(homes.leaf, branches[p][k][l].value)))
    {
      var q := branches[p][k][l].value;
      leaves := Without(leaves, q);
      branches := branches[p := Put(branches[p], 4, k, l, None)];
      homes := homes.(leaf := Without(homes.leaf, q));
    }

    /** One entry of a branch. */
    method CleanLeaf(p: Ptr, k: nat, l: nat) returns (thisfull: bool)
      requires Ok() && p in branches && k < 4 && l < 4
      modifies this
      ensures Snapshot() == CleanedLeaf(old(Snapshot()), p, k, l)
      ensures homes == old(CleanedHomes(Snapshot(), homes, p, k, l))
      ensures p in branches && Shape(branches[p], 4) && (thisfull <==> branches[p][k][l].Some?)
    {
      thisfull := false;
      if branches[p][k][l].Some? {
        var q := branches[p][k][l].value;
        thisfull := true;
        var chunkempty := LeafIsEmpty(q);
        if chunkempty {
          Free(p, k, l);
          thisfull := false;
        }
      }
    }

    /** The middle loops of cleanup_sparse. */
    method CleanBranch(p: Ptr) returns (chunkempty: bool)
      requires Ok() && p in branches
      modifies this
      ensures Ok() && SameView(old(Snapshot()), old(homes), Snapshot(), homes)
      ensures OnlyDrops(old(Snapshot()), Snapshot(), p) && TidyUpTo(Snapshot(), homes, p, 4, 0)
      ensures chunkempty <==> EmptyBranch(branches[p])
    {
      ghost var h0, o0 := Snapshot(), homes;
      chunkempty := true;
      for x := 0 to 4
        invariant Ok() && SameView(h0, o0, Snapshot(), homes) && OnlyDrops(h0, Snapshot(), p)
        invariant TidyUpTo(Snapshot(), homes, p, x, 0)
        invariant chunkempty <==> NoneUpTo(Snapshot(), p, x, 0)
      {
        for y := 0 to 4
          invariant Ok() && SameView(h0, o0, Snapshot(), homes) && OnlyDrops(h0, Snapshot(), p)
          invariant TidyUpTo(Snapshot(), homes, p, x, y)
          invariant chunkempty <==> NoneUpTo(Snapshot(), p, x, y)
        {
          ghost var h, o := Snapshot(), homes;
          CleanedLeafOk(h, o, p, x, y);
          CleanedLeafTidy(h, o, p, x, y);
          CleanedLeafNone(h, o, p, x, y);
          var thisfull := CleanLeaf(p, x, y);
          SameViewTrans(h0, o0, h, o, Snapshot(), homes);
          DropsTrans(h0, h, Snapshot(), p);
          if thisfull { chunkempty := false; }
        }
      }
    }

    method FreeTop(i: nat, j: nat)
      requires Shape(top, 32) && i < 32 && j < 32 && top[i][j].Some?
      modifies this
      ensures Snapshot() == FreeBranch(old(Snapshot()), i, j)
      ensures homes == old(homes.(branch := Without(homes.branch, top[i][j].value)))
    {
      var p := top[i][j].value;
      branches := Without(branches, p);
      top := Put(top, 32, i, j, None);
      homes := homes.(branch := Without(homes.branch, p));
    }

    /** One entry of the top table. */
    method CleanTop(i: nat, j: nat)
      requires Ok() && i < 32 && j < 32 && TidyTop(Snapshot(), homes, i, j)
      modifies this
      ensures Ok() && SameView(old(Snapshot()), old(homes), Snapshot(), homes)
      ensures TidyTop(Snapshot(), homes, i, j + 1)
    {
      if top[i][j].None? { return; }
      ghost var h0, o0 := Snapshot(), homes;
      var p := top[i][j].value;
      var chunkempty := CleanBranch(p);
      ghost var h1, o1 := Snapshot(), homes;
      TidiedOne(h0, o0, h1, o1, i, j);
      if chunkempty {
        DropBranch(h1, o1, i, j);
        FreedTop(h1, o1, i, j);
        FreeTop(i, j);
        SameViewTrans(h0, o0, h1, o1, Snapshot(), homes);
      }
    }

    /** cleanup_sparse changes no lookup and leaves no live chunk with only defaults. */
    method Cleanup()
      requires Ok()
      modifies this
      ensures Ok() && SameView(old(Snapshot()), old(homes), Snapshot(), homes)
      ensures forall p | p in branches :: !EmptyBranch(branches[p])
      ensures forall q | q in leaves :: !EmptyLeaf(leaves[q])
    {
      ghost var h0, o0 := Snapshot(), homes;
      for x := 0 to 32
        invariant Ok() && SameView(h0, o0, Snapshot(), homes) && TidyTop(Snapshot(), homes, x, 0)
      {
        for y := 0 to 32
          invariant Ok() && SameView(h0, o0, Snapshot(), homes) && TidyTop(Snapshot(), homes, x, y)
        {
          ghost var h, o := Snapshot(), homes;
          CleanTop(x, y);
          SameViewTrans(h0, o0, h, o, Snapshot(), homes);
        }
      }
      AllTidy(Snapshot(), homes);
    }
  }
}
