/** The three-level sparse array that gensparse.py emits for bits [5, 2, 3]: a 32 by 32
    table of pointers to 4 by 4 branches of pointers to 8 by 8 leaves. The allocator's
    heap is modelled as a map from addresses to chunks, so that a pointer may dangle or
    be shared unless it is proved that it does not. */
module Sparse {
  import opened Options
  import opened Bytes

  type Ptr = nat

  const DEFAULT: byte := 0

  type Grid<T> = seq<seq<T>>

  predicate Shape<T>(g: Grid<T>, n: nat) { |g| == n && forall i | 0 <= i < n :: |g[i]| == n }

  function Put<T>(g: Grid<T>, n: nat, i: nat, j: nat, v: T): (r: Grid<T>)
    requires Shape(g, n) && i < n && j < n
    ensures Shape(r, n)
    ensures forall a, b | 0 <= a < n && 0 <= b < n :: r[a][b] == if a == i && b == j then v else g[a][b]
  {
    g[i := g[i][j := v]]
  }

  datatype Heap = Heap(
    top: Grid<Option<Ptr>>, branches: map<Ptr, Grid<Option<Ptr>>>, leaves: map<Ptr, Grid<byte>>)

  /** Where a leaf's one pointer is. */
  datatype Slot = Slot(branch: Ptr, k: nat, l: nat)

  /** The one place every live chunk hangs. */
  datatype Homes = Homes(branch: map<Ptr, (nat, nat)>, leaf: map<Ptr, Slot>)

  ghost predicate TopOk(h: Heap, o: Homes) {
    && Shape(h.top, 32) && h.branches.Keys == o.branch.Keys
    && (forall p | p in h.branches :: Shape(h.branches[p], 4) && o.branch[p].0 < 32 && o.branch[p].1 < 32
                                      && h.top[o.branch[p].0][o.branch[p].1] == Some(p))
    && (forall i, j | 0 <= i < 32 && 0 <= j < 32 && h.top[i][j].Some? ::
          h.top[i][j].value in h.branches && o.branch[h.top[i][j].value] == (i, j))
  }

  ghost predicate BranchShapes(h: Heap) {
    forall p | p in h.branches :: Shape(h.branches[p], 4)
  }

  /** Every leaf hangs where it is said to. */
  ghost predicate LeafHomes(h: Heap, o: Homes)
    requires h.leaves.Keys == o.leaf.Keys && BranchShapes(h)
  {
    forall q | q in h.leaves :: Shape(h.leaves[q], 8) && o.leaf[q].k < 4 && o.leaf[q].l < 4
                                && o.leaf[q].branch in h.branches
                                && h.branches[o.leaf[q].branch][o.leaf[q].k][o.leaf[q].l] == Some(q)
  }

  /** Every pointer in a branch leads to a leaf that hangs there. */
  ghost predicate LeafSlots(h: Heap, o: Homes)
    requires h.leaves.Keys == o.leaf.Keys && BranchShapes(h)
  {
    forall p, k, l | p in h.branches && 0 <= k < 4 && 0 <= l < 4 && h.branches[p][k][l].Some? ::
      h.branches[p][k][l].value in h.leaves && o.leaf[h.branches[p][k][l].value] == Slot(p, k, l)
  }

  ghost predicate LeavesOk(h: Heap, o: Homes) {
    h.leaves.Keys == o.leaf.Keys && BranchShapes(h) && LeafHomes(h, o) && LeafSlots(h, o)
  }

  /** Every live chunk hangs in one place and every pointer leads to a live chunk that
      hangs there: no aliasing, no leak, no dangling pointer. */
  ghost predicate Valid(h: Heap, o: Homes) { TopOk(h, o) && LeavesOk(h, o) }

  ghost function LeafIn(h: Heap, o: Homes, i: nat, j: nat, k: nat, l: nat): Option<Ptr>
    requires Valid(h, o) && i < 32 && j < 32 && k < 4 && l < 4
  {
    var b := h.top[i][j];
    if b.None? then None else h.branches[b.value][k][l]
  }

  ghost function CellOf(h: Heap, o: Homes, p: Ptr, k: nat, l: nat, m: nat, n: nat): byte
    requires LeavesOk(h, o) && p in h.branches && k < 4 && l < 4 && m < 8 && n < 8
  {
    var q := h.branches[p][k][l];
    if q.None? then DEFAULT else h.leaves[q.value][m][n]
  }

  ghost function CellIn(h: Heap, o: Homes, i: nat, j: nat, k: nat, l: nat, m: nat, n: nat): byte
    requires Valid(h, o) && i < 32 && j < 32 && k < 4 && l < 4 && m < 8 && n < 8
  {
    var b := h.top[i][j];
    if b.None? then DEFAULT else CellOf(h, o, b.value, k, l, m, n)
  }

  /** The leaf that covers a point, if there is one. */
  ghost function LeafAt(h: Heap, o: Homes, x: nat, y: nat): Option<Ptr>
    requires Valid(h, o) && x < 1024 && y < 1024
  {
    LeafIn(h, o, x / 32, y / 32, x / 8 % 4, y / 8 % 4)
  }

  /** The flat map the array stands for. */
  ghost function View(h: Heap, o: Homes, x: nat, y: nat): byte
    requires Valid(h, o) && x < 1024 && y < 1024
  {
    CellIn(h, o, x / 32, y / 32, x / 8 % 4, y / 8 % 4, x % 8, y % 8)
  }

  ghost predicate SameView(h: Heap, o: Homes, h': Heap, o': Homes)
    requires Valid(h, o) && Valid(h', o')
  {
    forall x, y | 0 <= x < 1024 && 0 <= y < 1024 :: View(h', o', x, y) == View(h, o, x, y)
  }

  lemma SameCells(h: Heap, o: Homes, h': Heap, o': Homes)
    requires Valid(h, o) && Valid(h', o') && h'.top == h.top
    requires forall b, k, l, m, n | b in h.branches && 0 <= k < 4 && 0 <= l < 4 && 0 <= m < 8 && 0 <= n < 8 ::
               b in h'.branches && CellOf(h', o', b, k, l, m, n) == CellOf(h, o, b, k, l, m, n)
    ensures SameView(h, o, h', o')
  {
  }

  lemma SameLeaves(h: Heap, o: Homes, h': Heap, o': Homes)
    requires Valid(h, o) && Valid(h', o') && h'.leaves == h.leaves
    requires forall i, j, k, l | 0 <= i < 32 && 0 <= j < 32 && 0 <= k < 4 && 0 <= l < 4 ::
               LeafIn(h', o', i, j, k, l) == LeafIn(h, o, i, j, k, l)
    ensures SameView(h, o, h', o')
  {
    forall x, y | 0 <= x < 1024 && 0 <= y < 1024 ensures View(h', o', x, y) == View(h, o, x, y) {
      CellByLeaf(h, o, x / 32, y / 32, x / 8 % 4, y / 8 % 4, x % 8, y % 8);
      CellByLeaf(h', o', x / 32, y / 32, x / 8 % 4, y / 8 % 4, x % 8, y % 8);
    }
  }

  lemma CellByLeaf(h: Heap, o: Homes, i: nat, j: nat, k: nat, l: nat, m: nat, n: nat)
    requires Valid(h, o) && i < 32 && j < 32 && k < 4 && l < 4 && m < 8 && n < 8
    ensures var q := LeafIn(h, o, i, j, k, l);
            (q.Some? ==> q.value in h.leaves)
            && CellIn(h, o, i, j, k, l, m, n) == if q.None? then DEFAULT else h.leaves[q.value][m][n]
  {
  }

  // ------------------------------------------------------- the heap's steps

  function Blank<T>(n: nat, v: T): (r: Grid<T>)
    ensures Shape(r, n) && forall i, j | 0 <= i < n && 0 <= j < n :: r[i][j] == v
  {
    seq(n, _ => seq(n, _ => v))
  }

  function HangBranch(h: Heap, i: nat, j: nat, p: Ptr): Heap
    requires Shape(h.top, 32) && i < 32 && j < 32
  {
    Heap(Put(h.top, 32, i, j, Some(p)), h.branches[p := Blank(4, None)], h.leaves)
  }

  lemma BranchLeavesOk(h: Heap, o: Homes, i: nat, j: nat, p: Ptr)
    requires TopOk(h, o) && LeavesOk(h, o) && i < 32 && j < 32 && p !in h.branches
    ensures LeavesOk(HangBranch(h, i, j, p), o.(branch := o.branch[p := (i, j)]))
  {
  }

  lemma AddBranch(h: Heap, o: Homes, i: nat, j: nat, p: Ptr)
    requires Valid(h, o) && i < 32 && j < 32 && h.top[i][j].None? && p !in h.branches
    ensures var h', o' := HangBranch(h, i, j, p), o.(branch := o.branch[p := (i, j)]);
            Valid(h', o') && SameView(h, o, h', o')
  {
    var h', o' := HangBranch(h, i, j, p), o.(branch := o.branch[p := (i, j)]);
    assert TopOk(h', o');
    BranchLeavesOk(h, o, i, j, p);
    forall i, j, k, l | 0 <= i < 32 && 0 <= j < 32 && 0 <= k < 4 && 0 <= l < 4
      ensures LeafIn(h', o', i, j, k, l) == LeafIn(h, o, i, j, k, l)
    {
      assert h.top[i][j].Some? ==> h.top[i][j].value in h.branches;
    }
    SameLeaves(h, o, h', o');
  }

  function HangLeaf(h: Heap, p: Ptr, k: nat, l: nat, q: Ptr): Heap
    requires p in h.branches && Shape(h.branches[p], 4) && k < 4 && l < 4
  {
    Heap(h.top, h.branches[p := Put(h.branches[p], 4, k, l, Some(q))], h.leaves[q := Blank(8, DEFAULT)])
  }

  lemma HungLeafHome(h: Heap, o: Homes, p: Ptr, k: nat, l: nat, q: Ptr, r: Ptr)
    requires LeavesOk(h, o) && p in h.branches && k < 4 && l < 4 && h.branches[p][k][l].None? && q !in h.leaves
    requires r == q || r in h.leaves
    ensures var h', home := HangLeaf(h, p, k, l, q), if r == q then Slot(p, k, l) else o.leaf[r];
            && Shape(h'.leaves[r], 8) && home.k < 4 && home.l < 4 && home.branch in h'.branches
            && Shape(h'.branches[home.branch], 4) && h'.branches[home.branch][home.k][home.l] == Some(r)
  {
    if r != q {
      assert h.branches[o.leaf[r].branch][o.leaf[r].k][o.leaf[r].l] == Some(r);
    }
  }

  lemma HungLeafSlot(h: Heap, o: Homes, p: Ptr, k: nat, l: nat, q: Ptr, b: Ptr, m: nat, n: nat)
    requires LeavesOk(h, o) && p in h.branches && k < 4 && l < 4 && h.branches[p][k][l].None? && q !in h.leaves
    requires b in h.branches && m < 4 && n < 4
    ensures var h' := HangLeaf(h, p, k, l, q);
            && Shape(h'.branches[b], 4)
            && h'.branches[b][m][n] == if b == p && m == k && n == l then Some(q) else h.branches[b][m][n]
  {
  }

  lemma HungShapes(h: Heap, o: Homes, p: Ptr, k: nat, l: nat, q: Ptr)
    requires LeavesOk(h, o) && p in h.branches && k < 4 && l < 4 && h.branches[p][k][l].None? && q !in h.leaves
    ensures BranchShapes(HangLeaf(h, p, k, l, q))
  {
  }

  lemma HungHomes(h: Heap, o: Homes, p: Ptr, k: nat, l: nat, q: Ptr)
    requires LeavesOk(h, o) && p in h.branches && k < 4 && l < 4 && h.branches[p][k][l].None? && q !in h.leaves
    requires BranchShapes(HangLeaf(h, p, k, l, q))
    ensures LeafHomes(HangLeaf(h, p, k, l, q), o.(leaf := o.leaf[q := Slot(p, k, l)]))
  {
    var h', o' := HangLeaf(h, p, k, l, q), o.(leaf := o.leaf[q := Slot(p, k, l)]);
    forall r | r in h'.leaves
      ensures Shape(h'.leaves[r], 8) && o'.leaf[r].k < 4 && o'.leaf[r].l < 4 && o'.leaf[r].branch in h'.branches
              && h'.branches[o'.leaf[r].branch][o'.leaf[r].k][o'.leaf[r].l] == Some(r)
    {
      HungLeafHome(h, o, p, k, l, q, r);
    }
  }

  lemma HungSlots(h: Heap, o: Homes, p: Ptr, k: nat, l: nat, q: Ptr)
    requires LeavesOk(h, o) && p in h.branches && k < 4 && l < 4 && h.branches[p][k][l].None? && q !in h.leaves
    requires BranchShapes(HangLeaf(h, p, k, l, q))
    ensures LeafSlots(HangLeaf(h, p, k, l, q), o.(leaf := o.leaf[q := Slot(p, k, l)]))
  {
    var h', o' := HangLeaf(h, p, k, l, q), o.(leaf := o.leaf[q := Slot(p, k, l)]);
    forall b, m, n | b in h'.branches && 0 <= m < 4 && 0 <= n < 4 && h'.branches[b][m][n].Some?
      ensures h'.branches[b][m][n].value in h'.leaves && o'.leaf[h'.branches[b][m][n].value] == Slot(b, m, n)
    {
      HungLeafSlot(h, o, p, k, l, q, b, m, n);
    }
  }

  lemma HangLeafOk(h: Heap, o: Homes, p: Ptr, k: nat, l: nat, q: Ptr)
    requires LeavesOk(h, o) && p in h.branches && k < 4 && l < 4 && h.branches[p][k][l].None? && q !in h.leaves
    ensures LeavesOk(HangLeaf(h, p, k, l, q), o.(leaf := o.leaf[q := Slot(p, k, l)]))
  {
    HungShapes(h, o, p, k, l, q);
    HungHomes(h, o, p, k, l, q);
    HungSlots(h, o, p, k, l, q);
  }

  lemma AddLeaf(h: Heap, o: Homes, p: Ptr, k: nat, l: nat, q: Ptr)
    requires Valid(h, o) && p in h.branches && k < 4 && l < 4 && h.branches[p][k][l].None? && q !in h.leaves
    ensures var h', o' := HangLeaf(h, p, k, l, q), o.(leaf := o.leaf[q := Slot(p, k, l)]);
            Valid(h', o') && SameView(h, o, h', o')
  {
    var h', o' := HangLeaf(h, p, k, l, q), o.(leaf := o.leaf[q := Slot(p, k, l)]);
    assert TopOk(h', o');
    HangLeafOk(h, o, p, k, l, q);
    forall b, a, c, m, n | b in h.branches && 0 <= a < 4 && 0 <= c < 4 && 0 <= m < 8 && 0 <= n < 8
      ensures CellOf(h', o', b, a, c, m, n) == CellOf(h, o, b, a, c, m, n)
    {
      HungLeafCell(h, o, p, k, l, q, b, a, c, m, n);
    }
    SameCells(h, o, h', o');
  }

  lemma HungLeafCell(
      h: Heap, o: Homes, p: Ptr, k: nat, l: nat, q: Ptr, b: Ptr, a: nat, c: nat, m: nat, n: nat)
    requires LeavesOk(h, o) && p in h.branches && k < 4 && l < 4 && h.branches[p][k][l].None? && q !in h.leaves
    requires LeavesOk(HangLeaf(h, p, k, l, q), o.(leaf := o.leaf[q := Slot(p, k, l)]))
    requires b in h.branches && a < 4 && c < 4 && m < 8 && n < 8
    ensures CellOf(HangLeaf(h, p, k, l, q), o.(leaf := o.leaf[q := Slot(p, k, l)]), b, a, c, m, n)
            == CellOf(h, o, b, a, c, m, n)
  {
    var leaf := h.branches[b][a][c];
    assert leaf.Some? ==> leaf.value in h.leaves;
    if b == p && a == k && c == l {
      assert HangLeaf(h, p, k, l, q).branches[b][a][c] == Some(q);
    } else {
      assert HangLeaf(h, p, k, l, q).branches[b][a][c] == leaf;
    }
  }

  function SetIn(h: Heap, q: Ptr, m: nat, n: nat, v: byte): Heap
    requires q in h.leaves && Shape(h.leaves[q], 8) && m < 8 && n < 8
  {
    Heap(h.top, h.branches, h.leaves[q := Put(h.leaves[q], 8, m, n, v)])
  }

  lemma SetInOk(h: Heap, o: Homes, q: Ptr, m: nat, n: nat, v: byte)
    requires Valid(h, o) && q in h.leaves && m < 8 && n < 8
    ensures Valid(SetIn(h, q, m, n, v), o)
  {
    var h' := SetIn(h, q, m, n, v);
    assert TopOk(h', o);
    assert LeavesOk(h', o);
  }

  /** No two slots lead to the same leaf. */
  lemma OneSlot(h: Heap, o: Homes, i: nat, j: nat, k: nat, l: nat, i': nat, j': nat, k': nat, l': nat)
    requires Valid(h, o) && i < 32 && j < 32 && k < 4 && l < 4 && i' < 32 && j' < 32 && k' < 4 && l' < 4
    requires LeafIn(h, o, i, j, k, l).Some? && LeafIn(h, o, i, j, k, l) == LeafIn(h, o, i', j', k', l')
    ensures i == i' && j == j' && k == k' && l == l'
  {
  }

  lemma SetInLeaf(h: Heap, o: Homes, q: Ptr, m: nat, n: nat, v: byte, i: nat, j: nat, k: nat, l: nat, m': nat, n': nat)
    requires Valid(h, o) && q in h.leaves && m < 8 && n < 8 && Valid(SetIn(h, q, m, n, v), o)
    requires i < 32 && j < 32 && k < 4 && l < 4 && m' < 8 && n' < 8
    ensures CellIn(SetIn(h, q, m, n, v), o, i, j, k, l, m', n')
            == if LeafIn(h, o, i, j, k, l) == Some(q) && m' == m && n' == n then v else CellIn(h, o, i, j, k, l, m', n')
  {
    var h' := SetIn(h, q, m, n, v);
    assert LeafIn(h', o, i, j, k, l) == LeafIn(h, o, i, j, k, l);
    CellByLeaf(h, o, i, j, k, l, m', n');
    CellByLeaf(h', o, i, j, k, l, m', n');
  }

  /** Writing a cell changes the view there and nowhere else. */
  lemma SetCell(h: Heap, o: Homes, x: nat, y: nat, v: byte)
    requires Valid(h, o) && x < 1024 && y < 1024 && LeafAt(h, o, x, y).Some?
    ensures LeafAt(h, o, x, y).value in h.leaves
    ensures var h' := SetIn(h, LeafAt(h, o, x, y).value, x % 8, y % 8, v);
            && Valid(h', o)
            && forall a, b | 0 <= a < 1024 && 0 <= b < 1024 ::
                 View(h', o, a, b) == if a == x && b == y then v else View(h, o, a, b)
  {
    var q := LeafAt(h, o, x, y).value;
    CellByLeaf(h, o, x / 32, y / 32, x / 8 % 4, y / 8 % 4, x % 8, y % 8);
    var h' := SetIn(h, q, x % 8, y % 8, v);
    SetInOk(h, o, q, x % 8, y % 8, v);
    forall a, b | 0 <= a < 1024 && 0 <= b < 1024
      ensures View(h', o, a, b) == if a == x && b == y then v else View(h, o, a, b)
    {
      if LeafAt(h, o, a, b) == Some(q) {
        OneSlot(h, o, a / 32, b / 32, a / 8 % 4, b / 8 % 4, x / 32, y / 32, x / 8 % 4, y / 8 % 4);
      }
      SetInLeaf(h, o, q, x % 8, y % 8, v, a / 32, b / 32, a / 8 % 4, b / 8 % 4, a % 8, b % 8);
      SameCell(a, x);
      SameCell(b, y);
    }
  }

  // ------------------------------------------------------------- cleaning up

  ghost predicate EmptyLeaf(g: Grid<byte>)
    requires Shape(g, 8)
  {
    forall m, n | 0 <= m < 8 && 0 <= n < 8 :: g[m][n] == DEFAULT
  }

  ghost predicate EmptyBranch(g: Grid<Option<Ptr>>)
    requires Shape(g, 4)
  {
    forall k, l | 0 <= k < 4 && 0 <= l < 4 :: g[k][l].None?
  }

  function Without<T>(m: map<Ptr, T>, p: Ptr): map<Ptr, T> { map q | q in m && q != p :: m[q] }

  function FreeLeaf(h: Heap, p: Ptr, k: nat, l: nat): Heap
    requires p in h.branches && Shape(h.branches[p], 4) && k < 4 && l < 4 && h.branches[p][k][l].Some?
  {
    Heap(h.top, h.branches[p := Put(h.branches[p], 4, k, l, None)], Without(h.leaves, h.branches[p][k][l].value))
  }

  lemma FreeLeafOk(h: Heap, o: Homes, p: Ptr, k: nat, l: nat)
    requires LeavesOk(h, o) && p in h.branches && k < 4 && l < 4 && h.branches[p][k][l].Some?
    ensures LeavesOk(FreeLeaf(h, p, k, l), o.(leaf := Without(o.leaf, h.branches[p][k][l].value)))
  {
    var h', q0 := FreeLeaf(h, p, k, l), h.branches[p][k][l].value;
    forall q | q in h'.leaves ensures h'.branches[o.leaf[q].branch][o.leaf[q].k][o.leaf[q].l] == Some(q) {
      assert q != q0 && h.branches[o.leaf[q].branch][o.leaf[q].k][o.leaf[q].l] == Some(q);
    }
    forall b, m, n | b in h'.branches && 0 <= m < 4 && 0 <= n < 4 && h'.branches[b][m][n].Some?
      ensures h'.branches[b][m][n] == h.branches[b][m][n] && h.branches[b][m][n].value != q0
    {
      assert o.leaf[q0] == Slot(p, k, l);
      assert o.leaf[h.branches[b][m][n].value] == Slot(b, m, n);
    }
  }

  /** Freeing a leaf that holds nothing but the default. */
  lemma DropLeaf(h: Heap, o: Homes, p: Ptr, k: nat, l: nat)
    requires Valid(h, o) && p in h.branches && k < 4 && l < 4 && h.branches[p][k][l].Some?
    requires EmptyLeaf(h.leaves[h.branches[p][k][l].value])
    ensures var h', o' := FreeLeaf(h, p, k, l), o.(leaf := Without(o.leaf, h.branches[p][k][l].value));
            Valid(h', o') && SameView(h, o, h', o')
  {
    var h', o' := FreeLeaf(h, p, k, l), o.(leaf := Without(o.leaf, h.branches[p][k][l].value));
    assert TopOk(h', o');
    FreeLeafOk(h, o, p, k, l);
    forall b, a, c, m, n | b in h.branches && 0 <= a < 4 && 0 <= c < 4 && 0 <= m < 8 && 0 <= n < 8
      ensures CellOf(h', o', b, a, c, m, n) == CellOf(h, o, b, a, c, m, n)
    {
      FreedLeafCell(h, o, p, k, l, b, a, c, m, n);
    }
    SameCells(h, o, h', o');
  }

  lemma FreedLeafCell(h: Heap, o: Homes, p: Ptr, k: nat, l: nat, b: Ptr, a: nat, c: nat, m: nat, n: nat)
    requires LeavesOk(h, o) && p in h.branches && k < 4 && l < 4 && h.branches[p][k][l].Some?
    requires EmptyLeaf(h.leaves[h.branches[p][k][l].value])
    requires LeavesOk(FreeLeaf(h, p, k, l), o.(leaf := Without(o.leaf, h.branches[p][k][l].value)))
    requires b in h.branches && a < 4 && c < 4 && m < 8 && n < 8
    ensures CellOf(FreeLeaf(h, p, k, l), o.(leaf := Without(o.leaf, h.branches[p][k][l].value)), b, a, c, m, n)
            == CellOf(h, o, b, a, c, m, n)
  {
    var leaf := h.branches[b][a][c];
    assert leaf.Some? ==> leaf.value in h.leaves;
  }

  function FreeBranch(h: Heap, i: nat, j: nat): Heap
    requires Shape(h.top, 32) && i < 32 && j < 32 && h.top[i][j].Some?
  {
    Heap(Put(h.top, 32, i, j, None), Without(h.branches, h.top[i][j].value), h.leaves)
  }

  lemma FreeBranchOk(h: Heap, o: Homes, i: nat, j: nat)
    requires Valid(h, o) && i < 32 && j < 32 && h.top[i][j].Some? && EmptyBranch(h.branches[h.top[i][j].value])
    ensures LeavesOk(FreeBranch(h, i, j), o.(branch := Without(o.branch, h.top[i][j].value)))
  {
  }

  lemma FreeBranchTop(h: Heap, o: Homes, i: nat, j: nat)
    requires TopOk(h, o) && i < 32 && j < 32 && h.top[i][j].Some?
    ensures TopOk(FreeBranch(h, i, j), o.(branch := Without(o.branch, h.top[i][j].value)))
  {
  }

  lemma FreedBranchLeaf(h: Heap, o: Homes, i: nat, j: nat, a: nat, b: nat, k: nat, l: nat)
    requires Valid(h, o) && i < 32 && j < 32 && h.top[i][j].Some? && EmptyBranch(h.branches[h.top[i][j].value])
    requires Valid(FreeBranch(h, i, j), o.(branch := Without(o.branch, h.top[i][j].value)))
    requires a < 32 && b < 32 && k < 4 && l < 4
    ensures LeafIn(FreeBranch(h, i, j), o.(branch := Without(o.branch, h.top[i][j].value)), a, b, k, l)
            == LeafIn(h, o, a, b, k, l)
  {
    assert h.top[a][b].Some? ==> h.top[a][b].value in h.branches;
  }

  /** Freeing a branch without leaves. */
  lemma DropBranch(h: Heap, o: Homes, i: nat, j: nat)
    requires Valid(h, o) && i < 32 && j < 32 && h.top[i][j].Some? && EmptyBranch(h.branches[h.top[i][j].value])
    ensures var h', o' := FreeBranch(h, i, j), o.(branch := Without(o.branch, h.top[i][j].value));
            Valid(h', o') && SameView(h, o, h', o')
  {
    var h', o' := FreeBranch(h, i, j), o.(branch := Without(o.branch, h.top[i][j].value));
    FreeBranchTop(h, o, i, j);
    FreeBranchOk(h, o, i, j);
    forall a, b, k, l | 0 <= a < 32 && 0 <= b < 32 && 0 <= k < 4 && 0 <= l < 4
      ensures LeafIn(h', o', a, b, k, l) == LeafIn(h, o, a, b, k, l)
    {
      FreedBranchLeaf(h, o, i, j, a, b, k, l);
    }
    SameLeaves(h, o, h', o');
  }

  lemma CellParts(u: nat)
    ensures u == 32 * (u / 32) + 8 * (u / 8 % 4) + u % 8
  {
    assert u / 32 == u / 8 / 4;
    assert u / 8 == 4 * (u / 8 / 4) + u / 8 % 4;
    assert u == 8 * (u / 8) + u % 8;
  }

  lemma SameCell(u: nat, x: nat)
    ensures u == x <==> u / 32 == x / 32 && u / 8 % 4 == x / 8 % 4 && u % 8 == x % 8
  {
    CellParts(u);
    CellParts(x);
  }
}
