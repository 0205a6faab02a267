/** The value of a cube state (`cube/state.py`): six 3x3 grids of stickers, one per face. */
module Facelets {
  import opened Outcomes
  import opened Constants

  /** A sticker: `None` until it has been scanned or set. */
  type Cell = Option<Color>

  /** A row or column index into a face grid. */
  type Index = i: int | 0 <= i < 3

  predicate IsGrid(g: seq<seq<Cell>>)
  {
    |g| == 3 && |g[0]| == 3 && |g[1]| == 3 && |g[2]| == 3
  }

  /** A face: three rows of three stickers, `grid[row][col]`. */
  type Grid = g: seq<seq<Cell>> | IsGrid(g)
    witness [[None, None, None], [None, None, None], [None, None, None]]

  /** A grid holding `v` in every cell. */
  function UniformGrid(v: Cell): (g: Grid)
    ensures forall r: Index, c: Index :: g[r][c] == v
  {
    [[v, v, v], [v, v, v], [v, v, v]]
  }

  /** One sticker position: a face and a cell of its grid. */
  datatype Pos = Pos(face: Face, row: Index, col: Index)

  /** The six faces of a cube state. */
  datatype Cube = Cube(up: Grid, down: Grid, front: Grid, back: Grid, left: Grid, right: Grid)
  {
    /** `faces[f]` */
    function Get(f: Face): Grid
    {
      match f
      case Up => up
      case Down => down
      case Front => front
      case Back => back
      case Left => left
      case Right => right
    }

    /** `faces[f] = g`: replaces one face and keeps the other five. */
    function With(f: Face, g: Grid): (c: Cube)
      ensures c.Get(f) == g
      ensures forall h {:trigger c.Get(h)} :: h != f ==> c.Get(h) == Get(h)
    {
      match f
      case Up => this.(up := g)
      case Down => this.(down := g)
      case Front => this.(front := g)
      case Back => this.(back := g)
      case Left => this.(left := g)
      case Right => this.(right := g)
    }

    /** The sticker at `p`. */
    function At(p: Pos): Cell
    {
      Get(p.face)[p.row][p.col]
    }

    /** `faces[p.face][p.row][p.col] = v`: writes one sticker and keeps all others. */
    function Set(p: Pos, v: Cell): (c: Cube)
      ensures c.At(p) == v
      ensures forall q {:trigger c.At(q)} :: q != p ==> c.At(q) == At(q)
    {
      var g := Get(p.face);
      With(p.face, g[p.row := g[p.row][p.col := v]])
    }
  }

  /** A cube whose every sticker is `v`. */
  function UniformCube(v: Cell): (c: Cube)
    ensures forall p :: c.At(p) == v
  {
    var g := UniformGrid(v);
    Cube(g, g, g, g, g, g)
  }

  /** Two grids that agree on every cell are equal. */
  lemma GridExt(g: Grid, h: Grid)
    requires forall r: Index, c: Index :: g[r][c] == h[r][c]
    ensures g == h
  {
    forall r: Index
      ensures g[r] == h[r]
    {
      assert forall c: Index :: g[r][c] == h[r][c];
    }
  }

  /** Two cubes that agree on every sticker are equal. */
  lemma CubeExt(a: Cube, b: Cube)
    requires forall p :: a.At(p) == b.At(p)
    ensures a == b
  {
    forall f: Face
      ensures a.Get(f) == b.Get(f)
    {
      forall r: Index, c: Index
        ensures a.Get(f)[r][c] == b.Get(f)[r][c]
      {
        assert a.At(Pos(f, r, c)) == b.At(Pos(f, r, c));
      }
      GridExt(a.Get(f), b.Get(f));
    }
    assert a.Get(Up) == b.Get(Up) && a.Get(Down) == b.Get(Down) && a.Get(Front) == b.Get(Front);
    assert a.Get(Back) == b.Get(Back) && a.Get(Left) == b.Get(Left) && a.Get(Right) == b.Get(Right);
  }

  /** Two cubes whose six faces agree are equal. */
  lemma CubeByFaces(a: Cube, b: Cube)
    requires forall f :: a.Get(f) == b.Get(f)
    ensures a == b
  {
    assert a.Get(Up) == b.Get(Up) && a.Get(Down) == b.Get(Down) && a.Get(Front) == b.Get(Front);
    assert a.Get(Back) == b.Get(Back) && a.Get(Left) == b.Get(Left) && a.Get(Right) == b.Get(Right);
  }

  /** The concatenation of a sequence of rows, first row first. */
  function Flatten<T>(rows: seq<seq<T>>): (s: seq<T>)
    ensures |rows| == 0 ==> s == []
  {
    if rows == [] then [] else Flatten(rows[..|rows| - 1]) + rows[|rows| - 1]
  }

  /** Taking one more element of `b` after `a` appends that element. */
  lemma SliceSnoc<T>(a: seq<T>, b: seq<T>, k: nat)
    requires k < |b|
    ensures a + b[..k + 1] == a + b[..k] + [b[k]]
  {
    assert b[..k + 1] == b[..k] + [b[k]];
  }

  /** Flattening one more row appends that row. */
  lemma FlattenPrefix<T>(rows: seq<seq<T>>, n: nat)
    requires n < |rows|
    ensures Flatten(rows[..n + 1]) == Flatten(rows[..n]) + rows[n]
  {
    assert rows[..n + 1][..n] == rows[..n];
  }

  /** The nine stickers of a face, row by row, the order in which nested loops over the grid visit them. */
  function FaceCells(g: Grid): (s: seq<Cell>)
    ensures |s| == 9
    ensures forall r: Index, k: Index :: s[3 * r + k] == g[r][k]
  {
    g[0] + g[1] + g[2]
  }

  /** Flattening a whole grid gives its nine stickers. */
  lemma FlattenGrid(g: Grid)
    ensures Flatten(g[..3]) == FaceCells(g)
  {
    FlattenPrefix(g, 0);
    FlattenPrefix(g, 1);
    FlattenPrefix(g, 2);
  }

  /** The stickers of the first `n` faces of `fs`, face by face and row by row. */
  function CellsIn(c: Cube, fs: seq<Face>, n: nat): (s: seq<Cell>)
    requires n <= |fs|
    ensures |s| == 9 * n
  {
    if n == 0 then [] else CellsIn(c, fs, n - 1) + FaceCells(c.Get(fs[n - 1]))
  }

  /** Sticker `(r, k)` of face `fs[i]` is at offset `9 * i + 3 * r + k` of `CellsIn(c, fs, n)`. */
  lemma {:induction false} CellsInIndex(c: Cube, fs: seq<Face>, n: nat, i: nat, r: Index, k: Index)
    requires i < n <= |fs|
    ensures CellsIn(c, fs, n)[9 * i + 3 * r + k] == c.Get(fs[i])[r][k]
  {
    if i < n - 1 {
      CellsInIndex(c, fs, n - 1, i, r, k);
    }
  }

  /** The multiset of a face's stickers. */
  function GridBag(g: Grid): multiset<Cell>
  {
    multiset(g[0]) + multiset(g[1]) + multiset(g[2])
  }

  /** A face's bag is the multiset of its nine stickers. */
  lemma GridBagCells(g: Grid)
    ensures GridBag(g) == multiset(FaceCells(g))
  {
  }

  /** The bags of the first `n` faces in `Face` order. */
  function FacesBag(c: Cube, n: nat): multiset<Cell>
    requires n <= 6
  {
    if n == 0 then multiset{} else FacesBag(c, n - 1) + GridBag(c.Get(AllFaces[n - 1]))
  }

  /** All 54 stickers of a cube counted with multiplicity, face by face in `Face` order: what a
      colour count tallies. */
  function Bag(c: Cube): multiset<Cell>
  {
    FacesBag(c, 6)
  }

  /** The bag of a cube is the sum of the bags of its six faces. */
  lemma BagFaces(c: Cube)
    ensures Bag(c) == GridBag(c.up) + GridBag(c.down) + GridBag(c.front) + GridBag(c.back)
                      + GridBag(c.left) + GridBag(c.right)
  {
    assert AllFaces[0] == Up && AllFaces[1] == Down && AllFaces[2] == Front;
    assert AllFaces[3] == Back && AllFaces[4] == Left && AllFaces[5] == Right;
    var m1 := FacesBag(c, 1);
    assert m1 == FacesBag(c, 0) + GridBag(c.up);
    assert multiset{} + GridBag(c.up) == GridBag(c.up);
    var m2 := FacesBag(c, 2);
    assert m2 == m1 + GridBag(c.down);
    var m3 := FacesBag(c, 3);
    assert m3 == m2 + GridBag(c.front);
    var m4 := FacesBag(c, 4);
    assert m4 == m3 + GridBag(c.back);
    var m5 := FacesBag(c, 5);
    assert m5 == m4 + GridBag(c.left);
    assert FacesBag(c, 6) == m5 + GridBag(c.right);
  }

  /** Replacing one face exchanges that face's stickers for the new grid's. */
  lemma BagWith(c: Cube, f: Face, g: Grid)
    ensures Bag(c.With(f, g)) + GridBag(c.Get(f)) == Bag(c) + GridBag(g)
  {
    BagFaces(c);
    BagFaces(c.With(f, g));
  }

  /** Replacing a face by a grid with the same stickers keeps the bag. */
  lemma BagWithSame(c: Cube, f: Face, g: Grid)
    requires GridBag(g) == GridBag(c.Get(f))
    ensures Bag(c.With(f, g)) == Bag(c)
  {
    BagWith(c, f, g);
    forall x
      ensures Bag(c.With(f, g))[x] == Bag(c)[x]
    {
      assert (Bag(c.With(f, g)) + GridBag(c.Get(f)))[x] == (Bag(c) + GridBag(g))[x];
    }
  }

  /** Writing one cell of a grid exchanges the old sticker for the new one. */
  lemma GridBagSet(g: Grid, r: Index, k: Index, v: Cell)
    ensures GridBag(g[r := g[r][k := v]]) + multiset{g[r][k]} == GridBag(g) + multiset{v}
  {
    var row := g[r][k := v];
    assert multiset(row) + multiset{g[r][k]} == multiset(g[r]) + multiset{v};
  }

  /** Exchanging `g` for `h` and then `o` for `w` exchanges `o` for `w` overall. */
  lemma MultisetExchange<T>(a: multiset<T>, b: multiset<T>, g: multiset<T>, h: multiset<T>,
                            o: multiset<T>, w: multiset<T>)
    requires a + g == b + h
    requires h + o == g + w
    ensures a + o == b + w
  {
    forall x
      ensures (a + o)[x] == (b + w)[x]
    {
      assert (a + g)[x] == (b + h)[x];
      assert (h + o)[x] == (g + w)[x];
    }
  }

  /** Writing one sticker exchanges the old sticker for the new one. */
  lemma BagSet(c: Cube, p: Pos, v: Cell)
    ensures Bag(c.Set(p, v)) + multiset{c.At(p)} == Bag(c) + multiset{v}
  {
    var g := c.Get(p.face);
    var h: Grid := g[p.row := g[p.row][p.col := v]];
    assert c.Set(p, v) == c.With(p.face, h);
    BagWith(c, p.face, h);
    GridBagSet(g, p.row, p.col, v);
    MultisetExchange(Bag(c.With(p.face, h)), Bag(c), GridBag(g), GridBag(h), multiset{c.At(p)}, multiset{v});
  }

  /** A cube always holds 54 stickers. */
  lemma BagSize(c: Cube)
    ensures |Bag(c)| == 54
  {
    BagFaces(c);
  }
}
