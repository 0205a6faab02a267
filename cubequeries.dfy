/** The read-only queries of a cube state (`cube/state.py`): completeness, the colour count, validity,
    the solved state and the facelet string, as functions of the cube's value. */
module CubeQueries {
  import opened Outcomes
  import opened Constants
  import opened Facelets
  import Execution

  /** `is_complete`: no row of any face contains `None`. */
  predicate IsComplete(c: Cube)
  {
    forall f: Face, r: Index :: None !in c.Get(f)[r]
  }

  /** A cube is complete exactly when every sticker has been set; a sticker set to `Unknown` counts
      as set. */
  lemma IsCompleteAt(c: Cube)
    ensures IsComplete(c) <==> forall p :: c.At(p).Some?
  {
    if IsComplete(c) {
      forall p
        ensures c.At(p).Some?
      {
        assert None !in c.Get(p.face)[p.row];
      }
    } else {
      var f: Face, r: Index :| None in c.Get(f)[r];
      var k :| 0 <= k < 3 && c.Get(f)[r][k] == None;
      assert c.At(Pos(f, r, k)) == None;
    }
  }

  /** How often `v` occurs in `s`, counted from the last element back. */
  function Occurrences(s: seq<Cell>, v: Cell): (n: nat)
    ensures n <= |s|
  {
    if s == [] then 0 else Occurrences(s[..|s| - 1], v) + (if s[|s| - 1] == v then 1 else 0)
  }

  /** How many elements of `s` lie in `vs`. */
  function OccurrencesAmong(s: seq<Cell>, vs: set<Cell>): (n: nat)
    ensures n <= |s|
  {
    if s == [] then 0 else OccurrencesAmong(s[..|s| - 1], vs) + (if s[|s| - 1] in vs then 1 else 0)
  }

  /** Counting one more value adds its own occurrences. */
  lemma {:induction false} OccurrencesAmongAdd(s: seq<Cell>, vs: set<Cell>, v: Cell)
    requires v !in vs
    ensures OccurrencesAmong(s, vs + {v}) == OccurrencesAmong(s, vs) + Occurrences(s, v)
  {
    if s != [] {
      OccurrencesAmongAdd(s[..|s| - 1], vs, v);
    }
  }

  /** `v` occurs exactly as often in `s` as the multiset of `s` says. */
  lemma {:induction false} OccurrencesBag(s: seq<Cell>, v: Cell)
    ensures Occurrences(s, v) == multiset(s)[v]
  {
    if s != [] {
      var init := s[..|s| - 1];
      OccurrencesBag(init, v);
      assert s == init + [s[|s| - 1]];
      assert multiset(s) == multiset(init) + multiset{s[|s| - 1]};
    }
  }

  /** The first `n` faces in `Face` order, flattened, hold the stickers of their bags. */
  lemma {:induction false} CellsInBag(c: Cube, n: nat)
    requires n <= 6
    ensures multiset(CellsIn(c, AllFaces, n)) == FacesBag(c, n)
  {
    if n > 0 {
      CellsInBag(c, n - 1);
      GridBagCells(c.Get(AllFaces[n - 1]));
    }
  }

  /** All 54 stickers in the order the colour count visits them: faces in `Face` order, each row by
      row. */
  function Cells(c: Cube): (s: seq<Cell>)
    ensures |s| == 54 && multiset(s) == Bag(c)
  {
    CellsInBag(c, 6);
    CellsIn(c, AllFaces, 6)
  }

  /** `color_count()[color]`: how many stickers show `color`. Unset stickers are never counted, and
      the count is the multiplicity of the colour among the cube's stickers. */
  function ColorCount(c: Cube, color: Color): (n: nat)
    ensures n == Bag(c)[Some(color)]
  {
    OccurrencesBag(Cells(c), Some(color));
    Occurrences(Cells(c), Some(color))
  }

  /** `is_valid`: each colour other than `Unknown` shows on exactly nine stickers. */
  predicate IsValid(c: Cube)
  {
    forall color: Color :: color != Unknown ==> ColorCount(c, color) == 9
  }

  /** A value that never occurs is not an element. */
  lemma {:induction false} NoOccurrences(s: seq<Cell>, v: Cell, i: nat)
    requires Occurrences(s, v) == 0 && i < |s|
    ensures s[i] != v
  {
    if i < |s| - 1 {
      NoOccurrences(s[..|s| - 1], v, i);
    }
  }

  /** 54 stickers of which each of the six real colours shows on nine leave no room for an unset or
      an `Unknown` sticker. */
  lemma SixColorsFill(s: seq<Cell>)
    requires |s| == 54
    requires Occurrences(s, Some(White)) == 9 && Occurrences(s, Some(Yellow)) == 9
    requires Occurrences(s, Some(Red)) == 9 && Occurrences(s, Some(Orange)) == 9
    requires Occurrences(s, Some(Blue)) == 9 && Occurrences(s, Some(Green)) == 9
    ensures Occurrences(s, None) == 0 && Occurrences(s, Some(Unknown)) == 0
  {
    var s1: set<Cell> := {Some(White)};
    var s2 := s1 + {Some(Yellow)};
    var s3 := s2 + {Some(Red)};
    var s4 := s3 + {Some(Orange)};
    var s5 := s4 + {Some(Blue)};
    var s6 := s5 + {Some(Green)};
    OccurrencesAmongAdd(s, {}, None);
    OccurrencesAmongAdd(s, {}, Some(White));
    assert {} + {Some(White)} == s1;
    OccurrencesAmongAdd(s, s1, Some(Yellow));
    OccurrencesAmongAdd(s, s2, Some(Red));
    OccurrencesAmongAdd(s, s3, Some(Orange));
    OccurrencesAmongAdd(s, s4, Some(Blue));
    OccurrencesAmongAdd(s, s5, Some(Green));
    assert OccurrencesAmong(s, s6) == 54;
    OccurrencesAmongAdd(s, s6, None);
    OccurrencesAmongAdd(s, s6, Some(Unknown));
  }

  /** Every sticker of a cube whose flattened stickers never show `v` differs from `v`. */
  lemma AbsentEverywhere(c: Cube, v: Cell, p: Pos)
    requires Occurrences(Cells(c), v) == 0
    ensures c.At(p) != v
  {
    var i := FaceIndex(p.face);
    CellsInIndex(c, AllFaces, 6, i, p.row, p.col);
    NoOccurrences(Cells(c), v, 9 * i + 3 * p.row + p.col);
  }

  /** Six real colours nine times each fill all 54 stickers, so a valid cube has no unset and no
      `Unknown` sticker. */
  lemma ValidIsComplete(c: Cube)
    requires IsValid(c)
    ensures IsComplete(c)
    ensures ColorCount(c, Unknown) == 0
  {
    var s := Cells(c);
    assert ColorCount(c, White) == 9 && ColorCount(c, Yellow) == 9 && ColorCount(c, Red) == 9;
    assert ColorCount(c, Orange) == 9 && ColorCount(c, Blue) == 9 && ColorCount(c, Green) == 9;
    SixColorsFill(s);
    forall p
      ensures c.At(p).Some?
    {
      AbsentEverywhere(c, None, p);
    }
    IsCompleteAt(c);
  }

  /** The colour each face shows when the cube is solved. */
  function SolvedColor(f: Face): (color: Color)
    ensures color != Unknown
  {
    match f
    case Up => White
    case Down => Yellow
    case Front => Green
    case Back => Blue
    case Left => Orange
    case Right => Red
  }

  /** The state `set_solved` writes: every sticker shows its face's solved colour. */
  function SolvedCube(): (c: Cube)
    ensures forall p :: c.At(p) == Some(SolvedColor(p.face))
  {
    Cube(UniformGrid(Some(White)), UniformGrid(Some(Yellow)), UniformGrid(Some(Green)),
         UniformGrid(Some(Blue)), UniformGrid(Some(Orange)), UniformGrid(Some(Red)))
  }

  /** `is_solved`: every cell of every face equals that face's solved colour. */
  predicate IsSolved(c: Cube)
  {
    forall f: Face, r: Index, k: Index :: c.Get(f)[r][k] == Some(SolvedColor(f))
  }

  /** Exactly one cube is solved: the one `set_solved` writes. */
  lemma IsSolvedExactly(c: Cube)
    ensures IsSolved(c) <==> c == SolvedCube()
  {
    if IsSolved(c) {
      forall p
        ensures c.At(p) == SolvedCube().At(p)
      {
      }
      CubeExt(c, SolvedCube());
    }
  }

  /** A uniform face holds nine copies of its colour and nothing else. */
  lemma UniformGridBag(v: Cell, w: Cell)
    ensures GridBag(UniformGrid(v))[w] == if v == w then 9 else 0
  {
  }

  /** Each real colour shows on the nine stickers of its face in the solved state. */
  lemma SolvedColorCount(color: Color)
    requires color != Unknown
    ensures ColorCount(SolvedCube(), color) == 9
  {
    SolvedBag(color);
  }

  /** The solved state holds nine stickers of each real colour. */
  lemma SolvedBag(color: Color)
    requires color != Unknown
    ensures Bag(SolvedCube())[Some(color)] == 9
  {
    var c := SolvedCube();
    assert c.up == UniformGrid(Some(White)) && c.down == UniformGrid(Some(Yellow));
    assert c.front == UniformGrid(Some(Green)) && c.back == UniformGrid(Some(Blue));
    assert c.left == UniformGrid(Some(Orange)) && c.right == UniformGrid(Some(Red));
    BagFaces(c);
    UniformBag(Some(White));
    UniformBag(Some(Yellow));
    UniformBag(Some(Green));
    UniformBag(Some(Blue));
    UniformBag(Some(Orange));
    UniformBag(Some(Red));
    SixBags(GridBag(UniformGrid(Some(White))), GridBag(UniformGrid(Some(Yellow))), GridBag(UniformGrid(Some(Green))),
            GridBag(UniformGrid(Some(Blue))), GridBag(UniformGrid(Some(Orange))), GridBag(UniformGrid(Some(Red))), color);
  }

  /** A uniform grid holds nine stickers of its value and none of any other. */
  lemma UniformBag(v: Cell)
    ensures forall w :: GridBag(UniformGrid(v))[w] == (if w == v then 9 else 0)
  {
    forall w
      ensures GridBag(UniformGrid(v))[w] == (if w == v then 9 else 0)
    {
      UniformGridBag(v, w);
    }
  }

  /** Six bags holding nine stickers of one solved colour each, in the order of the faces, together
      hold nine stickers of every real colour. */
  lemma SixBags(u: multiset<Cell>, d: multiset<Cell>, f: multiset<Cell>, b: multiset<Cell>, l: multiset<Cell>,
                r: multiset<Cell>, color: Color)
    requires forall w :: u[w] == (if w == Some(White) then 9 else 0)
    requires forall w :: d[w] == (if w == Some(Yellow) then 9 else 0)
    requires forall w :: f[w] == (if w == Some(Green) then 9 else 0)
    requires forall w :: b[w] == (if w == Some(Blue) then 9 else 0)
    requires forall w :: l[w] == (if w == Some(Orange) then 9 else 0)
    requires forall w :: r[w] == (if w == Some(Red) then 9 else 0)
    requires color != Unknown
    ensures (u + d + f + b + l + r)[Some(color)] == 9
  {
    var v := Some(color);
    assert (u + d + f + b + l + r)[v] == u[v] + d[v] + f[v] + b[v] + l[v] + r[v];
  }

  /** The solved state is solved, complete and valid. */
  lemma SolvedIsValid()
    ensures IsSolved(SolvedCube())
    ensures IsComplete(SolvedCube())
    ensures IsValid(SolvedCube())
  {
    IsSolvedExactly(SolvedCube());
    IsCompleteAt(SolvedCube());
    forall color: Color | color != Unknown
      ensures ColorCount(SolvedCube(), color) == 9
    {
      SolvedColorCount(color);
    }
  }

  /** An accepted move keeps every colour count, so it keeps a cube valid. */
  lemma MoveKeepsColorCount(c: Cube, move: string, color: Color)
    requires Execution.ApplyMove(c, move).Ok?
    ensures ColorCount(Execution.ApplyMove(c, move).value, color) == ColorCount(c, color)
  {
    Execution.ApplyMoveBag(c, move);
  }

  /** A replay that succeeds keeps every colour count. */
  lemma MovesKeepColorCount(c: Cube, moves: seq<string>, color: Color)
    requires Execution.ApplyMoves(c, moves).Ok?
    ensures ColorCount(Execution.ApplyMoves(c, moves).value, color) == ColorCount(c, color)
  {
    Execution.ApplyMovesBag(c, moves);
  }

  /** One more element adds one occurrence exactly when it is `v`. */
  lemma OccurrencesSnoc(s: seq<Cell>, x: Cell, v: Cell)
    ensures Occurrences(s + [x], v) == Occurrences(s, v) + (if x == v then 1 else 0)
  {
    assert (s + [x])[..|s|] == s;
  }

  /** Occurrences in two runs of stickers add up. */
  lemma {:induction false} OccurrencesAppend(s: seq<Cell>, t: seq<Cell>, v: Cell)
    ensures Occurrences(s + t, v) == Occurrences(s, v) + Occurrences(t, v)
  {
    if t == [] {
      assert s + t == s;
    } else {
      var init, last := t[..|t| - 1], t[|t| - 1];
      OccurrencesAppend(s, init, v);
      assert t == init + [last];
      assert s + t == (s + init) + [last];
      OccurrencesSnoc(s + init, last, v);
      OccurrencesSnoc(init, last, v);
    }
  }

  /** The face order of the facelet string: UP, RIGHT, FRONT, DOWN, LEFT, BACK. */
  const FaceletOrder: seq<Face> := [Up, Right, Front, Down, Left, Back]

  /** The letter `as_string` writes for a sticker: the initial of its colour, `?` when unset or
      `Unknown`. */
  function Letter(cell: Cell): (ch: char)
    ensures ch == '?' <==> cell == None || cell == Some(Unknown)
  {
    match cell
    case Some(White) => 'W'
    case Some(Yellow) => 'Y'
    case Some(Red) => 'R'
    case Some(Orange) => 'O'
    case Some(Blue) => 'B'
    case Some(Green) => 'G'
    case _ => '?'
  }

  /** The letters of a sequence of stickers, in order. */
  function Letters(s: seq<Cell>): (t: string)
    ensures |t| == |s|
    ensures forall i :: 0 <= i < |s| ==> t[i] == Letter(s[i])
  {
    if s == [] then "" else Letters(s[..|s| - 1]) + [Letter(s[|s| - 1])]
  }

  /** One more sticker adds its letter at the end, whatever text precedes the letters. */
  lemma LettersSnoc(prefix: string, s: seq<Cell>, x: Cell)
    ensures prefix + Letters(s + [x]) == prefix + Letters(s) + [Letter(x)]
  {
    assert (s + [x])[..|s|] == s;
  }

  /** The letters of two runs of stickers are the letters of each, one after the other. */
  lemma LettersAppend(s: seq<Cell>, t: seq<Cell>)
    ensures Letters(s + t) == Letters(s) + Letters(t)
  {
  }

  /** `as_string`: one letter per sticker, faces in facelet order, each face row by row. */
  function AsString(c: Cube): (s: string)
    ensures |s| == 54
  {
    Letters(CellsIn(c, FaceletOrder, 6))
  }

  /** Character `9 * i + 3 * r + k` of the string is the letter of cell `(r, k)` of the `i`-th face
      in facelet order. */
  lemma AsStringAt(c: Cube, i: nat, r: Index, k: Index)
    requires i < 6
    ensures AsString(c)[9 * i + 3 * r + k] == Letter(c.Get(FaceletOrder[i])[r][k])
  {
    CellsInIndex(c, FaceletOrder, 6, i, r, k);
  }

  /** Every face appears in the facelet order, at the position `FaceletIndex` gives. */
  function FaceletIndex(f: Face): (i: nat)
    ensures i < 6 && FaceletOrder[i] == f
  {
    match f
    case Up => 0
    case Right => 1
    case Front => 2
    case Down => 3
    case Left => 4
    case Back => 5
  }

  /** The string loses nothing about a cube with no `Unknown` sticker: two such cubes with the same
      string are equal. */
  lemma AsStringInjective(c: Cube, d: Cube)
    requires forall p :: c.At(p) != Some(Unknown) && d.At(p) != Some(Unknown)
    requires AsString(c) == AsString(d)
    ensures c == d
  {
    forall p
      ensures c.At(p) == d.At(p)
    {
      AsStringAt(c, FaceletIndex(p.face), p.row, p.col);
      AsStringAt(d, FaceletIndex(p.face), p.row, p.col);
    }
    CubeExt(c, d);
  }
}
