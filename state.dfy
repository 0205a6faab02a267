/** The cube state object (`cube/state.py`) and the move engine of `cube/execution.py`, which
    updates that object in place. Every method is proved to leave the state the matching function of
    `Execution` or `CubeQueries` computes from the old state. */
module State {
  import opened Outcomes
  import opened Constants
  import opened Facelets
  import opened Movements
  import opened Execution
  import opened CubeQueries

  /** The state after the first `n` passes of the loop that runs cycle `t` on `c0`; each pass writes
      the sticker of `p1` that was saved before the loop started. */
  function Passes(c0: Cube, t: Cycle, n: nat): Cube
    requires n <= 3
  {
    if n == 0 then c0
    else CycleStep(Passes(c0, t, n - 1), t, n - 1, c0.At(StripAt(t.p1, n - 1)))
  }

  /** All three passes perform the cycle. */
  lemma PassesComplete(c0: Cube, t: Cycle)
    ensures Passes(c0, t, 3) == ApplyCycle(c0, t)
  {
    assert Passes(c0, t, 1) == CycleStep(c0, t, 0, c0.At(StripAt(t.p1, 0)));
    assert Passes(c0, t, 2) == CycleStep(Passes(c0, t, 1), t, 1, c0.At(StripAt(t.p1, 1)));
  }

  /** The neighbour table of `_rotate_adjacent`, written out again in `cube/state.py`: the strips
      cycled for a clockwise or counter-clockwise turn of `face`; BACK has no entry. */
  function StateAdjacentCycle(face: Face, clockwise: bool): (t: Option<Cycle>)
    ensures t.Some? ==> WellFormed(t.value)
  {
    match face
    case Front =>
      if clockwise then Some(Cycle(Row(Up, 2), ColReversed(Left, 2), RowReversed(Down, 0), Col(Right, 0)))
      else Some(Cycle(Row(Up, 2), Col(Right, 0), RowReversed(Down, 0), ColReversed(Left, 2)))
    case Right =>
      if clockwise then Some(Cycle(Col(Up, 2), Col(Front, 2), Col(Down, 2), ColReversed(Back, 0)))
      else Some(Cycle(Col(Up, 2), ColReversed(Back, 0), Col(Down, 2), Col(Front, 2)))
    case Up =>
      if clockwise then Some(Cycle(Row(Front, 0), Row(Right, 0), Row(Back, 0), Row(Left, 0)))
      else Some(Cycle(Row(Front, 0), Row(Left, 0), Row(Back, 0), Row(Right, 0)))
    case Left =>
      if clockwise then Some(Cycle(Col(Up, 0), ColReversed(Back, 2), Col(Down, 0), Col(Front, 0)))
      else Some(Cycle(Col(Up, 0), Col(Front, 0), Col(Down, 0), ColReversed(Back, 2)))
    case Down =>
      if clockwise then Some(Cycle(Row(Front, 2), Row(Left, 2), Row(Back, 2), Row(Right, 2)))
      else Some(Cycle(Row(Front, 2), Row(Right, 2), Row(Back, 2), Row(Left, 2)))
    case Back => None
  }

  /** The duplicate table agrees with the engine's for FRONT, RIGHT, UP, LEFT and DOWN, clockwise
      being the engine's branch for any modifier other than `"'"`; BACK is missing from it. */
  lemma StateTableMatchesEngine(face: Face, clockwise: bool)
    ensures StateAdjacentCycle(face, clockwise) ==
            if face == Back then None else Some(AdjacentCycle(face, if clockwise then "" else "'"))
  {
  }

  class CubeState {
    /** `self.faces`: the six grids of stickers. */
    var faces: Cube

    /** A new state: every sticker is unset. */
    constructor ()
      ensures faces == UniformCube(None)
      ensures !IsComplete(faces)
    {
      faces := UniformCube(None);
      new;
      assert faces.At(Pos(Up, 0, 0)) == None;
      IsCompleteAt(faces);
    }

    /** `get_face`: the grid of one face. */
    function GetFace(face: Face): Grid
      reads this
    {
      faces.Get(face)
    }

    /** `set_face`: the face now holds `colors` and the other five faces are unchanged. */
    method SetFace(face: Face, colors: Grid)
      modifies this
      ensures GetFace(face) == colors
      ensures forall f :: f != face ==> GetFace(f) == old(GetFace(f))
    {
      faces := faces.With(face, colors);
    }

    /** `is_complete`: scans the faces in `Face` order and reports `false` as soon as a row holds an
        unset sticker. */
    method CheckComplete() returns (b: bool)
      ensures b == IsComplete(faces)
    {
      for i := 0 to 6
        invariant forall j, r: Index :: 0 <= j < i ==> None !in faces.Get(AllFaces[j])[r]
      {
        var g := faces.Get(AllFaces[i]);
        if None in g[0] || None in g[1] || None in g[2] {
          assert exists r: Index :: None in faces.Get(AllFaces[i])[r];
          return false;
        }
      }
      forall f, r: Index
        ensures None !in faces.Get(f)[r]
      {
        assert AllFaces[FaceIndex(f)] == f;
      }
      return true;
    }

    /** `as_string`: appends one letter per sticker, faces in facelet order and each face row by row. */
    method ToFaceletString() returns (s: string)
      ensures s == AsString(faces)
    {
      s := "";
      for i := 0 to 6
        invariant s == Letters(CellsIn(faces, FaceletOrder, i))
      {
        LettersAppend(CellsIn(faces, FaceletOrder, i), FaceCells(faces.Get(FaceletOrder[i])));
        s := AppendLetters(s, faces.Get(FaceletOrder[i]));
      }
    }

    /** The nested loops of `as_string` over one face: the letters of its stickers, row by row, are
        appended to `s0`. */
    static method AppendLetters(s0: string, g: Grid) returns (s: string)
      ensures s == s0 + Letters(FaceCells(g))
    {
      s := s0;
      for r := 0 to 3
        invariant s == s0 + Letters(Flatten(g[..r]))
      {
        ghost var done := Flatten(g[..r]);
        assert done + g[r][..0] == done;
        for k := 0 to 3
          invariant s == s0 + Letters(done + g[r][..k])
        {
          var cell := g[r][k];
          LettersSnoc(s0, done + g[r][..k], cell);
          SliceSnoc(done, g[r], k);
          s := s + [Letter(cell)];
        }
        assert g[r][..3] == g[r];
        FlattenPrefix(g, r);
      }
      FlattenGrid(g);
    }

    /** `color_count`: tallies every set sticker, faces in `Face` order; the tally of each colour is
        its colour count. */
    method CountColors() returns (counts: multiset<Color>)
      ensures forall color :: counts[color] == ColorCount(faces, color)
    {
      counts := multiset{};
      for i := 0 to 6
        invariant forall color :: counts[color] == Occurrences(CellsIn(faces, AllFaces, i), Some(color))
      {
        forall color
          ensures Occurrences(CellsIn(faces, AllFaces, i + 1), Some(color)) ==
                  Occurrences(CellsIn(faces, AllFaces, i), Some(color)) + Occurrences(FaceCells(faces.Get(AllFaces[i])), Some(color))
        {
          OccurrencesAppend(CellsIn(faces, AllFaces, i), FaceCells(faces.Get(AllFaces[i])), Some(color));
        }
        counts := TallyFace(counts, faces.Get(AllFaces[i]));
      }
    }

    /** The nested loops of `color_count` over one face: each set sticker adds one to its colour. */
    static method TallyFace(counts0: multiset<Color>, g: Grid) returns (counts: multiset<Color>)
      ensures forall color :: counts[color] == counts0[color] + Occurrences(FaceCells(g), Some(color))
    {
      counts := counts0;
      for r := 0 to 3
        invariant forall color :: counts[color] == counts0[color] + Occurrences(Flatten(g[..r]), Some(color))
      {
        ghost var done := Flatten(g[..r]);
        assert done + g[r][..0] == done;
        for k := 0 to 3
          invariant forall color :: counts[color] == counts0[color] + Occurrences(done + g[r][..k], Some(color))
        {
          var cell := g[r][k];
          SliceSnoc(done, g[r], k);
          forall color
            ensures Occurrences(done + g[r][..k + 1], Some(color)) ==
                    Occurrences(done + g[r][..k], Some(color)) + (if cell == Some(color) then 1 else 0)
          {
            OccurrencesSnoc(done + g[r][..k], cell, Some(color));
          }
          if cell.Some? {
            counts := counts + multiset{cell.value};
          }
        }
        assert g[r][..3] == g[r];
        FlattenPrefix(g, r);
      }
      FlattenGrid(g);
    }

    /** `is_valid`: takes the colour counts and checks, colour by colour, that each colour other than
        `Unknown` shows on exactly nine stickers. */
    method CheckValid() returns (b: bool)
      ensures b == IsValid(faces)
    {
      var counts := CountColors();
      for i := 0 to 7
        invariant forall color :: color in AllColors[..i] && color != Unknown ==> ColorCount(faces, color) == 9
      {
        var color := AllColors[i];
        if color != Unknown && counts[color] != 9 {
          return false;
        }
      }
      assert AllColors[..7] == AllColors;
      return true;
    }

    /** `reset_face`: the face is unset again, the other five faces are unchanged, and the state is
        no longer complete. */
    method ResetFace(face: Face)
      modifies this
      ensures GetFace(face) == UniformGrid(None)
      ensures forall f :: f != face ==> GetFace(f) == old(GetFace(f))
      ensures !IsComplete(faces)
    {
      faces := faces.With(face, UniformGrid(None));
      assert faces.At(Pos(face, 0, 0)) == None;
      IsCompleteAt(faces);
    }

    /** `copy`: a new object holding the same stickers, built face by face. It shares nothing with
        this one, so later changes to either leave the other alone. */
    method Copy() returns (s: CubeState)
      ensures fresh(s) && s.faces == faces
    {
      s := new CubeState();
      for i := 0 to 6
        invariant fresh(s)
        invariant forall j :: 0 <= j < i ==> s.faces.Get(AllFaces[j]) == faces.Get(AllFaces[j])
      {
        s.faces := s.faces.With(AllFaces[i], faces.Get(AllFaces[i]));
      }
      forall f
        ensures s.faces.Get(f) == faces.Get(f)
      {
        assert AllFaces[FaceIndex(f)] == f;
      }
      CubeByFaces(s.faces, faces);
    }

    /** The nested loops of `set_solved` that build one face: three rows of three copies of `v`. */
    static method FilledGrid(v: Cell) returns (g: Grid)
      ensures g == UniformGrid(v)
    {
      var rows: seq<seq<Cell>> := [];
      for r := 0 to 3
        invariant |rows| == r
        invariant forall x :: 0 <= x < r ==> rows[x] == [v, v, v]
      {
        var row: seq<Cell> := [];
        for k := 0 to 3
          invariant row == seq(k, _ => v)
        {
          row := row + [v];
        }
        rows := rows + [row];
      }
      g := rows;
    }

    /** `set_solved`: every face, in `Face` order, is filled with its solved colour. */
    method SetSolved()
      modifies this
      ensures faces == SolvedCube()
      ensures IsSolved(faces) && IsComplete(faces) && IsValid(faces)
    {
      for i := 0 to 6
        invariant forall j :: 0 <= j < i ==> faces.Get(AllFaces[j]) == UniformGrid(Some(SolvedColor(AllFaces[j])))
      {
        var face := AllFaces[i];
        var g := FilledGrid(Some(SolvedColor(face)));
        faces := faces.With(face, g);
      }
      forall f
        ensures faces.Get(f) == SolvedCube().Get(f)
      {
        assert AllFaces[FaceIndex(f)] == f;
      }
      CubeByFaces(faces, SolvedCube());
      SolvedIsValid();
    }

    /** `is_solved`: walks the faces in `Face` order, row by row, and reports `false` at the first
        sticker that differs from the face's solved colour. */
    method CheckSolved() returns (b: bool)
      ensures b == IsSolved(faces)
    {
      for i := 0 to 6
        invariant forall j, r: Index, k: Index :: 0 <= j < i ==> faces.Get(AllFaces[j])[r][k] == Some(SolvedColor(AllFaces[j]))
      {
        var face := AllFaces[i];
        var expected := Some(SolvedColor(face));
        var g := faces.Get(face);
        for r := 0 to 3
          invariant forall r': Index, k: Index :: r' < r ==> g[r'][k] == expected
        {
          for k := 0 to 3
            invariant forall k': Index :: k' < k ==> g[r][k'] == expected
          {
            if g[r][k] != expected {
              return false;
            }
          }
        }
      }
      forall f, r: Index, k: Index
        ensures faces.Get(f)[r][k] == Some(SolvedColor(f))
      {
        assert AllFaces[FaceIndex(f)] == f;
      }
      return true;
    }

    /** One pass of the loop every branch of `update_adjacent_faces` runs: three stickers copied one
        place along the cycle, then the saved sticker written to strip `p4`. */
    method CyclePass(t: Cycle, i: Index, saved: Cell)
      modifies this
      ensures faces == CycleStep(old(faces), t, i, saved)
    {
      var a, b, d, e := StripAt(t.p1, i), StripAt(t.p2, i), StripAt(t.p3, i), StripAt(t.p4, i);
      faces := faces.Set(a, faces.At(b));
      faces := faces.Set(b, faces.At(d));
      faces := faces.Set(d, faces.At(e));
      faces := faces.Set(e, saved);
    }

    /** The loop every branch of `update_adjacent_faces` runs: the stickers of `p1` are saved, then
        for `i` in 0, 1, 2 the four stickers of step `i` move one place along the cycle. */
    method RunCycle(t: Cycle)
      requires WellFormed(t)
      modifies this
      ensures faces == ApplyCycle(old(faces), t)
    {
      var temp := [faces.At(StripAt(t.p1, 0)), faces.At(StripAt(t.p1, 1)), faces.At(StripAt(t.p1, 2))];
      ghost var c0 := faces;
      for i := 0 to 3
        invariant faces == Passes(c0, t, i)
      {
        CyclePass(t, i, temp[i]);
      }
      PassesComplete(c0, t);
    }

    /** `update_adjacent_faces`: runs the cycle of the branch for `face` and `modifier`. */
    method UpdateAdjacent(face: Face, modifier: string)
      modifies this
      ensures faces == UpdateAdjacentFaces(old(faces), face, modifier)
    {
      RunCycle(AdjacentCycle(face, modifier));
    }

    /** `_rotate_adjacent`: runs the cycle of its own table, which does nothing for BACK; for every
        other face it is the engine's neighbour update. */
    method RotateAdjacent(face: Face, clockwise: bool)
      modifies this
      ensures faces == if face == Back then old(faces)
                       else UpdateAdjacentFaces(old(faces), face, if clockwise then "" else "'")
    {
      StateTableMatchesEngine(face, clockwise);
      match StateAdjacentCycle(face, clockwise)
      case None =>
      case Some(t) => RunCycle(t);
    }

    /** The outer-face branch of `apply_move`: the face's own grid is rotated and its neighbours
        updated, twice clockwise for `"2"`. */
    method TurnOuter(face: Face, modifier: string)
      modifies this
      ensures faces == OuterTurn(old(faces), face, modifier)
    {
      if modifier == "'" {
        faces := faces.With(face, RotateCounterClockwise(faces.Get(face)));
        UpdateAdjacent(face, modifier);
      } else if modifier == "2" {
        faces := faces.With(face, RotateClockwise(faces.Get(face)));
        UpdateAdjacent(face, "");
        faces := faces.With(face, RotateClockwise(faces.Get(face)));
        UpdateAdjacent(face, "");
      } else {
        faces := faces.With(face, RotateClockwise(faces.Get(face)));
        UpdateAdjacent(face, modifier);
      }
    }

    /** `_apply_middle_row_move`: row 1 of FRONT, LEFT, BACK and RIGHT is saved, then each of these
        faces takes its neighbour's saved row. */
    method MiddleRow(counterclockwise: bool)
      modifies this
      ensures faces == MiddleRowMove(old(faces), counterclockwise)
    {
      var frontMiddle, leftMiddle, backMiddle, rightMiddle := faces.front[1], faces.left[1], faces.back[1], faces.right[1];
      if counterclockwise {
        faces := faces.(front := faces.front[1 := leftMiddle]);
        faces := faces.(left := faces.left[1 := backMiddle]);
        faces := faces.(back := faces.back[1 := rightMiddle]);
        faces := faces.(right := faces.right[1 := frontMiddle]);
      } else {
        faces := faces.(front := faces.front[1 := rightMiddle]);
        faces := faces.(right := faces.right[1 := backMiddle]);
        faces := faces.(back := faces.back[1 := leftMiddle]);
        faces := faces.(left := faces.left[1 := frontMiddle]);
      }
    }

    /** `apply_middle_layer_move`: M runs the middle-row move, E and S apply their two outer-face
        tokens in turn, and any other letter does nothing. It never raises. */
    method MiddleLayerMove(moveType: char, modifier: string)
      modifies this
      ensures MiddleLayer(old(faces), moveType, modifier) == Ok(faces)
      decreases if moveType == 'E' || moveType == 'S' then 1 else 0, 0
    {
      if moveType == 'M' {
        if modifier == "'" {
          MiddleRow(true);
        } else if modifier == "2" {
          MiddleRow(false);
          MiddleRow(false);
        } else {
          MiddleRow(false);
        }
      } else if moveType == 'E' || moveType == 'S' {
        var tokens := LayerTokens(moveType, modifier);
        assert Depth(tokens.0) == 0 && Depth(tokens.1) == 0;
        assert !Rejected(tokens.0) && !Rejected(tokens.1);
        ghost var c0 := faces;
        var r1 := Apply(tokens.0);
        ghost var c1 := faces;
        var r2 := Apply(tokens.1);
        assert ApplyMove(c0, tokens.0) == Ok(c1);
        assert MiddleLayer(c0, moveType, modifier) == ApplyMove(c1, tokens.1);
      }
    }

    /** `rotate_cube_around_vertical_axis`: the four side grids are saved and relabelled, and the UP
        and DOWN grids are turned in opposite directions. */
    method VerticalAxis(clockwise: bool)
      modifies this
      ensures faces == Vertical(old(faces), clockwise)
    {
      var up, front, down, back, left, right := faces.up, faces.front, faces.down, faces.back, faces.left, faces.right;
      if !clockwise {
        faces := faces.(front := left, left := back, back := right, right := front);
        faces := faces.(up := RotateCounterClockwise(up), down := RotateClockwise(down));
      } else {
        faces := faces.(front := right, right := back, back := left, left := front);
        faces := faces.(up := RotateClockwise(up), down := RotateCounterClockwise(down));
      }
    }

    /** `apply_cube_rotation`: R and L turn the whole cube (twice for `"2"`); any other letter fails
        before anything changes. */
    method CubeRotationMove(rotationFace: char, modifier: string) returns (r: Outcome<MoveError>)
      modifies this
      ensures r.Pass? ==> CubeRotation(old(faces), rotationFace, modifier) == Ok(faces)
      ensures r.Fail? ==> CubeRotation(old(faces), rotationFace, modifier) == Err(r.error) && faces == old(faces)
    {
      r := Pass;
      if rotationFace == 'R' {
        if modifier == "'" {
          VerticalAxis(false);
        } else if modifier == "2" {
          VerticalAxis(false);
          VerticalAxis(false);
        } else {
          VerticalAxis(true);
        }
      } else if rotationFace == 'L' {
        if modifier == "'" {
          VerticalAxis(true);
        } else if modifier == "2" {
          VerticalAxis(true);
          VerticalAxis(true);
        } else {
          VerticalAxis(false);
        }
      } else {
        r := Fail(InvalidCubeRotationFace(rotationFace));
      }
    }

    /** `apply_move`: the empty token does nothing; otherwise the first character selects an outer
        turn, a middle-layer move or, after `m`, a whole-cube rotation; every other token fails
        before anything changes. */
    method Apply(move: string) returns (r: Outcome<MoveError>)
      modifies this
      ensures r.Pass? ==> ApplyMove(old(faces), move) == Ok(faces)
      ensures r.Fail? ==> ApplyMove(old(faces), move) == Err(r.error) && faces == old(faces)
      decreases Depth(move), 1
    {
      r := Pass;
      if move == "" {
        return;
      }
      var face := move[0];
      var modifier := if |move| > 1 then [move[1]] else "";
      assert SplitMove(move) == (face, modifier);
      var outer := OuterFace(face);
      if outer.Some? {
        assert Dispatch(move) == OuterMove(outer.value, modifier);
        TurnOuter(outer.value, modifier);
      } else if face == 'M' || face == 'E' || face == 'S' {
        assert Dispatch(move) == MiddleMove(face, modifier);
        MiddleLayerMove(face, modifier);
      } else if face == 'm' {
        if |move| >= 2 {
          assert Dispatch(move) == RotationMove(move[1], modifier);
          r := CubeRotationMove(move[1], modifier);
        } else {
          assert Dispatch(move) == Invalid(InvalidCubeRotationMove(move));
          r := Fail(InvalidCubeRotationMove(move));
        }
      } else {
        assert Dispatch(move) == Invalid(InvalidFace(face));
        r := Fail(InvalidFace(face));
      }
    }

    /** `move`: applies one token with the engine. An accepted token keeps every colour count. */
    method Move(move: string) returns (r: Outcome<MoveError>)
      modifies this
      ensures r.Pass? ==> ApplyMove(old(faces), move) == Ok(faces)
      ensures r.Fail? ==> ApplyMove(old(faces), move) == Err(r.error) && faces == old(faces)
      ensures forall color :: ColorCount(faces, color) == ColorCount(old(faces), color)
    {
      ghost var c0 := faces;
      r := Apply(move);
      if r.Pass? {
        forall color
          ensures ColorCount(faces, color) == ColorCount(c0, color)
        {
          MoveKeepsColorCount(c0, move, color);
        }
      }
    }
  }
}
