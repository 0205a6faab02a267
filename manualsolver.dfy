/** `cube/manual_solver.py`: a scripted player that works through the seven steps of the beginner's
    method by appending fixed move lists to its solution, playing each move on a working copy of the
    state, and replaying prefixes of the solution on demand. */
module ManualSolver {
  import opened Outcomes
  import opened Constants
  import opened Facelets
  import opened Execution
  import opened CubeQueries
  import opened State
  import opened Text
  import Bridge

  // ---------------------------------------------------------------------------------------------
  // The scripted move lists
  // ---------------------------------------------------------------------------------------------

  /** F R U R' U' F': the edge insertion, the front middle-layer case, the default and OLL step 1. */
  const FrontAlgorithm: seq<string> := ["F", "R", "U", "R'", "U'", "F'"]
  /** The back middle-layer case. */
  const BackAlgorithm: seq<string> := ["B'", "L'", "U'", "L", "U", "B"]
  /** The left middle-layer case. */
  const LeftAlgorithm: seq<string> := ["L'", "U'", "L", "U"]
  /** R U R' U': the right middle-layer case and the corner step. */
  const RightAlgorithm: seq<string> := ["R", "U", "R'", "U'"]
  /** The bottom-layer case. */
  const BottomAlgorithm: seq<string> := ["F2"]
  /** The second-layer step. */
  const MiddleLayerAlgorithm: seq<string> := ["U", "R", "U'", "R'", "U'", "F'", "U", "F"]
  /** OLL step 2. */
  const OllTwoAlgorithm: seq<string> := ["R", "U", "R'", "U", "R", "U2", "R'"]
  /** PLL step 1. */
  const PllOneAlgorithm: seq<string> := ["R", "U", "R'", "F'", "R", "U", "R'", "U'", "R'", "F", "R2", "U'", "R'"]
  /** PLL step 2. */
  const PllTwoAlgorithm: seq<string> := ["M2", "U", "M2", "U2", "M2", "U", "M2"]

  /** No token of `alg` is rejected by `apply_move`. */
  predicate Accepted(alg: seq<string>)
  {
    forall i :: 0 <= i < |alg| ==> !Rejected(alg[i])
  }

  /** Every token of `alg` starts with an outer-face or middle-slice letter. */
  predicate OuterTokens(alg: seq<string>)
  {
    forall i :: 0 <= i < |alg| ==> alg[i] != "" && alg[i][0] in {'F', 'R', 'U', 'L', 'D', 'B', 'M'}
  }

  /** Such tokens are accepted. */
  lemma OuterTokensAccepted(alg: seq<string>)
    requires OuterTokens(alg)
    ensures Accepted(alg)
  {
    forall i | 0 <= i < |alg|
      ensures !Rejected(alg[i])
    {
      var ch := alg[i][0];
      assert ch in "FRULDBMESm" by {
        if ch == 'F' { assert "FRULDBMESm"[0] == ch; }
        else if ch == 'R' { assert "FRULDBMESm"[1] == ch; }
        else if ch == 'U' { assert "FRULDBMESm"[2] == ch; }
        else if ch == 'L' { assert "FRULDBMESm"[3] == ch; }
        else if ch == 'D' { assert "FRULDBMESm"[4] == ch; }
        else if ch == 'B' { assert "FRULDBMESm"[5] == ch; }
        else { assert "FRULDBMESm"[6] == ch; }
      }
    }
  }

  /** Every scripted list is played without an error. */
  lemma AlgorithmsAccepted()
    ensures Accepted(FrontAlgorithm) && Accepted(BackAlgorithm) && Accepted(LeftAlgorithm)
    ensures Accepted(RightAlgorithm) && Accepted(BottomAlgorithm) && Accepted(MiddleLayerAlgorithm)
    ensures Accepted(OllTwoAlgorithm) && Accepted(PllOneAlgorithm) && Accepted(PllTwoAlgorithm)
  {
    OuterTokensAccepted(FrontAlgorithm);
    OuterTokensAccepted(BackAlgorithm);
    OuterTokensAccepted(LeftAlgorithm);
    OuterTokensAccepted(RightAlgorithm);
    OuterTokensAccepted(BottomAlgorithm);
    OuterTokensAccepted(MiddleLayerAlgorithm);
    OuterTokensAccepted(OllTwoAlgorithm);
    OuterTokensAccepted(PllOneAlgorithm);
    OuterTokensAccepted(PllTwoAlgorithm);
  }

  /** The list for a middle-layer edge on `face`. */
  function MiddleEdgeAlgorithm(face: Face): (alg: seq<string>)
    ensures Accepted(alg) && 1 <= |alg| <= 6
  {
    AlgorithmsAccepted();
    match face
    case Front => FrontAlgorithm
    case Back => BackAlgorithm
    case Left => LeftAlgorithm
    case Right => RightAlgorithm
    case _ => FrontAlgorithm
  }

  // ---------------------------------------------------------------------------------------------
  // Reading the white cross off a cube
  // ---------------------------------------------------------------------------------------------

  /** A sticker of a face, as `_find_white_edges` reports it. */
  datatype Edge = Edge(face: Face, row: Index, col: Index)

  /** The four edge cells of a face, in the order the source checks them. */
  const EdgePositions: seq<(Index, Index)> := [(0, 1), (1, 0), (1, 2), (2, 1)]

  predicate IsEdgePosition(row: int, col: int)
  {
    (row == 0 && col == 1) || (row == 1 && col == 0) || (row == 1 && col == 2) || (row == 2 && col == 1)
  }

  /** The white edges among the first `j` edge cells of `face`. */
  function FaceWhiteEdges(c: Cube, face: Face, j: nat): (r: seq<Edge>)
    requires j <= 4
    ensures |r| <= j
  {
    if j == 0 then []
    else
      var (row, col) := EdgePositions[j - 1];
      FaceWhiteEdges(c, face, j - 1) + (if c.Get(face)[row][col] == Some(White) then [Edge(face, row, col)] else [])
  }

  /** The white edges of the first `n` faces in declaration order. */
  function WhiteEdgesIn(c: Cube, n: nat): (r: seq<Edge>)
    requires n <= 6
    ensures |r| <= 4 * n
  {
    if n == 0 then [] else WhiteEdgesIn(c, n - 1) + FaceWhiteEdges(c, AllFaces[n - 1], 4)
  }

  /** What `_find_white_edges` reports: every white edge cell, faces in declaration order. */
  function WhiteEdges(c: Cube): seq<Edge>
  {
    WhiteEdgesIn(c, 6)
  }

  lemma {:induction false} FaceWhiteEdgesExact(c: Cube, face: Face, j: nat, e: Edge)
    requires j <= 4
    ensures e in FaceWhiteEdges(c, face, j) <==>
            e.face == face && (e.row, e.col) in EdgePositions[..j] && c.Get(face)[e.row][e.col] == Some(White)
  {
    if j > 0 {
      FaceWhiteEdgesExact(c, face, j - 1, e);
      assert EdgePositions[..j] == EdgePositions[..j - 1] + [EdgePositions[j - 1]];
    }
  }

  /** The listed edge cells are exactly the edge positions. */
  lemma EdgePositionsExact(row: int, col: int)
    ensures (row, col) in EdgePositions[..4] <==> IsEdgePosition(row, col)
  {
    assert EdgePositions[..4] == EdgePositions;
    if IsEdgePosition(row, col) {
      if row == 0 { assert EdgePositions[0] == (row, col); }
      else if row == 2 { assert EdgePositions[3] == (row, col); }
      else if col == 0 { assert EdgePositions[1] == (row, col); }
      else { assert EdgePositions[2] == (row, col); }
    }
  }

  lemma {:induction false} WhiteEdgesInExact(c: Cube, n: nat, e: Edge)
    requires n <= 6
    ensures e in WhiteEdgesIn(c, n) <==>
            e.face in AllFaces[..n] && IsEdgePosition(e.row, e.col) && c.Get(e.face)[e.row][e.col] == Some(White)
  {
    if n > 0 {
      WhiteEdgesInExact(c, n - 1, e);
      FaceWhiteEdgesExact(c, AllFaces[n - 1], 4, e);
      EdgePositionsExact(e.row, e.col);
      assert e in WhiteEdgesIn(c, n) <==> e in WhiteEdgesIn(c, n - 1) || e in FaceWhiteEdges(c, AllFaces[n - 1], 4);
      assert e.face in AllFaces[..n] <==> e.face in AllFaces[..n - 1] || e.face == AllFaces[n - 1] by {
        assert AllFaces[..n] == AllFaces[..n - 1] + [AllFaces[n - 1]];
      }
    }
  }

  /** `_find_white_edges` reports exactly the white stickers on the edge cells of the six faces, at
      most 24 of them. */
  lemma WhiteEdgesExact(c: Cube, e: Edge)
    ensures e in WhiteEdges(c) <==> IsEdgePosition(e.row, e.col) && c.Get(e.face)[e.row][e.col] == Some(White)
    ensures |WhiteEdges(c)| <= 24
  {
    WhiteEdgesInExact(c, 6, e);
    var _ := FaceIndex(e.face);
    assert AllFaces[..6] == AllFaces;
  }

  /** `_is_edge_properly_aligned(row, col)`: the UP sticker at `(row, col)` is white and, for an edge
      cell, the sticker it pairs with on a side face matches that face's centre. Any other cell passes
      once it is white. */
  predicate Aligned(c: Cube, row: Index, col: Index)
  {
    c.up[row][col] == Some(White) &&
    if row == 0 && col == 1 then c.front[0][1] == c.front[1][1]
    else if row == 1 && col == 0 then c.left[1][0] == c.left[1][1]
    else if row == 1 && col == 2 then c.right[1][2] == c.right[1][1]
    else if row == 2 && col == 1 then c.back[2][1] == c.back[1][1]
    else true
  }

  /** `_is_white_cross_solved`: a white UP centre and all four UP edges aligned. */
  predicate CrossSolved(c: Cube)
  {
    c.up[1][1] == Some(White) && forall j :: 0 <= j < 4 ==> Aligned(c, EdgePositions[j].0, EdgePositions[j].1)
  }

  /** The cross test spelled out: white UP centre and edges, and FRONT[0][1], LEFT[1][0], RIGHT[1][2]
      and BACK[2][1] each equal to their face's centre. */
  lemma CrossSolvedMeaning(c: Cube)
    ensures CrossSolved(c) <==>
            c.up[1][1] == Some(White) && c.up[0][1] == Some(White) && c.up[1][0] == Some(White) &&
            c.up[1][2] == Some(White) && c.up[2][1] == Some(White) &&
            c.front[0][1] == c.front[1][1] && c.left[1][0] == c.left[1][1] &&
            c.right[1][2] == c.right[1][1] && c.back[2][1] == c.back[1][1]
  {
    var edges := Aligned(c, 0, 1) && Aligned(c, 1, 0) && Aligned(c, 1, 2) && Aligned(c, 2, 1);
    if edges {
      forall j | 0 <= j < 4
        ensures Aligned(c, EdgePositions[j].0, EdgePositions[j].1)
      {
        if j == 0 {
        } else if j == 1 {
        } else if j == 2 {
        } else {
        }
      }
    }
    if forall j :: 0 <= j < 4 ==> Aligned(c, EdgePositions[j].0, EdgePositions[j].1) {
      assert Aligned(c, EdgePositions[0].0, EdgePositions[0].1) && Aligned(c, EdgePositions[1].0, EdgePositions[1].1);
      assert Aligned(c, EdgePositions[2].0, EdgePositions[2].1) && Aligned(c, EdgePositions[3].0, EdgePositions[3].1);
    }
  }

  /** The solved cube has its white cross. */
  lemma SolvedHasCross()
    ensures CrossSolved(SolvedCube())
  {
    CrossSolvedMeaning(SolvedCube());
  }

  /** `_get_edge_alignment_info`: the side face an UP edge cell pairs with. */
  function AlignmentFace(row: int, col: int): (r: Option<Face>)
    ensures r.Some? <==> IsEdgePosition(row, col)
  {
    if row == 0 && col == 1 then Some(Front)
    else if row == 1 && col == 0 then Some(Left)
    else if row == 1 && col == 2 then Some(Right)
    else if row == 2 && col == 1 then Some(Back)
    else None
  }

  /** `_is_edge_aligned_with_side_center(row, col, target)`: the cell of `target` at the position
      that matches `(row, col)` equals `target`'s centre; false for any other cell. */
  predicate AlignedWithSideCenter(c: Cube, row: int, col: int, target: Face)
  {
    var g := c.Get(target);
    if row == 0 && col == 1 then g[0][1] == g[1][1]
    else if row == 1 && col == 0 then g[1][0] == g[1][1]
    else if row == 1 && col == 2 then g[1][2] == g[1][1]
    else if row == 2 && col == 1 then g[2][1] == g[1][1]
    else false
  }

  /** The two alignment tests agree: on an edge cell, properly aligned means white and aligned with
      the side centre the alignment info names. */
  lemma AlignedAgrees(c: Cube, row: Index, col: Index)
    requires IsEdgePosition(row, col)
    ensures Aligned(c, row, col) <==>
            c.up[row][col] == Some(White) && AlignedWithSideCenter(c, row, col, AlignmentFace(row, col).value)
  {
  }

  /** `_analyze_edge_state_beginner`'s classification. */
  datatype Location = TopCorrect | TopMisaligned | MiddleLayer | BottomFlipped | Elsewhere

  function Locate(c: Cube, face: Face, row: Index, col: Index): (r: Location)
    ensures r == Elsewhere <==> !IsEdgePosition(row, col)
    ensures r == TopCorrect ==> face == Up && Aligned(c, row, col)
  {
    if !IsEdgePosition(row, col) then Elsewhere
    else if face == Up then (if Aligned(c, row, col) then TopCorrect else TopMisaligned)
    else if face == Down then BottomFlipped
    else MiddleLayer
  }

  // ---------------------------------------------------------------------------------------------
  // Replay
  // ---------------------------------------------------------------------------------------------

  /** `steps` extends `steps0`, and the added moves take `c0` to `c`. */
  predicate Extends(steps0: seq<string>, c0: Cube, steps: seq<string>, c: Cube)
  {
    steps0 <= steps && ApplyMoves(c0, steps[|steps0|..]) == Ok(c)
  }

  /** What a longer prefix adds past a shorter one is what the middle one adds, then the rest. */
  lemma DropThrough<T>(s0: seq<T>, s1: seq<T>, s2: seq<T>)
    requires s0 <= s1 <= s2
    ensures s2[|s0|..] == s1[|s0|..] + s2[|s1|..]
  {
    forall i | 0 <= i < |s2| - |s0|
      ensures s2[|s0|..][i] == (s1[|s0|..] + s2[|s1|..])[i]
    {
      if i < |s1| - |s0| {
        assert s1[|s0| + i] == s2[|s0| + i];
      }
    }
  }

  /** Extending twice is extending once. */
  lemma ExtendsTrans(s0: seq<string>, c0: Cube, s1: seq<string>, c1: Cube, s2: seq<string>, c2: Cube)
    requires Extends(s0, c0, s1, c1) && Extends(s1, c1, s2, c2)
    ensures Extends(s0, c0, s2, c2)
  {
    DropThrough(s0, s1, s2);
    ReplayConcat(c0, s1[|s0|..], s2[|s1|..], c1, c2);
  }

  /** Nothing added is an extension. */
  lemma ExtendsRefl(s: seq<string>, c: Cube)
    ensures Extends(s, c, s, c)
  {
    assert s[|s|..] == [];
  }

  /** What `get_state_at_step` gives: for `0 <= step < len(steps)` the initial state after the first
      `step + 1` moves; for any other step the working state, without an error. */
  function ManualStepState(initial: Cube, working: Cube, steps: seq<string>, step: int): Result<Cube, MoveError>
  {
    if step < 0 || step >= |steps| then Ok(working) else ApplyMoves(initial, steps[..step + 1])
  }

  /** In range, the manual solver shows one more move than the bridge does for the same step: its
      step `k` is the bridge's step `k + 1`. Outside the range it never fails. */
  lemma ManualStepIsOneAhead(initial: Cube, working: Cube, steps: seq<string>, step: int)
    ensures 0 <= step < |steps| ==>
            match ManualStepState(initial, working, steps, step)
            case Ok(d) => Bridge.StepState(initial, steps, step + 1) == Ok(d)
            case Err(e) => Bridge.StepState(initial, steps, step + 1) == Err(Bridge.MoveFailed(e))
    ensures step < 0 || step >= |steps| ==> ManualStepState(initial, working, steps, step) == Ok(working)
  {
  }

  /** Before `solve` has run, the working copy is still the initial state, so the last step shows the
      initial state rather than the state after every move. */
  lemma LastStepShowsInitial(initial: Cube, steps: seq<string>)
    ensures ManualStepState(initial, initial, steps, |steps|) == Ok(initial)
  {
  }

  // ---------------------------------------------------------------------------------------------
  // The solver object
  // ---------------------------------------------------------------------------------------------

  /** `moves_by_step` after the first `k` steps of `solve` on a fresh solver: the first `k` step
      names in order, each holding a string of moves that is a prefix of the next one's. */
  predicate ChainSoFar(t: Bridge.StepTable, k: nat)
  {
    |t| == k <= 7 &&
    (forall i :: 0 <= i < k ==> t[i].0 == Bridge.StepNames[i] && t[i].1.Moves?) &&
    (forall i :: 0 <= i < k - 1 ==> t[i].1.text <= t[i + 1].1.text)
  }

  /** The chain after `k` steps, the last of which stored `" ".join(steps)`. */
  predicate Recorded(t: Bridge.StepTable, k: nat, steps: seq<string>)
  {
    ChainSoFar(t, k) && (k > 0 ==> t[k - 1].1 == Bridge.Moves(Join(" ", steps)))
  }

  /** The whole table `solve` returns on a fresh solver: all seven steps, the last holding the
      solution. */
  predicate PrefixChain(t: Bridge.StepTable, solution: string)
  {
    ChainSoFar(t, 7) && t[6].1.text == solution
  }

  /** `moves_by_step[key] = value`: replaces the value of an existing key in place, or appends. */
  function Put(t: Bridge.StepTable, key: string, value: string): (r: Bridge.StepTable)
    ensures |r| == |t| || r == t + [(key, Bridge.Moves(value))]
    ensures (forall i :: 0 <= i < |t| ==> t[i].0 != key) ==> r == t + [(key, Bridge.Moves(value))]
  {
    if t == [] then [(key, Bridge.Moves(value))]
    else if t[|t| - 1].0 == key then t[..|t| - 1] + [(key, Bridge.Moves(value))]
    else
      var init := Put(t[..|t| - 1], key, value);
      if |init| == |t| - 1 then init + [t[|t| - 1]] else t + [(key, Bridge.Moves(value))]
  }

  /** A list replayed without an error holds only accepted moves. */
  lemma ReplayedAccepted(c: Cube, moves: seq<string>)
    requires ApplyMoves(c, moves).Ok?
    ensures Accepted(moves)
  {
    AllAcceptedEvery(moves);
  }

  /** Appending accepted moves to a solution whose new part is accepted keeps it so. */
  lemma AcceptedExtends(s0: seq<string>, s: seq<string>, alg: seq<string>)
    requires s0 <= s && Accepted(s[|s0|..]) && Accepted(alg)
    ensures s0 <= s + alg && Accepted((s + alg)[|s0|..])
  {
    assert (s + alg)[|s0|..] == s[|s0|..] + alg;
  }

  /** The seven step names differ from one another. */
  lemma StepNamesDistinct()
    ensures forall i, j :: 0 <= i < j < 7 ==> Bridge.StepNames[i] != Bridge.StepNames[j]
  {
  }

  /** Recording the next step under its name, with a string the previous step's is a prefix of,
      appends it and keeps the chain. */
  lemma {:induction false} PutExtendsChain(t: Bridge.StepTable, k: nat, value: string)
    requires k < 7
    ensures ChainSoFar(t, k) && (k > 0 ==> t[k - 1].1.text <= value) ==>
      ChainSoFar(Put(t, Bridge.StepNames[k], value), k + 1) &&
      Put(t, Bridge.StepNames[k], value)[k].1 == Bridge.Moves(value)
  {
    if !ChainSoFar(t, k) {
      return;
    }
    StepNamesDistinct();
    assert forall i :: 0 <= i < |t| ==> t[i].0 != Bridge.StepNames[k];
    var r := Put(t, Bridge.StepNames[k], value);
    assert r == t + [(Bridge.StepNames[k], Bridge.Moves(value))];
  }

  /** Proof helper, not a model of the source: nonlinear arithmetic the loop of `SolveWhiteCross`
      needs for its move budget. */
  lemma Budget(i: nat, b: nat, used: int, now: int)
    requires used <= i * b
    ensures now <= used + b ==> now <= (i + 1) * b
    ensures i <= 10 ==> i * b <= 10 * b
  {
  }

  class ManualCubeSolver {
    /** `initial_state`: the caller's own state object, never written here. */
    const initial: CubeState
    /** `working_state`: a private copy the scripted moves are played on. */
    var working: CubeState
    /** `solution_steps`: every move appended so far. */
    var solutionSteps: seq<string>
    /** `moves_by_step`: the solution so far after each step, by step name. */
    var movesByStep: Bridge.StepTable

    /** The working copy is never the caller's state. */
    predicate Valid()
      reads this
    {
      working != initial
    }

    constructor (cubeState: CubeState)
      ensures Valid() && initial == cubeState && fresh(working) && working.faces == cubeState.faces
      ensures solutionSteps == [] && movesByStep == []
    {
      initial := cubeState;
      var copy := cubeState.Copy();
      working := copy;
      solutionSteps := [];
      movesByStep := [];
    }

    /** `_add_move`: records the move, then plays it on the working copy; a rejected move is still
        recorded and its error propagates. */
    method AddMove(move: string) returns (r: Outcome<MoveError>)
      requires Valid()
      modifies this, working
      ensures Valid() && working == old(working) && movesByStep == old(movesByStep)
      ensures solutionSteps == old(solutionSteps) + [move]
      ensures r.Pass? ==> ApplyMove(old(working.faces), move) == Ok(working.faces)
      ensures r.Fail? ==> ApplyMove(old(working.faces), move) == Err(r.error) && working.faces == old(working.faces)
      ensures initial.faces == old(initial.faces)
    {
      solutionSteps := solutionSteps + [move];
      r := working.Move(move);
    }

    /** `for move in algorithm: self._add_move(move)` for a list every move of which is accepted. */
    method AppendAlgorithm(alg: seq<string>)
      requires Valid() && Accepted(alg)
      modifies this, working
      ensures Valid() && working == old(working) && movesByStep == old(movesByStep)
      ensures solutionSteps == old(solutionSteps) + alg
      ensures ApplyMoves(old(working.faces), alg) == Ok(working.faces)
      ensures initial.faces == old(initial.faces)
    {
      assert alg[..0] == [];
      for i := 0 to |alg|
        invariant Valid() && working == old(working) && movesByStep == old(movesByStep)
        invariant solutionSteps == old(solutionSteps) + alg[..i]
        invariant ApplyMoves(old(working.faces), alg[..i]) == Ok(working.faces)
        invariant initial.faces == old(initial.faces)
      {
        ghost var before := working.faces;
        var outcome := AddMove(alg[i]);
        ReplaySnoc(old(working.faces), alg, i, before);
        SliceSnoc(old(solutionSteps), alg, i);
      }
      assert alg[..|alg|] == alg;
    }

    /** `_solve_top_edge_beginner_method` and `_insert_edge_beginner_method`: turn U, at most four
        times, until the edge matches its side centre, then insert it. */
    method SolveTopEdge(row: Index, col: Index)
      requires Valid()
      modifies this, working
      ensures Valid() && working == old(working) && movesByStep == old(movesByStep)
      ensures Extends(old(solutionSteps), old(working.faces), solutionSteps, working.faces)
      ensures |solutionSteps| <= |old(solutionSteps)| + 10
      ensures initial.faces == old(initial.faces)
    {
      ExtendsRefl(solutionSteps, working.faces);
      var target := AlignmentFace(row, col);
      if target.None? {
        return;
      }
      if !AlignedWithSideCenter(working.faces, row, col, target.value) {
        for u := 0 to 4
          invariant Valid() && working == old(working) && movesByStep == old(movesByStep)
          invariant Extends(old(solutionSteps), old(working.faces), solutionSteps, working.faces)
          invariant |solutionSteps| <= |old(solutionSteps)| + u
          invariant initial.faces == old(initial.faces)
        {
          ghost var (steps1, c1) := (solutionSteps, working.faces);
          AppendAlgorithm(["U"]);
          ExtendsTrans(old(solutionSteps), old(working.faces), steps1, c1, solutionSteps, working.faces);
          if AlignedWithSideCenter(working.faces, row, col, target.value) {
            break;
          }
        }
      }
      ghost var (steps2, c2) := (solutionSteps, working.faces);
      AlgorithmsAccepted();
      AppendAlgorithm(FrontAlgorithm);
      ExtendsTrans(old(solutionSteps), old(working.faces), steps2, c2, solutionSteps, working.faces);
    }

    /** Appends one scripted list, as an extension of the solution. */
    method PlayAlgorithm(alg: seq<string>)
      requires Valid() && Accepted(alg)
      modifies this, working
      ensures Valid() && working == old(working) && movesByStep == old(movesByStep)
      ensures Extends(old(solutionSteps), old(working.faces), solutionSteps, working.faces)
      ensures solutionSteps == old(solutionSteps) + alg
      ensures initial.faces == old(initial.faces)
    {
      AppendAlgorithm(alg);
      assert solutionSteps[|old(solutionSteps)|..] == alg;
    }

    /** `_solve_white_edge_beginner_method`: nothing for an UP edge already aligned; otherwise the
        move list for where the edge is. */
    method SolveWhiteEdge(edge: Edge)
      requires Valid()
      modifies this, working
      ensures Valid() && working == old(working) && movesByStep == old(movesByStep)
      ensures Extends(old(solutionSteps), old(working.faces), solutionSteps, working.faces)
      ensures |solutionSteps| <= |old(solutionSteps)| + 10
      ensures edge.face == Up && Aligned(old(working.faces), edge.row, edge.col) ==> solutionSteps == old(solutionSteps)
      ensures initial.faces == old(initial.faces)
    {
      ExtendsRefl(solutionSteps, working.faces);
      if edge.face == Up && Aligned(working.faces, edge.row, edge.col) {
        return;
      }
      AlgorithmsAccepted();
      var location := Locate(working.faces, edge.face, edge.row, edge.col);
      if location == TopMisaligned {
        SolveTopEdge(edge.row, edge.col);
      } else if location == MiddleLayer {
        PlayAlgorithm(MiddleEdgeAlgorithm(edge.face));
      } else if location == BottomFlipped {
        PlayAlgorithm(if edge.face == Down then BottomAlgorithm else FrontAlgorithm);
      } else {
        PlayAlgorithm(FrontAlgorithm);
      }
    }

    /** `_find_white_edges`. */
    method FindWhiteEdges() returns (edges: seq<Edge>)
      ensures edges == WhiteEdges(working.faces)
    {
      edges := [];
      for i := 0 to 6
        invariant edges == WhiteEdgesIn(working.faces, i)
      {
        var face := AllFaces[i];
        var grid := working.GetFace(face);
        for j := 0 to 4
          invariant edges == WhiteEdgesIn(working.faces, i) + FaceWhiteEdges(working.faces, face, j)
        {
          var (row, col) := EdgePositions[j];
          if grid[row][col] == Some(White) {
            edges := edges + [Edge(face, row, col)];
          }
        }
      }
    }

    /** `_is_white_cross_solved`. */
    method IsWhiteCrossSolved() returns (b: bool)
      ensures b == CrossSolved(working.faces)
    {
      var up := working.GetFace(Up);
      if up[1][1] != Some(White) {
        return false;
      }
      for j := 0 to 4
        invariant forall i :: 0 <= i < j ==> Aligned(working.faces, EdgePositions[i].0, EdgePositions[i].1)
      {
        var (row, col) := EdgePositions[j];
        if !Aligned(working.faces, row, col) {
          return false;
        }
      }
      return true;
    }

    /** One pass of the `for` loop in `_solve_white_cross`: each edge in turn, stopping as soon as
        the cross is solved; each edge adds at most ten moves. */
    method SolveEdgesOnce(edges: seq<Edge>)
      requires Valid()
      modifies this, working
      ensures Valid() && working == old(working) && movesByStep == old(movesByStep)
      ensures Extends(old(solutionSteps), old(working.faces), solutionSteps, working.faces)
      ensures |solutionSteps| <= |old(solutionSteps)| + 10 * |edges|
      ensures initial.faces == old(initial.faces)
    {
      ExtendsRefl(solutionSteps, working.faces);
      for i := 0 to |edges|
        invariant Valid() && working == old(working) && movesByStep == old(movesByStep)
        invariant Extends(old(solutionSteps), old(working.faces), solutionSteps, working.faces)
        invariant |solutionSteps| <= |old(solutionSteps)| + 10 * i
        invariant initial.faces == old(initial.faces)
      {
        ghost var (steps1, c1) := (solutionSteps, working.faces);
        SolveWhiteEdge(edges[i]);
        ExtendsTrans(old(solutionSteps), old(working.faces), steps1, c1, solutionSteps, working.faces);
        var solved := IsWhiteCrossSolved();
        if solved {
          break;
        }
      }
    }

    /** `_solve_white_cross`: nothing when the cross is already there; otherwise at most ten passes
        over the white edges found at the start, each stopping early once the cross is solved. Each
        edge adds at most ten moves. Returns the whole solution so far, joined by spaces. */
    method SolveWhiteCross() returns (s: string)
      requires Valid()
      modifies this, working
      ensures Valid() && working == old(working) && movesByStep == old(movesByStep)
      ensures Extends(old(solutionSteps), old(working.faces), solutionSteps, working.faces)
      ensures CrossSolved(old(working.faces)) ==> solutionSteps == old(solutionSteps)
      ensures |solutionSteps| <= |old(solutionSteps)| + 100 * |WhiteEdges(old(working.faces))|
      ensures s == Join(" ", solutionSteps)
      ensures initial.faces == old(initial.faces)
    {
      ExtendsRefl(solutionSteps, working.faces);
      var edges := FindWhiteEdges();
      var solved := IsWhiteCrossSolved();
      if solved {
        return Join(" ", solutionSteps);
      }
      ghost var bound := 10 * |edges|;
      var iteration := 0;
      while !solved && iteration < 10
        invariant 0 <= iteration <= 10
        invariant Valid() && working == old(working) && movesByStep == old(movesByStep)
        invariant Extends(old(solutionSteps), old(working.faces), solutionSteps, working.faces)
        invariant |solutionSteps| <= |old(solutionSteps)| + iteration * bound
        invariant initial.faces == old(initial.faces)
      {
        iteration := iteration + 1;
        ghost var (steps1, c1) := (solutionSteps, working.faces);
        SolveEdgesOnce(edges);
        ExtendsTrans(old(solutionSteps), old(working.faces), steps1, c1, solutionSteps, working.faces);
        Budget(iteration - 1, bound, |steps1| - |old(solutionSteps)|, |solutionSteps| - |old(solutionSteps)|);
        solved := IsWhiteCrossSolved();
      }
      Budget(iteration, bound, |solutionSteps| - |old(solutionSteps)|, |solutionSteps| - |old(solutionSteps)|);
      return Join(" ", solutionSteps);
    }

    /** One of the fixed steps (`_solve_white_corners` to `_pll_step_2`): appends its list and returns
        the whole solution so far, joined by spaces. */
    method FixedStep(alg: seq<string>) returns (s: string)
      requires Valid() && Accepted(alg)
      modifies this, working
      ensures Valid() && working == old(working) && movesByStep == old(movesByStep)
      ensures Extends(old(solutionSteps), old(working.faces), solutionSteps, working.faces)
      ensures solutionSteps == old(solutionSteps) + alg
      ensures s == Join(" ", solutionSteps)
      ensures initial.faces == old(initial.faces)
    {
      PlayAlgorithm(alg);
      return Join(" ", solutionSteps);
    }

    /** `solve`: the cross, then the six fixed steps, recording the solution so far under each step's
        name; `_optimize_sequence` returns its argument, so the result is the whole solution joined
        by spaces. The working copy is then reset to a fresh copy of the initial state. */
    method Solve() returns (solution: string, table: Bridge.StepTable)
      requires Valid()
      modifies this, working
      ensures Valid() && fresh(working) && working.faces == initial.faces
      ensures old(solutionSteps) <= solutionSteps && Accepted(solutionSteps[|old(solutionSteps)|..])
      ensures solution == Join(" ", solutionSteps) && table == movesByStep
      ensures old(movesByStep) == [] ==> PrefixChain(movesByStep, solution)
    {
      ghost var s0 := solutionSteps;
      AlgorithmsAccepted();
      CrossStep();
      RecordStep(1, RightAlgorithm, s0);
      RecordStep(2, MiddleLayerAlgorithm, s0);
      RecordStep(3, FrontAlgorithm, s0);
      RecordStep(4, OllTwoAlgorithm, s0);
      RecordStep(5, PllOneAlgorithm, s0);
      RecordStep(6, PllTwoAlgorithm, s0);
      solution := OptimizeSequence(Join(" ", solutionSteps));
      working := initial.Copy();
      table := movesByStep;
    }

    /** Step 1 of `solve`: solve the cross, then store the solution so far under the step's name. */
    method CrossStep()
      requires Valid()
      modifies this, working
      ensures Valid() && working == old(working)
      ensures old(solutionSteps) <= solutionSteps && Accepted(solutionSteps[|old(solutionSteps)|..])
      ensures old(movesByStep) == [] ==> Recorded(movesByStep, 1, solutionSteps)
      ensures initial.faces == old(initial.faces)
    {
      var step1 := SolveWhiteCross();
      ReplayedAccepted(old(working.faces), solutionSteps[|old(solutionSteps)|..]);
      PutExtendsChain(movesByStep, 0, step1);
      movesByStep := Put(movesByStep, Bridge.StepNames[0], step1);
    }

    /** Steps 2 to 7 of `solve`: play the step's list, then store the solution so far under the
        step's name. */
    method RecordStep(k: nat, alg: seq<string>, ghost s0: seq<string>)
      requires Valid() && Accepted(alg) && k < 7
      modifies this, working
      ensures Valid() && working == old(working)
      ensures solutionSteps == old(solutionSteps) + alg
      ensures Recorded(old(movesByStep), k, old(solutionSteps)) ==> Recorded(movesByStep, k + 1, solutionSteps)
      ensures s0 <= old(solutionSteps) && Accepted(old(solutionSteps)[|s0|..]) ==>
                s0 <= solutionSteps && Accepted(solutionSteps[|s0|..])
      ensures initial.faces == old(initial.faces)
    {
      if s0 <= solutionSteps && Accepted(solutionSteps[|s0|..]) {
        AcceptedExtends(s0, solutionSteps, alg);
      }
      var step := FixedStep(alg);
      JoinPrefix(old(solutionSteps), alg);
      PutExtendsChain(movesByStep, k, step);
      movesByStep := Put(movesByStep, Bridge.StepNames[k], step);
    }

    /** `_optimize_sequence`: returns the sequence unchanged. */
    static function OptimizeSequence(sequence: string): (r: string)
      ensures r == sequence
    {
      sequence
    }

    /** `get_state_at_step`: a fresh state; for a step in range, the initial state after the first
        `step + 1` moves, and otherwise a copy of the working state. */
    method GetStateAtStep(step: int) returns (r: Result<CubeState, MoveError>)
      requires Valid()
      ensures r.Ok? ==> fresh(r.value) && ManualStepState(initial.faces, working.faces, solutionSteps, step) == Ok(r.value.faces)
      ensures r.Err? ==> ManualStepState(initial.faces, working.faces, solutionSteps, step) == Err(r.error)
    {
      if step < 0 || step >= |solutionSteps| {
        var copy := working.Copy();
        return Ok(copy);
      }
      var state := initial.Copy();
      assert solutionSteps[..0] == [];
      for i := 0 to step + 1
        invariant fresh(state)
        invariant ApplyMoves(initial.faces, solutionSteps[..i]) == Ok(state.faces)
      {
        ghost var before := state.faces;
        var outcome := state.Move(solutionSteps[i]);
        ReplaySnoc(initial.faces, solutionSteps, i, before);
        if outcome.Fail? {
          ReplayStopsAtError(initial.faces, solutionSteps, i + 1, step + 1);
          return Err(outcome.error);
        }
      }
      return Ok(state);
    }
  }
}
