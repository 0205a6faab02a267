/** The logic of `ui/app.py` that is not widget code: the colour a clicked cell takes, the face a
    capture moves on to, the scramble, the step counter and the lookup of the section and move a
    step belongs to. */
module App {
  import opened Outcomes
  import opened Constants
  import opened Facelets
  import opened Execution
  import opened CubeQueries
  import opened State
  import opened Text
  import Bridge
  import ManualSolver

  // ---------------------------------------------------------------------------------------------
  // Clicking a cell
  // ---------------------------------------------------------------------------------------------

  /** The cycle `_on_cell_click` walks through. */
  const ColorOrder: seq<Color> := [White, Yellow, Red, Orange, Blue, Green]

  /** `color_order.index(color)`. */
  function ColorIndex(color: Color): (i: nat)
    requires color != Unknown
    ensures i < 6 && ColorOrder[i] == color
  {
    match color
    case White => 0
    case Yellow => 1
    case Red => 2
    case Orange => 3
    case Blue => 4
    case Green => 5
  }

  /** The colour a clicked cell takes: the next one in the cycle, wrapping from GREEN to WHITE; an
      unset or UNKNOWN cell becomes WHITE. */
  function NextColor(cell: Cell): (r: Cell)
  {
    if cell.Some? && cell.value in ColorOrder then Some(ColorOrder[(ColorIndex(cell.value) + 1) % 6])
    else Some(White)
  }

  /** The cycle spelled out: WHITE, YELLOW, RED, ORANGE, BLUE, GREEN and back to WHITE; anything
      else becomes WHITE, and the result is always one of the six colours. */
  lemma NextColorCycle(cell: Cell)
    ensures NextColor(Some(White)) == Some(Yellow) && NextColor(Some(Yellow)) == Some(Red)
    ensures NextColor(Some(Red)) == Some(Orange) && NextColor(Some(Orange)) == Some(Blue)
    ensures NextColor(Some(Blue)) == Some(Green) && NextColor(Some(Green)) == Some(White)
    ensures cell.None? || cell == Some(Unknown) ==> NextColor(cell) == Some(White)
    ensures NextColor(cell).Some? && NextColor(cell).value in ColorOrder
  {
    assert Unknown !in ColorOrder;
  }

  /** `n` clicks on one cell. */
  function Clicks(cell: Cell, n: nat): Cell
  {
    if n == 0 then cell else NextColor(Clicks(cell, n - 1))
  }

  /** Six clicks bring a coloured cell back to its colour. */
  lemma SixClicksRestore(cell: Cell)
    requires cell.Some? && cell.value != Unknown
    ensures Clicks(cell, 6) == cell
  {
    NextColorCycle(cell);
    assert Clicks(cell, 1) == NextColor(cell);
    match cell.value
    case White =>
    case Yellow =>
    case Red =>
    case Orange =>
    case Blue =>
    case Green =>
  }

  // ---------------------------------------------------------------------------------------------
  // Capturing faces
  // ---------------------------------------------------------------------------------------------

  /** `FaceIndex` undoes indexing into `AllFaces`. */
  lemma FaceIndexOfPosition(i: nat)
    requires i < 6
    ensures FaceIndex(AllFaces[i]) == i
  {
    if i == 0 {} else if i == 1 {} else if i == 2 {} else if i == 3 {} else if i == 4 {} else {}
  }

  /** Faces with the same index are the same face. */
  lemma FaceIndexInjective(f: Face, g: Face)
    requires FaceIndex(f) == FaceIndex(g)
    ensures f == g
  {
  }

  /** The face after `face` in `Face` order, wrapping from RIGHT to UP: its index is one more,
      modulo the number of faces. */
  function NextFace(face: Face): (r: Face)
    ensures FaceIndex(r) == (FaceIndex(face) + 1) % 6
  {
    var i := (FaceIndex(face) + 1) % 6;
    FaceIndexOfPosition(i);
    AllFaces[i]
  }

  /** `n` successful captures starting from `face`. */
  function Advance(face: Face, n: nat): Face
  {
    if n == 0 then face else NextFace(Advance(face, n - 1))
  }

  /** Proof helper, not a model of the source: adding one after reducing modulo six is adding one
      before, the arithmetic step of `AdvanceSteps`. */
  lemma ModSixSuccessor(a: nat, b: nat)
    requires b == a + 1
    ensures (a % 6 + 1) % 6 == b % 6
  {
    var q, r := a / 6, a % 6;
    assert a == 6 * q + r;
    if r == 5 {
      assert a + 1 == 6 * (q + 1);
    } else {
      assert a + 1 == 6 * q + (r + 1);
    }
  }

  /** Proof helper, not a model of the source: `i % 6 == i` below six, as a lemma so that
      `CapturesVisitEveryFace` need not unfold `%` beside `Advance`. */
  lemma SmallModSix(i: nat)
    requires i < 6
    ensures i % 6 == i
  {
  }

  /** Proof helper, not a model of the source: six more leaves the remainder modulo six unchanged;
      kept apart for `CapturesCycle`, which is costly when the arithmetic sits beside `Advance`. */
  lemma ModSixPeriod(a: nat, n: nat, m: nat)
    requires m == n + 6
    ensures (a + m) % 6 == (a + n) % 6
  {
    assert a + m == (a + n) + 6;
  }

  /** After `n` captures the current face is `n` places further along `Face` order. */
  lemma {:induction false} AdvanceSteps(face: Face, n: nat)
    ensures FaceIndex(Advance(face, n)) == (FaceIndex(face) + n) % 6
  {
    var i := FaceIndex(face);
    if n > 0 {
      var before := Advance(face, n - 1);
      assert FaceIndex(Advance(face, n)) == (FaceIndex(before) + 1) % 6;
      AdvanceSteps(face, n - 1);
      ModSixSuccessor(i + (n - 1), i + n);
    } else {
      assert i % 6 == i;
    }
  }

  /** Starting at UP, the captures visit the faces in `Face` order. */
  lemma CapturesVisitEveryFace(n: nat)
    requires n < 6
    ensures Advance(Up, n) == AllFaces[n]
  {
    AdvanceSteps(Up, n);
    SmallModSix(n);
  }

  /** The capture order has period six: six more captures bring back the same face. */
  lemma CapturesCycle(face: Face, n: nat)
    ensures Advance(face, n + 6) == Advance(face, n)
  {
    var m := n + 6;
    var later, now := Advance(face, m), Advance(face, n);
    assert FaceIndex(later) == FaceIndex(now) by {
      AdvanceSteps(face, n);
      AdvanceSteps(face, m);
      ModSixPeriod(FaceIndex(face), n, m);
    }
    FaceIndexInjective(later, now);
  }

  // ---------------------------------------------------------------------------------------------
  // The scramble
  // ---------------------------------------------------------------------------------------------

  /** The fixed moves `_scramble_cube` plays on the solved state. */
  const ScrambleMoves: seq<string> := ["R", "U", "R'", "U'", "F", "F'"]

  /** Every scramble token is accepted. */
  lemma ScrambleAccepted()
    ensures AllAccepted(ScrambleMoves)
  {
    AllAcceptedEvery(ScrambleMoves);
    assert "FRULDBMESm"[1] == 'R' && "FRULDBMESm"[2] == 'U' && "FRULDBMESm"[0] == 'F';
    assert forall i :: 0 <= i < 6 ==> ScrambleMoves[i][0] in {'R', 'U', 'F'};
  }

  /** A quarter turn of a face followed by its prime turn, appended to accepted moves, changes
      nothing. */
  lemma ClosingTurnCancels(c: Cube, xs: seq<string>, f: Face)
    requires AllAccepted(xs)
    ensures ApplyMoves(c, xs + [[FaceLetter(f)], [FaceLetter(f), '\'']]) == ApplyMoves(c, xs)
  {
    var d := ApplyMoves(c, xs).value;
    OuterTurnThenPrime(d, f);
    ApplyMovesConcat(c, xs, [[FaceLetter(f)], [FaceLetter(f), '\'']]);
  }

  /** On any state the scramble succeeds, and its closing F F' cancels: it amounts to its first four
      moves, R U R' U'. */
  lemma ScrambleMeaning(c: Cube)
    ensures ApplyMoves(c, ScrambleMoves).Ok?
    ensures ApplyMoves(c, ScrambleMoves) == ApplyMoves(c, ScrambleMoves[..4])
  {
    ScrambleAccepted();
    AllAcceptedEvery(ScrambleMoves);
    assert ScrambleMoves == ScrambleMoves[..4] + [[FaceLetter(Front)], [FaceLetter(Front), '\'']];
    AllAcceptedEvery(ScrambleMoves[..4]);
    ClosingTurnCancels(c, ScrambleMoves[..4], Front);
  }

  // ---------------------------------------------------------------------------------------------
  // Stepping through a solution
  // ---------------------------------------------------------------------------------------------

  /** `_next_step`'s counter: one further while below the solver's move count. */
  function NextStepValue(step: int, count: nat): int
  {
    if step < count then step + 1 else step
  }

  /** `_previous_step`'s counter: one back while above 0. */
  function PreviousStepValue(step: int): int
  {
    if step > 0 then step - 1 else step
  }

  /** Both keep the counter between -1 (nothing shown yet) and the move count; a step forward from
      inside the range is undone by a step back, and a step back by a step forward. */
  lemma StepBounds(step: int, count: nat)
    requires -1 <= step <= count
    ensures -1 <= NextStepValue(step, count) <= count
    ensures -1 <= PreviousStepValue(step) <= count
    ensures 0 <= step < count ==> PreviousStepValue(NextStepValue(step, count)) == step
    ensures 0 < step ==> NextStepValue(PreviousStepValue(step), count) == step
    ensures NextStepValue(step, count) == step <==> step == count
    ensures PreviousStepValue(step) == step <==> step <= 0
  {
  }

  /** `_get_current_section_and_move` for a table: the section holding the `step`-th navigation move
      and that move; "Complete" past the last move. */
  function SectionAndMove(t: Bridge.StepTable, step: nat): (string, string)
    decreases |t|
  {
    if t == [] then ("Complete", "Unknown")
    else
      var ms := Bridge.Tokens(t[0].1);
      if step < |ms| then (t[0].0, ms[step]) else SectionAndMove(t[1..], step - |ms|)
  }

  /** The lookup from entry `i` on either stops at entry `i` or goes on from entry `i + 1`. */
  lemma SectionAndMoveAt(t: Bridge.StepTable, i: nat, x: nat)
    requires i < |t|
    ensures var ms := Bridge.Tokens(t[i].1);
            SectionAndMove(t[i..], x) ==
            if x < |ms| then (t[i].0, ms[x]) else SectionAndMove(t[i + 1..], x - |ms|)
  {
    assert t[i..][0] == t[i] && t[i..][1..] == t[i + 1..];
  }

  /** Navigation over two tables side by side is the first table's moves, then the second's. */
  lemma {:induction false} NavigationConcat(a: Bridge.StepTable, b: Bridge.StepTable)
    ensures Bridge.NavigationMoves(a + b) == Bridge.NavigationMoves(a) + Bridge.NavigationMoves(b)
    decreases |b|
  {
    if b == [] {
      assert a + b == a;
    } else {
      var init, last := b[..|b| - 1], Bridge.Tokens(b[|b| - 1].1);
      assert Bridge.NavigationMoves(a + b) == Bridge.NavigationMoves(a + init) + last by {
        assert (a + b)[..|a + b| - 1] == a + init;
        assert (a + b)[|a + b| - 1] == b[|b| - 1];
      }
      assert Bridge.NavigationMoves(a + init) == Bridge.NavigationMoves(a) + Bridge.NavigationMoves(init) by {
        NavigationConcat(a, init);
      }
      ConcatAssociates(Bridge.NavigationMoves(a), Bridge.NavigationMoves(init), last);
    }
  }

  /** Proof helper, not a model of the source: associativity of `+`, as a lemma over plain
      sequences. `NavigationConcat` runs out of resource when it states this about its unfolded
      navigation terms directly. */
  lemma ConcatAssociates<T>(a: seq<T>, b: seq<T>, c: seq<T>)
    ensures (a + b) + c == a + (b + c)
  {
  }

  /** Navigation over a non-empty table is the first entry's tokens, then the rest's. */
  lemma NavigationFirst(t: Bridge.StepTable)
    requires t != []
    ensures Bridge.NavigationMoves(t) == Bridge.Tokens(t[0].1) + Bridge.NavigationMoves(t[1..])
  {
    assert Bridge.NavigationMoves([t[0]]) == Bridge.Tokens(t[0].1) by {
      assert [t[0]][..0] == [];
    }
    assert t == [t[0]] + t[1..];
    NavigationConcat([t[0]], t[1..]);
  }

  /** From the number of navigation moves on, the lookup reports ("Complete", "Unknown"). */
  lemma {:induction false} LookupPastEnd(t: Bridge.StepTable, step: nat)
    requires step >= |Bridge.NavigationMoves(t)|
    ensures SectionAndMove(t, step) == ("Complete", "Unknown")
    decreases |t|
  {
    if t != [] {
      var ms := Bridge.Tokens(t[0].1);
      assert Bridge.NavigationMoves(t) == ms + Bridge.NavigationMoves(t[1..]) by {
        NavigationFirst(t);
      }
      assert step >= |ms| && step - |ms| >= |Bridge.NavigationMoves(t[1..])|;
      assert SectionAndMove(t, step) == SectionAndMove(t[1..], step - |ms|);
      LookupPastEnd(t[1..], step - |ms|);
    }
  }

  /** Below the number of navigation moves, the lookup returns the `step`-th navigation move. */
  lemma {:induction false} LookupMove(t: Bridge.StepTable, step: nat)
    requires step < |Bridge.NavigationMoves(t)|
    ensures SectionAndMove(t, step).1 == Bridge.NavigationMoves(t)[step]
    decreases |t|
  {
    var ms := Bridge.Tokens(t[0].1);
    assert Bridge.NavigationMoves(t) == ms + Bridge.NavigationMoves(t[1..]) by {
      NavigationFirst(t);
    }
    if step < |ms| {
      assert SectionAndMove(t, step).1 == ms[step];
    } else {
      assert SectionAndMove(t, step) == SectionAndMove(t[1..], step - |ms|);
      LookupMove(t[1..], step - |ms|);
    }
  }

  /** The position of the entry the lookup stops at. */
  function EntryAt(t: Bridge.StepTable, step: nat): nat
    decreases |t|
  {
    if t == [] then 0
    else
      var ms := Bridge.Tokens(t[0].1);
      if step < |ms| then 0 else 1 + EntryAt(t[1..], step - |ms|)
  }

  /** Below the number of navigation moves, the lookup names an entry of the table. */
  lemma {:induction false} LookupSection(t: Bridge.StepTable, step: nat)
    requires step < |Bridge.NavigationMoves(t)|
    ensures EntryAt(t, step) < |t| && SectionAndMove(t, step).0 == t[EntryAt(t, step)].0
    decreases |t|
  {
    var ms := Bridge.Tokens(t[0].1);
    assert Bridge.NavigationMoves(t) == ms + Bridge.NavigationMoves(t[1..]) by {
      NavigationFirst(t);
    }
    if step >= |ms| {
      var x := step - |ms|;
      LookupPastFirst(t, step);
      LookupSection(t[1..], x);
      assert t[1..][EntryAt(t[1..], x)] == t[EntryAt(t, step)];
    }
  }

  /** Entry `e` holds the `step`-th navigation move: the navigation moves of the entries before it
      number at most `step`, and with it more than `step`. */
  predicate HoldsMove(t: Bridge.StepTable, step: nat, e: nat)
  {
    e < |t| && |Bridge.NavigationMoves(t[..e])| <= step < |Bridge.NavigationMoves(t[..e + 1])|
  }

  /** Below the number of navigation moves, the entry the lookup names holds the `step`-th
      navigation move. */
  lemma {:induction false} LookupSectionBounds(t: Bridge.StepTable, step: nat)
    requires step < |Bridge.NavigationMoves(t)|
    ensures HoldsMove(t, step, EntryAt(t, step))
    decreases |t|
  {
    NavigationFirst(t);
    if step < |Bridge.Tokens(t[0].1)| {
      BoundsAtFirst(t, step);
    } else {
      LookupSectionBounds(t[1..], step - |Bridge.Tokens(t[0].1)|);
      BoundsPastFirst(t, step);
    }
  }

  /** Within the first entry's tokens, the lookup names the first entry. */
  lemma BoundsAtFirst(t: Bridge.StepTable, step: nat)
    requires t != [] && step < |Bridge.Tokens(t[0].1)|
    ensures EntryAt(t, step) == 0 && HoldsMove(t, step, EntryAt(t, step))
  {
    assert Bridge.NavigationMoves(t[..0]) == [] by {
      assert t[..0] == [];
    }
    assert Bridge.NavigationMoves(t[..1]) == Bridge.Tokens(t[0].1) by {
      NavigationPrefix(t, 0);
      assert t[1..][..0] == [];
    }
  }

  /** Bounds that hold in the rest of the table hold one entry further on in the whole table. */
  lemma BoundsPastFirst(t: Bridge.StepTable, step: nat)
    requires t != [] && step >= |Bridge.Tokens(t[0].1)|
    requires HoldsMove(t[1..], step - |Bridge.Tokens(t[0].1)|, EntryAt(t[1..], step - |Bridge.Tokens(t[0].1)|))
    ensures HoldsMove(t, step, EntryAt(t, step))
  {
    var ms := Bridge.Tokens(t[0].1);
    var k := EntryAt(t[1..], step - |ms|);
    assert k + 1 < |t|;
    assert EntryAt(t, step) == k + 1 by {
      LookupPastFirst(t, step);
    }
    assert Bridge.NavigationMoves(t[..k + 1]) == ms + Bridge.NavigationMoves(t[1..][..k]) by {
      NavigationPrefix(t, k);
    }
    assert Bridge.NavigationMoves(t[..k + 1 + 1]) == ms + Bridge.NavigationMoves(t[1..][..k + 1]) by {
      NavigationPrefix(t, k + 1);
    }
  }

  /** Past the first entry's tokens, the lookup goes on in the rest of the table. */
  lemma LookupPastFirst(t: Bridge.StepTable, step: nat)
    requires t != [] && step >= |Bridge.Tokens(t[0].1)|
    ensures var x := step - |Bridge.Tokens(t[0].1)|;
            EntryAt(t, step) == EntryAt(t[1..], x) + 1 && SectionAndMove(t, step) == SectionAndMove(t[1..], x)
  {
  }

  /** Navigation over the first `i + 1` entries is the first entry's tokens, then the next `i`'s. */
  lemma NavigationPrefix(t: Bridge.StepTable, i: nat)
    requires i < |t|
    ensures Bridge.NavigationMoves(t[..i + 1]) == Bridge.Tokens(t[0].1) + Bridge.NavigationMoves(t[1..][..i])
  {
    NavigationFirst(t[..i + 1]);
    assert t[..i + 1][0] == t[0] && t[..i + 1][1..] == t[1..][..i];
  }

  /** For the table `solve_with_rubiks_cube` stores, the lookup walks the whole solution: the move for
      each step is that step's token of the solution. */
  lemma LookupWalksSolution(solution: string, step: nat)
    requires step < |Split(solution)|
    ensures SectionAndMove(Bridge.ParseSolutionIntoSteps(solution), step).1 == Split(solution)[step]
  {
    Bridge.ParsedStepsReplayWholeSolution(solution);
    LookupMove(Bridge.ParseSolutionIntoSteps(solution), step);
  }

  // ---------------------------------------------------------------------------------------------
  // The solver behind the navigation buttons
  // ---------------------------------------------------------------------------------------------

  /** `self.solver`: none yet, the bridge after a solve, or a manual solver holding entered moves. */
  datatype Solver =
    | NoSolver
    | BridgeSolver(bridge: Bridge.RubiksCubeBridge)
    | ManualSolution(manual: ManualSolver.ManualCubeSolver)

  /** Why showing a step failed: there is no solver to ask (the buttons never ask then), or the
      solver's `get_state_at_step` raised. */
  datatype NavigationError =
    | NoSolverObject
    | BridgeFailed(bridgeError: Bridge.BridgeError)
    | MoveFailed(moveError: MoveError)

  /** The solver objects whose fields the navigation reads. */
  function SolverObjects(s: Solver): set<object>
    reads if s.BridgeSolver? then {s.bridge} else if s.ManualSolution? then {s.manual} else {}
  {
    match s
    case NoSolver => {}
    case BridgeSolver(b) => if b.original == null then {b} else {b, b.original}
    case ManualSolution(m) => {m, m.initial, m.working}
  }

  /** The number of moves the step counter may run up to: `len(solution_moves)` for a bridge that has
      solved; for a bridge that never solved, which has no `solution_moves`, the length of its
      `solution_steps` property, which is then empty; `len(solution_steps)` for a manual solver. */
  function MoveCount(s: Solver): (r: Option<nat>)
    reads SolverObjects(s)
    ensures r.None? <==> s.NoSolver?
    ensures s.BridgeSolver? ==> r == Some(|s.bridge.SolutionSteps()|)
    ensures s.ManualSolution? ==> r == Some(|s.manual.solutionSteps|)
  {
    match s
    case NoSolver => None
    case BridgeSolver(b) => if b.solutionMoves.Some? then Some(|b.solutionMoves.value|) else Some(0)
    case ManualSolution(m) => Some(|m.solutionSteps|)
  }

  /** `moves_by_step` as `_get_current_section_and_move` sees it: absent without a solver. */
  function SolverTable(s: Solver): Option<Bridge.StepTable>
    reads SolverObjects(s)
  {
    match s
    case NoSolver => None
    case BridgeSolver(b) => b.movesByStep
    case ManualSolution(m) => Some(m.movesByStep)
  }

  /** What the solver's `get_state_at_step` gives for a step: the bridge replays a prefix of its stored
      moves on its stored original, the manual solver a prefix of its steps on its initial state. */
  function Shown(s: Solver, step: int): Result<Cube, NavigationError>
    reads SolverObjects(s)
  {
    match s
    case NoSolver => Err(NoSolverObject)
    case BridgeSolver(b) =>
      if b.solutionMoves.None? || b.original == null then Err(BridgeFailed(Bridge.NoSolution))
      else (match Bridge.StepState(b.original.faces, b.solutionMoves.value, step)
            case Ok(d) => Ok(d)
            case Err(e) => Err(BridgeFailed(e)))
    case ManualSolution(m) =>
      match ManualSolver.ManualStepState(m.initial.faces, m.working.faces, m.solutionSteps, step)
      case Ok(d) => Ok(d)
      case Err(e) => Err(MoveFailed(e))
  }

  /** After a solve whose moves are all accepted, every step the counter can reach shows the original
      after exactly that many moves. */
  lemma BridgeStepsShowPrefixes(s: Solver, step: int)
    requires s.BridgeSolver? && s.bridge.solutionMoves.Some? && s.bridge.original != null
    requires AllAccepted(s.bridge.solutionMoves.value)
    requires 0 <= step <= |s.bridge.solutionMoves.value|
    ensures ApplyMoves(s.bridge.original.faces, s.bridge.solutionMoves.value[..step]).Ok?
    ensures Shown(s, step) == Ok(ApplyMoves(s.bridge.original.faces, s.bridge.solutionMoves.value[..step]).value)
  {
    var moves := s.bridge.solutionMoves.value;
    Bridge.StepStateAccepted(s.bridge.original.faces, moves, step, White);
    AllAcceptedEvery(moves);
    AllAcceptedEvery(moves[..step]);
  }

  /** A manual solver loaded with entered moves has never played them, so its working copy is its
      initial state: step `k` below the number of moves shows the initial state after `k + 1` moves,
      and the last step the counter reaches shows the initial state itself. */
  lemma LoadedManualSolverShows(s: Solver, step: int)
    requires s.ManualSolution? && s.manual.working.faces == s.manual.initial.faces
    ensures 0 <= step < |s.manual.solutionSteps| ==>
              Shown(s, step) == (match ApplyMoves(s.manual.initial.faces, s.manual.solutionSteps[..step + 1])
                                 case Ok(d) => Ok(d)
                                 case Err(e) => Err(MoveFailed(e)))
    ensures step == |s.manual.solutionSteps| ==> Shown(s, step) == Ok(s.manual.initial.faces)
  {
    ManualSolver.LastStepShowsInitial(s.manual.initial.faces, s.manual.solutionSteps);
  }

  // ---------------------------------------------------------------------------------------------
  // The application's state
  // ---------------------------------------------------------------------------------------------

  class CubeApp {
    /** `self.cube_state`: the state on display. */
    var cubeState: CubeState
    /** `self.current_face`: the face the next capture fills. */
    var currentFace: Face
    /** `self.solution_step`: the step on display; -1 before any solution is loaded. */
    var solutionStep: int
    /** `self.solver`. */
    var solver: Solver

    constructor ()
      ensures fresh(cubeState) && cubeState.faces == UniformCube(None)
      ensures currentFace == Up && solutionStep == -1 && solver == NoSolver
    {
      cubeState := new CubeState();
      currentFace := Up;
      solutionStep := -1;
      solver := NoSolver;
    }

    /** `_on_cell_click`: the clicked sticker takes the next colour of the cycle; every other sticker
        keeps its value. */
    method OnCellClick(face: Face, row: Index, col: Index)
      modifies cubeState
      ensures cubeState.faces ==
                old(cubeState.faces).Set(Pos(face, row, col), NextColor(old(cubeState.faces).At(Pos(face, row, col))))
    {
      ghost var before := cubeState.faces;
      var colors := cubeState.GetFace(face);
      var current := colors[row][col];
      var updated := colors[row := colors[row][col := NextColor(current)]];
      cubeState.SetFace(face, updated);
      ghost var expected := before.With(face, updated);
      assert expected == before.Set(Pos(face, row, col), NextColor(current));
      forall h: Face
        ensures cubeState.faces.Get(h) == expected.Get(h)
      {
        assert cubeState.GetFace(h) == cubeState.faces.Get(h);
      }
      CubeByFaces(cubeState.faces, expected);
    }

    /** `_capture_face`, with the camera's answer as a parameter: a captured grid fills the current
        face, and the current face moves on to the next in `Face` order; no grid changes nothing. */
    method CaptureFace(colors: Option<Grid>)
      modifies this, cubeState
      ensures cubeState == old(cubeState) && solutionStep == old(solutionStep) && solver == old(solver)
      ensures colors.None? ==> cubeState.faces == old(cubeState.faces) && currentFace == old(currentFace)
      ensures colors.Some? ==> cubeState.GetFace(old(currentFace)) == colors.value && currentFace == NextFace(old(currentFace))
      ensures colors.Some? ==> forall f :: f != old(currentFace) ==> cubeState.GetFace(f) == old(cubeState.GetFace(f))
    {
      if colors.Some? {
        cubeState.SetFace(currentFace, colors.value);
        var currentIndex := FaceIndex(currentFace);
        var nextIndex := (currentIndex + 1) % |AllFaces|;
        currentFace := AllFaces[nextIndex];
      }
    }

    /** `_on_face_change`: the face picked in the selector becomes the current face. */
    method OnFaceChange(face: Face)
      modifies this
      ensures currentFace == face && cubeState == old(cubeState) && solutionStep == old(solutionStep) && solver == old(solver)
    {
      currentFace := face;
    }

    /** `_reset_face`: the current face is cleared and the other faces keep their stickers. */
    method ResetFace()
      modifies cubeState
      ensures cubeState.GetFace(currentFace) == UniformGrid(None)
      ensures forall f :: f != currentFace ==> cubeState.GetFace(f) == old(cubeState.GetFace(f))
    {
      cubeState.ResetFace(currentFace);
    }

    /** `_complete_cube`: the displayed state becomes the solved cube. */
    method CompleteCube()
      modifies cubeState
      ensures cubeState.faces == SolvedCube() && IsValid(cubeState.faces)
    {
      cubeState.SetSolved();
    }

    /** `_scramble_cube`: the solved state, then the fixed scramble moves one by one. */
    method ScrambleCube()
      modifies cubeState
      ensures ApplyMoves(SolvedCube(), ScrambleMoves) == Ok(cubeState.faces)
      ensures IsValid(cubeState.faces)
    {
      cubeState.SetSolved();
      ghost var start := cubeState.faces;
      ScrambleAccepted();
      AllAcceptedEvery(ScrambleMoves);
      assert ScrambleMoves[..0] == [];
      for i := 0 to |ScrambleMoves|
        invariant ApplyMoves(start, ScrambleMoves[..i]) == Ok(cubeState.faces)
        invariant IsValid(cubeState.faces)
      {
        ghost var before := cubeState.faces;
        var outcome := cubeState.Move(ScrambleMoves[i]);
        ReplaySnoc(start, ScrambleMoves, i, before);
      }
      assert ScrambleMoves[..|ScrambleMoves|] == ScrambleMoves;
    }

    /** The navigation buttons' fetch: asks the solver for the state at the current step and, when it
        answers, displays that state; an exception leaves the displayed state alone. */
    method ShowCurrentStep() returns (r: Outcome<NavigationError>)
      requires !solver.NoSolver?
      requires solver.ManualSolution? ==> solver.manual.Valid()
      modifies this
      ensures solver == old(solver) && solutionStep == old(solutionStep) && currentFace == old(currentFace)
      ensures r.Pass? ==> fresh(cubeState) && Shown(solver, solutionStep) == Ok(cubeState.faces)
      ensures r.Fail? ==> cubeState == old(cubeState) && Shown(solver, solutionStep) == Err(r.error)
    {
      r := Pass;
      match solver
      case BridgeSolver(b) =>
        var state := b.GetStateAtStep(solutionStep);
        if state.Err? {
          return Fail(BridgeFailed(state.error));
        }
        cubeState := state.value;
      case ManualSolution(m) =>
        var state := m.GetStateAtStep(solutionStep);
        if state.Err? {
          return Fail(MoveFailed(state.error));
        }
        cubeState := state.value;
    }

    /** `_next_step`: with a solver, one step further while below its number of moves, then the state
        at the new step is displayed. A bridge that never solved has no `solution_moves`, so the
        manual branch runs on its empty `solution_steps`: from step -1 the counter moves to 0 and
        `get_state_at_step` raises "No solution available"; from any later step nothing happens. */
    method NextStep() returns (r: Outcome<NavigationError>)
      requires solver.ManualSolution? ==> solver.manual.Valid()
      modifies this
      ensures solver == old(solver) && currentFace == old(currentFace)
      ensures solver.NoSolver? ==> solutionStep == old(solutionStep)
      ensures !solver.NoSolver? ==> solutionStep == NextStepValue(old(solutionStep), MoveCount(solver).value)
      ensures solutionStep == old(solutionStep) ==> r.Pass?
      ensures solutionStep == old(solutionStep) ==> cubeState == old(cubeState)
      ensures solutionStep != old(solutionStep) && r.Pass? ==>
                fresh(cubeState) && Shown(solver, solutionStep) == Ok(cubeState.faces)
      ensures solutionStep != old(solutionStep) && r.Fail? ==>
                cubeState == old(cubeState) && Shown(solver, solutionStep) == Err(r.error)
    {
      r := Pass;
      match solver
      case NoSolver =>
      case BridgeSolver(b) =>
        if solutionStep < |b.SolutionSteps()| {
          solutionStep := solutionStep + 1;
          r := ShowCurrentStep();
        }
      case ManualSolution(m) =>
        if solutionStep < |m.solutionSteps| {
          solutionStep := solutionStep + 1;
          r := ShowCurrentStep();
        }
    }

    /** `_previous_step`: with a solver, one step back while above 0, then the state at the new step
        is displayed. */
    method PreviousStep() returns (r: Outcome<NavigationError>)
      requires solver.ManualSolution? ==> solver.manual.Valid()
      modifies this
      ensures solver == old(solver) && currentFace == old(currentFace)
      ensures solver.NoSolver? ==> solutionStep == old(solutionStep)
      ensures !solver.NoSolver? ==> solutionStep == PreviousStepValue(old(solutionStep))
      ensures solutionStep == old(solutionStep) ==> r.Pass? && cubeState == old(cubeState)
      ensures solutionStep != old(solutionStep) && r.Pass? ==>
                fresh(cubeState) && Shown(solver, solutionStep) == Ok(cubeState.faces)
      ensures solutionStep != old(solutionStep) && r.Fail? ==>
                cubeState == old(cubeState) && Shown(solver, solutionStep) == Err(r.error)
    {
      r := Pass;
      if !solver.NoSolver? && solutionStep > 0 {
        solutionStep := solutionStep - 1;
        r := ShowCurrentStep();
      }
    }

    /** `_process_manual_solution`: entered moves replace the solver by a manual solver built on the
        displayed state, whose step list is set to the moves without playing them, and the counter
        restarts at 0; no moves change nothing. */
    method ProcessManualSolution(moves: seq<string>)
      modifies this
      ensures cubeState == old(cubeState) && currentFace == old(currentFace)
      ensures moves == [] ==> solver == old(solver) && solutionStep == old(solutionStep)
      ensures moves != [] ==> solver.ManualSolution? && fresh(solver.manual) && solver.manual.Valid()
      ensures moves != [] ==> solver.manual.initial == cubeState && solver.manual.working.faces == cubeState.faces
      ensures moves != [] ==> solver.manual.solutionSteps == moves && solutionStep == 0
    {
      if moves == [] {
        return;
      }
      var manual := new ManualSolver.ManualCubeSolver(cubeState);
      manual.solutionSteps := moves;
      solver := ManualSolution(manual);
      solutionStep := 0;
    }

    /** `_get_current_section_and_move`: ("Unknown", "Unknown") when the solver has no table;
        otherwise a walk over the entries with a running move count, skipping entries that are not a
        non-blank string. */
    method CurrentSectionAndMove(step: nat) returns (section: string, move: string)
      ensures SolverTable(solver).None? ==> (section, move) == ("Unknown", "Unknown")
      ensures SolverTable(solver).Some? ==> (section, move) == SectionAndMove(SolverTable(solver).value, step)
    {
      var table := match solver
        case NoSolver => None
        case BridgeSolver(b) => b.movesByStep
        case ManualSolution(m) => Some(m.movesByStep);
      if table.None? {
        return "Unknown", "Unknown";
      }
      var t := table.value;
      var moveCount := 0;
      for i := 0 to |t|
        invariant moveCount <= step
        invariant SectionAndMove(t, step) == SectionAndMove(t[i..], step - moveCount)
      {
        var (name, value) := t[i];
        ghost var x := step - moveCount;
        SectionAndMoveAt(t, i, x);
        if value.Moves? && !IsBlank(value.text) {
          var sectionMoves := Split(value.text);
          assert sectionMoves == Bridge.Tokens(t[i].1);
          if step < moveCount + |sectionMoves| {
            var index := step - moveCount;
            move := if index < |sectionMoves| then sectionMoves[index] else "Unknown";
            return name, move;
          }
          moveCount := moveCount + |sectionMoves|;
          assert SectionAndMove(t, step) == SectionAndMove(t[i + 1..], x - |sectionMoves|);
          assert step - moveCount == x - |sectionMoves|;
        } else {
          assert Bridge.Tokens(t[i].1) == [];
          assert SectionAndMove(t, step) == SectionAndMove(t[i + 1..], x);
        }
      }
      assert t[|t|..] == [];
      return "Complete", "Unknown";
    }
  }
}
