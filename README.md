# Rubik's cube state, move engine and solvers in Dafny

This project models the core of a Rubik's cube assistant written in Python (`MainThesis/`). The
assistant lets a user enter the six faces of a cube, either by clicking stickers or by capturing a
face at a time. It can check and scramble the entered state and apply moves in cube notation. It can
hand the state to an external solver library or run a beginner-method solver of its own. It can parse
a solution the user types in, and it can step through a solution move by move.

The Dafny modules follow the package's files:

| module | file | what it holds |
|---|---|---|
| `Outcomes` | (none) | `Option`, `Result` and `Outcome` wrappers used for the error paths |
| `Constants` | `cube/constants.py` | the `Color` and `Face` enumerations, their values and their declaration order |
| `Facelets` | `cube/state.py` | a cube as a value: six 3×3 grids of `Cell = Option<Color>`, with `None` for an unset sticker; positions, reads, writes, and the multiset ("bag") of all 54 stickers |
| `Notation` | `cube/notation.py` | `parse_move` |
| `Movements` | `cube/movements.py` | the clockwise and counter-clockwise face-grid rotations |
| `Execution` | `cube/execution.py` | `apply_move` and everything it dispatches to, as pure functions on cubes |
| `CubeQueries` | `cube/state.py` | the read-only queries of `CubeState`: completeness, colour counts, validity, solvedness, the facelet string |
| `State` | `cube/state.py`, `cube/execution.py` | the class `CubeState`, whose methods update the six faces in place. The move engine of `execution.py` runs on it as methods, each proved to leave the state that the matching `Execution` function computes |
| `Text` | (Python built-ins) | `str.split()`, `" ".join`, and `str.replace` of one character, as the bridge and the solver use them |
| `Bridge` | `cube/rubiks_cube_bridge.py` | the class `RubiksCubeBridge`: conversion to the solver's 54-letter format, post-processing of the solver's answer, the step table, and replaying a solution step by step |
| `ManualSolver` | `cube/manual_solver.py` | the class `ManualCubeSolver`: the white-cross loop, the edge cases, the six fixed algorithm steps, the growing `moves_by_step` table, and `get_state_at_step` |
| `ManualInput` | `ui/manual_solver.py` | `_parse_solution`, the regular-expression tokenizer of typed solutions |
| `App` | `ui/app.py` | the class `CubeApp` without its widgets: colour cycling on click, face capture order, scramble, solution navigation, and the section-and-move lookup |

Notes on the move engine, all as the code has it:

- Faces are enumerated in declaration order UP, DOWN, FRONT, BACK, LEFT, RIGHT.
- Every neighbour update in `update_adjacent_faces` and `_rotate_adjacent` is a four-strip cycle of
  three stickers. Each branch is transcribed as a `Cycle`. The counter-clockwise branches are
  transcribed separately and proved to be the reverse of the clockwise ones.
- Cube rotations parse their modifier as the letter after `m`. So `mR'` and `mR2` behave exactly like
  `mR`: always one clockwise rotation about the vertical axis. `mL` is always one counter-clockwise
  rotation.
- `M` cycles the middle row (row 1) of FRONT, RIGHT, BACK and LEFT. `E` and `S` are built from two
  outer turns each (E is `D U'`, S is `F B'`, with the modifier carried over), exactly as `apply_middle_layer_move` calls
  `apply_move` on them.
- `_rotate_adjacent` in `state.py` carries no BACK branch, so there it leaves the cube unchanged.

## Model

| member | source | states |
|---|---|---|
| Constants.ColorValue | MainThesis/cube/constants.py:4-18 | colour values are 0..6, and 6 belongs to UNKNOWN alone |
| Constants.FaceValue | MainThesis/cube/constants.py:20-33 | every face value is below 6 |
| Constants.FaceIndex | MainThesis/cube/constants.py:20-33 | the index of a face in the enumeration order, at which the face list holds that face |
| Constants.AllFacesEnumerates | MainThesis/cube/constants.py:20-33 | the face list holds all six faces, each once |
| Constants.ValuesAreDistinct | MainThesis/cube/constants.py:4-33 | different colours have different values, and so do different faces |
| Facelets.UniformGrid | MainThesis/cube/state.py:9 | a 3×3 grid whose every cell holds the given value |
| Facelets.UniformCube | MainThesis/cube/state.py:7-9 | the initial state: every sticker of every face holds the given value |
| Facelets.Cube.With | MainThesis/cube/state.py:11-13 | replacing one face's grid changes that face and keeps the other five |
| Facelets.Cube.Set | MainThesis/cube/execution.py:89-102 | writing one sticker changes that position only |
| Facelets.FaceCells | MainThesis/cube/state.py:28-31 | a face's nine stickers, row by row, each at index 3·row+col |
| Facelets.CellsIn | MainThesis/cube/state.py:28-31 | the stickers of the first n faces of a face order, face by face, nine each |
| Facelets.BagSize | MainThesis/cube/state.py:9 | a cube holds exactly 54 stickers |
| Notation.ParseMove | MainThesis/cube/notation.py:1-9 | a missing or empty token gives no face and no modifier; otherwise the face is the first character and the modifier the second, or empty |
| Notation.ParseMoveRoundTrip | MainThesis/cube/notation.py:6-9 | face and modifier put back together give the token's first two characters |
| Notation.ParseMoveIgnoresTail | MainThesis/cube/notation.py:6-9 | characters after the second never change the result |
| Notation.ParseMoveSingle | MainThesis/cube/notation.py:7 | a one-character token has an empty modifier |
| Movements.RotateClockwise | MainThesis/cube/movements.py:1-3 | the sticker at (i, j) moves to (j, 2-i) |
| Movements.RotateCounterClockwise | MainThesis/cube/movements.py:5-7 | the sticker at (i, j) moves to (2-j, i) |
| Movements.RotateFaceGrid | MainThesis/cube/movements.py:9-14 | picks the clockwise or the counter-clockwise rotation |
| Movements.RotateFaceGridAt | MainThesis/cube/movements.py:9-14 | the sticker at (r, k) after a clockwise rotation comes from (2-k, r), after a counter-clockwise one from (k, 2-r) |
| Movements.RotationsAreInverse | MainThesis/cube/movements.py:1-7 | clockwise then counter-clockwise, or the reverse, restores the grid |
| Movements.RotateFaceGridInverse | MainThesis/cube/movements.py:9-14 | rotating one way and then the other restores the grid |
| Movements.HalfTurnEitherWay | MainThesis/cube/movements.py:1-7 | two clockwise quarter turns equal two counter-clockwise ones |
| Movements.FourQuarterTurns | MainThesis/cube/movements.py:1-14 | four quarter turns in either direction restore the grid |
| Movements.RotationPermutes | MainThesis/cube/movements.py:1-7 | a rotation keeps the centre sticker and the multiset of the grid's stickers |
| Execution.AdjacentCycle | MainThesis/cube/execution.py:76-207 | each face's neighbour update is a well-formed cycle of four strips on faces other than the turning one |
| Execution.CounterClockwiseIsReverse | MainThesis/cube/execution.py:86-199 | every counter-clockwise branch cycles the same strips as the clockwise one, in reverse |
| Execution.MiddleCycle | MainThesis/cube/execution.py:209-230 | the M update is a well-formed cycle over the middle rows of FRONT, RIGHT, BACK and LEFT |
| Execution.ApplyCycleAt | MainThesis/cube/execution.py:89-102 | after the three passes of the loop, every sticker holds what its source position held before |
| Execution.CycleSourceFace | MainThesis/cube/execution.py:76-207 | a cycle moves stickers only among the faces it names |
| Execution.CycleSourceReverse | MainThesis/cube/execution.py:86-199 | the reverse cycle undoes the forward cycle's movement of every sticker |
| Execution.CycleSourceFour | MainThesis/cube/execution.py:86-199 | four applications of a cycle bring every sticker back |
| Execution.PassBag | MainThesis/cube/execution.py:90-94 | one pass of the loop only moves stickers: the multiset is kept |
| Execution.ApplyCycleBag | MainThesis/cube/execution.py:89-102 | a whole cycle keeps the multiset of stickers |
| Execution.CycleKeepsOtherFaces | MainThesis/cube/execution.py:76-207 | faces a cycle does not name keep all their stickers |
| Execution.UpdateAdjacentFaces | MainThesis/cube/execution.py:76-207 | the model of `update_adjacent_faces`: the turning face's neighbour cycle, for that direction, applied to the cube; `UpdateAdjacentFacesSpec` states what it does to every sticker |
| Execution.UpdateAdjacentFacesSpec | MainThesis/cube/execution.py:76-207 | every sticker after the update comes from its cycle source; the turning face is untouched; the multiset is kept |
| Execution.OuterTurn | MainThesis/cube/execution.py:52-74 | the model of the outer-face branch of `apply_move`, modifier by modifier; `OuterTurnQuarters` reduces it to quarter turns |
| Execution.OuterTurnQuarters | MainThesis/cube/execution.py:52-74 | `'` is one counter-clockwise quarter turn, `2` two clockwise ones, anything else one clockwise |
| Execution.TurnCycle | MainThesis/cube/execution.py:52-74 | a quarter turn's neighbour cycle is well formed and leaves the turning face out |
| Execution.Quarter | MainThesis/cube/execution.py:52-74 | one quarter turn of a face: its grid rotated and its neighbours cycled in the same direction; `QuarterAt`, `QuarterInverse` and `QuarterFour` state its properties |
| Execution.QuarterAt | MainThesis/cube/execution.py:52-74 | where every sticker of the cube comes from after a quarter turn, on the turning face and around it |
| Execution.TurnSourceInverse | MainThesis/cube/execution.py:52-199 | the sticker sources of a clockwise and a counter-clockwise quarter turn undo each other |
| Execution.TurnSourceFour | MainThesis/cube/execution.py:52-199 | four clockwise quarter turns move every sticker back to its place |
| Execution.QuarterInverse | MainThesis/cube/execution.py:52-199 | a clockwise quarter turn and a counter-clockwise one of the same face cancel, in either order |
| Execution.QuarterFour | MainThesis/cube/execution.py:52-199 | four clockwise quarter turns of a face restore the cube |
| Execution.QuarterBag | MainThesis/cube/execution.py:52-74 | a quarter turn keeps the multiset of stickers |
| Execution.MiddleRowMove | MainThesis/cube/execution.py:209-230 | the model of `_apply_middle_row_move`: the middle rows of FRONT, RIGHT, BACK and LEFT exchanged in the given direction; `MiddleRowMoveAt` and `MiddleRowMoveIsCycle` state it sticker by sticker |
| Execution.MiddleRowMoveAt | MainThesis/cube/execution.py:209-230 | where every sticker comes from after the M row move, in both directions |
| Execution.MiddleRowMoveIsCycle | MainThesis/cube/execution.py:209-230 | the M row move is exactly the middle-row cycle |
| Execution.MiddleRowMoveFrame | MainThesis/cube/execution.py:209-230 | the M row move keeps UP, DOWN and rows 0 and 2 of the side faces |
| Execution.MiddleRowMoveInverse | MainThesis/cube/execution.py:209-230 | the two directions of the M row move undo each other |
| Execution.MiddleRowMoveBag | MainThesis/cube/execution.py:209-230 | the M row move keeps the multiset of stickers |
| Execution.Vertical | MainThesis/cube/execution.py:312-345 | the model of `rotate_cube_around_vertical_axis`: UP and DOWN rotate in opposite directions and the four side faces change places; `VerticalInverse` and `VerticalBag` state its properties |
| Execution.VerticalInverse | MainThesis/cube/execution.py:312-345 | the clockwise and counter-clockwise rotations about the vertical axis undo each other |
| Execution.VerticalBag | MainThesis/cube/execution.py:312-345 | a whole-cube rotation keeps the multiset of stickers |
| Execution.OuterFace | MainThesis/cube/execution.py:17-28 | the six face letters map to the six faces, and no other letter does |
| Execution.FaceLetter | MainThesis/cube/execution.py:17-28 | each face's letter maps back to that face |
| Execution.SplitMove | MainThesis/cube/execution.py:10-14 | the engine's split of a token agrees with `parse_move`: the first character, then at most one modifier character |
| Execution.SplitToken | MainThesis/cube/execution.py:10-14 | a letter followed by a modifier of at most one character splits back into the two |
| Execution.LayerTokens | MainThesis/cube/execution.py:248-278 | E is built from a D turn and a U turn; S from an F turn and a B turn |
| Execution.MiddleLayer | MainThesis/cube/execution.py:232-278 | a middle-layer move never fails |
| Execution.Rejected | MainThesis/cube/execution.py:4-50 | the tokens `apply_move` raises on: a first character outside F, R, U, L, D, B, M, E, S and m, or an `m` not followed by R or L; `ApplyMove` states that a move fails exactly for these |
| Execution.CubeRotation | MainThesis/cube/execution.py:280-310 | a cube rotation fails exactly when its letter is neither R nor L |
| Execution.Dispatch | MainThesis/cube/execution.py:4-50 | an empty token does nothing; the error cases and messages of the dispatch; M/E/S and `m` tokens carry their type and modifier |
| Execution.ApplyMove | MainThesis/cube/execution.py:4-74 | the empty token leaves the cube alone; a move fails exactly when it is rejected, with the source's error for a bad face, a bare `m` or a bad rotation letter |
| Execution.ApplyMoves | MainThesis/cube/rubiks_cube_bridge.py:262-265 | replaying a list of moves succeeds exactly when every move is accepted |
| Execution.ApplyMovesConcat | MainThesis/cube/rubiks_cube_bridge.py:262-265 | replaying a concatenation replays the first list and then the second from where it stopped, or keeps the first list's error |
| Execution.ReplaySnoc | MainThesis/cube/rubiks_cube_bridge.py:262-265 | replaying one more move applies it to the replayed state, or fails with its error |
| Execution.ReplayStopsAtError | MainThesis/cube/rubiks_cube_bridge.py:262-265 | once a prefix of the replay fails, every longer prefix fails with the same error |
| Execution.OuterTokens | MainThesis/cube/execution.py:52-74 | the plain, primed and doubled tokens of a face are accepted and are the turn with that modifier |
| Execution.OuterPlainToken | MainThesis/cube/execution.py:70-74 | a bare face letter is one clockwise quarter turn |
| Execution.OuterPrimeToken | MainThesis/cube/execution.py:53-57 | a primed face letter is one counter-clockwise quarter turn |
| Execution.OuterDoubleToken | MainThesis/cube/execution.py:59-68 | a doubled face letter is two clockwise quarter turns |
| Execution.DispatchIgnoresTail | MainThesis/cube/execution.py:10-14 | characters after the second never change the dispatch |
| Execution.ApplyMoveIgnoresTail | MainThesis/cube/execution.py:10-14 | characters after the second never change what a move does |
| Execution.OuterOtherModifier | MainThesis/cube/execution.py:70-74 | an outer turn with any modifier other than `'` or `2` is a plain clockwise turn |
| Execution.OuterTurnThenPrime | MainThesis/cube/execution.py:52-199 | X followed by X' restores every cube |
| Execution.OuterPrimeThenTurn | MainThesis/cube/execution.py:52-199 | X' followed by X restores every cube |
| Execution.OuterDouble | MainThesis/cube/execution.py:59-68 | X2 is X applied twice |
| Execution.OuterFour | MainThesis/cube/execution.py:52-199 | X applied four times restores every cube |
| Execution.OuterTurnBag | MainThesis/cube/execution.py:52-74 | an outer turn keeps the multiset of stickers |
| Execution.MiddleTokens | MainThesis/cube/execution.py:234-246 | M, M' and M2 are accepted and are the M row moves of the matching direction and count |
| Execution.MiddleInverse | MainThesis/cube/execution.py:209-246 | M followed by M', and M' followed by M, restore every cube |
| Execution.MiddleFrame | MainThesis/cube/execution.py:209-246 | any M token is accepted and keeps UP, DOWN and rows 0 and 2 of the side faces |
| Execution.MiddleToken | MainThesis/cube/execution.py:29-40 | an M token with any modifier is accepted and runs the middle-layer move |
| Execution.LayerExpansion | MainThesis/cube/execution.py:248-278 | an E or S token is the replay of its two outer turns |
| Execution.EquatorPlain | MainThesis/cube/execution.py:248-262 | E is D followed by U' |
| Execution.EquatorPrime | MainThesis/cube/execution.py:248-262 | E' is D' followed by U |
| Execution.EquatorDouble | MainThesis/cube/execution.py:248-262 | E2 is D2 followed by U2 |
| Execution.StandingPlain | MainThesis/cube/execution.py:264-278 | S is F followed by B' |
| Execution.StandingPrime | MainThesis/cube/execution.py:264-278 | S' is F' followed by B |
| Execution.StandingDouble | MainThesis/cube/execution.py:264-278 | S2 is F2 followed by B2 |
| Execution.UpDownKeepMiddleRow | MainThesis/cube/execution.py:122-174 | the U and D neighbour cycles never touch row 1 of the side faces |
| Execution.QuarterKeepsMiddleRow | MainThesis/cube/execution.py:122-174 | a U or D quarter turn keeps row 1 of FRONT, RIGHT, BACK and LEFT |
| Execution.UpDownTurnKeepsMiddleRow | MainThesis/cube/execution.py:52-74 | a U or D token with any modifier keeps the side faces' middle rows |
| Execution.OuterToken | MainThesis/cube/execution.py:17-74 | a face letter with any modifier is accepted and is the outer turn of that face |
| Execution.EquatorTurns | MainThesis/cube/execution.py:248-262 | each E token is the replay of its D and U tokens |
| Execution.EquatorKeepsMiddleRow | MainThesis/cube/execution.py:248-262 | E, built from U and D turns, leaves the middle rows of the side faces unchanged, although the name suggests it turns them |
| Execution.RotationIgnoresModifier | MainThesis/cube/execution.py:41-46 | `mR` followed by anything is one clockwise rotation about the vertical axis, and `mL` followed by anything one counter-clockwise rotation |
| Execution.RotationInverse | MainThesis/cube/execution.py:280-345 | `mR` then `mL`, or `mL` then `mR`, restores every cube |
| Execution.OuterTokenBag | MainThesis/cube/execution.py:52-74 | an outer-face token keeps the multiset of stickers |
| Execution.MiddleLayerBag | MainThesis/cube/execution.py:232-278 | a middle-layer move keeps the multiset of stickers |
| Execution.CubeRotationBag | MainThesis/cube/execution.py:280-345 | a successful cube rotation keeps the multiset of stickers |
| Execution.ApplyMoveBag | MainThesis/cube/execution.py:4-74 | every successful move keeps the multiset of stickers |
| Execution.ApplyMovesBag | MainThesis/cube/rubiks_cube_bridge.py:262-265 | a successful replay keeps the multiset of stickers |
| CubeQueries.IsComplete | MainThesis/cube/state.py:19-24 | the model of `is_complete`: no sticker of any face is unset; `IsCompleteAt` restates it over positions |
| CubeQueries.IsCompleteAt | MainThesis/cube/state.py:19-24 | complete exactly when no sticker is unset |
| CubeQueries.Cells | MainThesis/cube/state.py:52-56 | the 54 stickers in the counting order, as a multiset equal to the cube's |
| CubeQueries.ColorCount | MainThesis/cube/state.py:48-57 | the count of a colour is its number of stickers on the cube |
| CubeQueries.IsValid | MainThesis/cube/state.py:59-68 | the model of `is_valid`: every colour other than UNKNOWN shows exactly nine times; `SixColorsFill` and `ValidIsComplete` state what follows |
| CubeQueries.SixColorsFill | MainThesis/cube/state.py:59-68 | nine stickers of each of the six colours fill all 54, leaving no unset or UNKNOWN sticker |
| CubeQueries.ValidIsComplete | MainThesis/cube/state.py:48-68 | a valid cube is complete and has no UNKNOWN sticker |
| CubeQueries.SolvedColor | MainThesis/cube/state.py:85-102 | each face's solved colour is a real colour |
| CubeQueries.SolvedCube | MainThesis/cube/state.py:85-102 | every sticker of the solved state shows its own face's solved colour |
| CubeQueries.IsSolved | MainThesis/cube/state.py:104-123 | the model of `is_solved`: every sticker shows its face's solved colour; `IsSolvedExactly` states that one cube passes |
| CubeQueries.IsSolvedExactly | MainThesis/cube/state.py:104-123 | `is_solved` holds for exactly one cube: the one `set_solved` writes |
| CubeQueries.SolvedColorCount | MainThesis/cube/state.py:48-102 | the solved state shows each real colour nine times |
| CubeQueries.SolvedIsValid | MainThesis/cube/state.py:59-123 | the solved state is solved, complete and valid |
| CubeQueries.MoveKeepsColorCount | MainThesis/cube/state.py:81-83 | an accepted move keeps every colour count, so it keeps a cube valid |
| CubeQueries.MovesKeepColorCount | MainThesis/cube/state.py:81-83 | a successful replay keeps every colour count |
| CubeQueries.Letter | MainThesis/cube/state.py:32-45 | a sticker's letter is `?` exactly for an unset or UNKNOWN sticker |
| CubeQueries.Letters | MainThesis/cube/state.py:30-45 | one letter per sticker, in order |
| CubeQueries.AsString | MainThesis/cube/state.py:26-46 | the facelet string has 54 letters |
| CubeQueries.AsStringAt | MainThesis/cube/state.py:26-46 | the letter at 9·i+3·row+col is that of the sticker at (row, col) of the i-th face in facelet order |
| CubeQueries.FaceletIndex | MainThesis/cube/state.py:29 | each face's position in the facelet order |
| CubeQueries.AsStringInjective | MainThesis/cube/state.py:26-46 | without UNKNOWN stickers, two cubes with the same facelet string are equal |
| State.StateAdjacentCycle | MainThesis/cube/state.py:125-201 | every cycle `_rotate_adjacent` performs is well formed |
| State.StateTableMatchesEngine | MainThesis/cube/state.py:125-201 | each of `_rotate_adjacent`'s cycles is exactly the engine's neighbour cycle for that face and direction |
| State.CubeState.constructor | MainThesis/cube/state.py:7-9 | a new state has every sticker unset and is not complete |
| State.CubeState.GetFace | MainThesis/cube/state.py:15-17 | `get_face`: the grid the state holds for that face; `SetFace` and `ResetFace` state how it changes |
| State.CubeState.SetFace | MainThesis/cube/state.py:11-13 | the face gets the given grid and the others are kept |
| State.CubeState.CheckComplete | MainThesis/cube/state.py:19-24 | returns whether the cube is complete |
| State.CubeState.ToFaceletString | MainThesis/cube/state.py:26-46 | returns the facelet string |
| State.CubeState.AppendLetters | MainThesis/cube/state.py:30-45 | the loop appends one face's letters, row by row |
| State.CubeState.CountColors | MainThesis/cube/state.py:48-57 | the counts hold each colour's number of stickers |
| State.CubeState.TallyFace | MainThesis/cube/state.py:53-56 | the loop adds one face's occurrences of every colour |
| State.CubeState.CheckValid | MainThesis/cube/state.py:59-68 | returns whether each real colour shows nine times |
| State.CubeState.ResetFace | MainThesis/cube/state.py:70-72 | the face is cleared, the others are kept, and the cube is then incomplete |
| State.CubeState.Copy | MainThesis/cube/state.py:74-79 | a new, separate state with the same stickers |
| State.CubeState.SetSolved | MainThesis/cube/state.py:85-102 | the state becomes the solved cube, which is solved, complete and valid |
| State.CubeState.FilledGrid | MainThesis/cube/state.py:97-102 | builds a grid whose every cell is the given value |
| State.CubeState.CheckSolved | MainThesis/cube/state.py:104-123 | returns whether the cube is solved |
| State.CubeState.CyclePass | MainThesis/cube/execution.py:90-94 | one pass of a cycle loop, in place |
| State.CubeState.RunCycle | MainThesis/cube/execution.py:89-102 | runs the three passes and leaves the cycled cube |
| State.CubeState.UpdateAdjacent | MainThesis/cube/execution.py:76-207 | leaves the neighbour update of the face and modifier |
| State.CubeState.RotateAdjacent | MainThesis/cube/state.py:125-201 | BACK changes nothing; every other face gets the engine's neighbour update in the given direction |
| State.CubeState.TurnOuter | MainThesis/cube/execution.py:52-74 | leaves the outer-face turn of the face and modifier |
| State.CubeState.MiddleRow | MainThesis/cube/execution.py:209-230 | leaves the M row move in the given direction |
| State.CubeState.MiddleLayerMove | MainThesis/cube/execution.py:232-278 | leaves the middle-layer move of the type and modifier |
| State.CubeState.VerticalAxis | MainThesis/cube/execution.py:312-345 | leaves the rotation about the vertical axis |
| State.CubeState.CubeRotationMove | MainThesis/cube/execution.py:280-310 | success leaves the rotated cube; failure reports the rotation's error and changes nothing |
| State.CubeState.Apply | MainThesis/cube/execution.py:4-74 | success leaves the moved cube; failure reports the move's error and changes nothing |
| State.CubeState.Move | MainThesis/cube/state.py:81-83 | as `Apply`, and every colour count is kept |
| Text.Split | MainThesis/cube/rubiks_cube_bridge.py:172 | every piece `str.split()` returns is a non-empty run of non-separators |
| Text.ReplaceChar | MainThesis/cube/rubiks_cube_bridge.py:158 | every occurrence of the character is replaced and nothing else changes |
| Text.ReplaceCharIdempotent | MainThesis/cube/rubiks_cube_bridge.py:158-163 | after the replacement the character is gone, so replacing again changes nothing |
| Text.Join | MainThesis/cube/rubiks_cube_bridge.py:316-322 | `sep.join(words)`: an empty list joins to the empty string; `SplitJoin` and `JoinPrefix` state its partners |
| Text.SplitJoin | MainThesis/cube/rubiks_cube_bridge.py:315-323 | splitting what `" ".join` built from words gives the words back |
| Text.JoinPrefix | MainThesis/cube/manual_solver.py:24-60 | joining more moves extends the joined string, so each recorded step is a prefix of the next |
| Text.SplitEmptyIffBlank | MainThesis/cube/rubiks_cube_bridge.py:171 | a string splits into nothing exactly when it is blank |
| Text.SplitExcludes | MainThesis/cube/rubiks_cube_bridge.py:158-172 | a character absent from a string is absent from every piece of its split |
| Bridge.SolverIndex | MainThesis/cube/rubiks_cube_bridge.py:63-70 | each face's position in the solver's face order |
| Bridge.SolverLetter | MainThesis/cube/rubiks_cube_bridge.py:51-58 | unset and UNKNOWN stickers have no solver letter; the others have the lower-case facelet letter |
| Bridge.Encode | MainThesis/cube/rubiks_cube_bridge.py:74-87 | the model of the conversion loop: one solver letter per sticker, failing at the first sticker without one; `EncodeMeaning` states it |
| Bridge.EncodeMeaning | MainThesis/cube/rubiks_cube_bridge.py:74-87 | encoding succeeds exactly when every sticker has a letter, giving one letter per sticker; otherwise it fails naming the first sticker without one |
| Bridge.SolverFormat | MainThesis/cube/rubiks_cube_bridge.py:72-89 | a successful conversion has 54 letters |
| Bridge.SolverFormatSucceeds | MainThesis/cube/rubiks_cube_bridge.py:82-87 | the conversion succeeds exactly when no sticker is unset or UNKNOWN |
| Bridge.SolverFormatAt | MainThesis/cube/rubiks_cube_bridge.py:74-89 | the letter at 9·i+3·row+col is that of the sticker at (row, col) of the i-th face in solver order |
| Bridge.ValidConverts | MainThesis/cube/rubiks_cube_bridge.py:51-89 | every valid cube converts |
| Bridge.SolverFormatMatchesAsString | MainThesis/cube/rubiks_cube_bridge.py:51-89 | each sticker appears in both the solver string and the facelet string, in lower case in the former |
| Bridge.SolverFormatInjective | MainThesis/cube/rubiks_cube_bridge.py:51-89 | the conversion loses nothing: two cubes with the same solver string are equal |
| Bridge.SectionsAsWritten | MainThesis/cube/rubiks_cube_bridge.py:315-323 | the seven slices as written: with at most seven moves, all of them land in the first step |
| Bridge.Sections | MainThesis/cube/rubiks_cube_bridge.py:315-323 | the corrected split into seven sections |
| Bridge.SectionsKeepEveryMove | MainThesis/cube/rubiks_cube_bridge.py:315-323 | every move of the corrected split lands in exactly one section, in order |
| Bridge.LongSolutionKeepsEveryMove | MainThesis/cube/rubiks_cube_bridge.py:315-323 | above 49 moves the slices as written are the corrected ones and keep every move |
| Bridge.ShortSolutionAgrees | MainThesis/cube/rubiks_cube_bridge.py:315-323 | up to seven moves the slices as written agree with the corrected ones |
| Bridge.EightMovesLoseSeven | MainThesis/cube/rubiks_cube_bridge.py:315-323 | with eight moves, only the first lands in a section and seven are dropped |
| Bridge.MidLengthSolutionLosesMoves | MainThesis/cube/rubiks_cube_bridge.py:315-323 | between 8 and 49 moves the slices as written keep only a proper prefix of the moves |
| Bridge.FixPrimes | MainThesis/cube/rubiks_cube_bridge.py:158 | the solver's backtick primes become apostrophes, keeping the length and leaving no backtick |
| Bridge.FixTable | MainThesis/cube/rubiks_cube_bridge.py:160-163 | every string value of the step table has its primes fixed; names and other values are kept |
| Bridge.NavigationMoves | MainThesis/cube/rubiks_cube_bridge.py:169-178 | the navigation list holds only non-empty, separator-free tokens |
| Bridge.Tokens | MainThesis/cube/rubiks_cube_bridge.py:171-172 | a table value contributes only words to navigation |
| Bridge.NavigationSnoc | MainThesis/cube/rubiks_cube_bridge.py:169-173 | one more table entry adds its own tokens at the end |
| Bridge.NavigationHasNoBackticks | MainThesis/cube/rubiks_cube_bridge.py:158-178 | after the table is fixed, no navigation token holds a backtick |
| Bridge.FixTableIdempotent | MainThesis/cube/rubiks_cube_bridge.py:160-163 | fixing the table a second time changes nothing |
| Bridge.Tabulate | MainThesis/cube/rubiks_cube_bridge.py:315-323 | the step table pairs each name with its section's moves joined by spaces |
| Bridge.NavigationOfTabulate | MainThesis/cube/rubiks_cube_bridge.py:169-178 | navigating such a table replays the sections' moves one after the other |
| Bridge.ParseSolutionIntoStepsAsWritten | MainThesis/cube/rubiks_cube_bridge.py:300-325 | the source's table: the seven step names, each with a string of moves |
| Bridge.ParseSolutionIntoSteps | MainThesis/cube/rubiks_cube_bridge.py:300-325 | the corrected table, with the same seven names |
| Bridge.ParsedStepsReplayWholeSolution | MainThesis/cube/rubiks_cube_bridge.py:300-325 | navigating the corrected table replays exactly the solution's moves |
| Bridge.ParsedStepsAsWrittenLoseMoves | MainThesis/cube/rubiks_cube_bridge.py:300-325 | between 8 and 49 moves, navigating the table as written replays only a proper prefix of the solution |
| Bridge.StepState | MainThesis/cube/rubiks_cube_bridge.py:242-267 | the model of `get_state_at_step` once a solution exists: out of range outside 0..len(moves), otherwise the original replayed through the first `step` moves; `StepStateRange`, `StepStateEnds` and `StepStateNext` state its properties |
| Bridge.StepStateRange | MainThesis/cube/rubiks_cube_bridge.py:255-256 | a step is refused as out of range exactly when it lies outside 0..len(moves) |
| Bridge.StepStateEnds | MainThesis/cube/rubiks_cube_bridge.py:258-267 | step 0 is the original state, and the last step is the whole replay |
| Bridge.StepStateNext | MainThesis/cube/rubiks_cube_bridge.py:258-267 | one step further applies exactly the next move |
| Bridge.StepStateAccepted | MainThesis/cube/rubiks_cube_bridge.py:258-267 | with accepted moves, every step in range is shown and keeps every colour count |
| Bridge.SolvedTable | MainThesis/cube/rubiks_cube_bridge.py:152-205 | the returned solution has no backtick; a plain answer is a one-entry "Complete Solution" table |
| Bridge.StoredMoves | MainThesis/cube/rubiks_cube_bridge.py:169-205 | the stored navigation moves are words without backticks |
| Bridge.OtherStoresTokens | MainThesis/cube/rubiks_cube_bridge.py:190-205 | for a plain answer, the stored moves are the split of the returned solution |
| Bridge.RubiksCubeBridge.constructor | MainThesis/cube/rubiks_cube_bridge.py:31-36 | a new bridge knows whether the library is available and holds no solution |
| Bridge.RubiksCubeBridge.ConvertToRubiksCubeFormat | MainThesis/cube/rubiks_cube_bridge.py:38-89 | without the library, the error that names it; otherwise the solver string or the first missing colour |
| Bridge.RubiksCubeBridge.AppendFace | MainThesis/cube/rubiks_cube_bridge.py:74-87 | the loop appends one face's letters, or stops at the first sticker without one |
| Bridge.RubiksCubeBridge.SolveWithRubiksCube | MainThesis/cube/rubiks_cube_bridge.py:91-224 | the missing library, a failed conversion and a failed solver are errors that change nothing; otherwise it returns the fixed table and stores the moves, a copy of the state and the table |
| Bridge.RubiksCubeBridge.FixStepTable | MainThesis/cube/rubiks_cube_bridge.py:160-163 | the loop fixes the primes of every string value |
| Bridge.RubiksCubeBridge.CollectNavigation | MainThesis/cube/rubiks_cube_bridge.py:169-178 | the loop collects the navigation moves of the table |
| Bridge.RubiksCubeBridge.GetStateAtStep | MainThesis/cube/rubiks_cube_bridge.py:242-267 | no solution is an error; otherwise a new state after the first `step` moves, or the range or move error |
| Bridge.RubiksCubeBridge.SolutionSteps | MainThesis/cube/rubiks_cube_bridge.py:269-272 | the stored moves, or an empty list without a solution |
| ManualSolver.AlgorithmsAccepted | MainThesis/cube/manual_solver.py:514-584 | every move of every fixed algorithm is accepted by the engine |
| ManualSolver.MiddleEdgeAlgorithm | MainThesis/cube/manual_solver.py:263-288 | each middle-layer edge case plays an accepted algorithm of one to six moves |
| ManualSolver.WhiteEdges | MainThesis/cube/manual_solver.py:359-379 | the model of `_find_white_edges`: the edge positions holding WHITE, face by face; `WhiteEdgesExact` states which are listed |
| ManualSolver.WhiteEdgesExact | MainThesis/cube/manual_solver.py:359-379 | an edge is listed exactly when it is an edge position holding WHITE; there are at most 24 |
| ManualSolver.CrossSolved | MainThesis/cube/manual_solver.py:431-499 | the model of `_is_white_cross_solved`: a white UP centre and four aligned UP edges; `CrossSolvedMeaning` spells it out |
| ManualSolver.CrossSolvedMeaning | MainThesis/cube/manual_solver.py:431-499 | the cross test spelled out: white UP centre and edges, each side edge matching its side's centre |
| ManualSolver.SolvedHasCross | MainThesis/cube/manual_solver.py:431-499 | the solved cube passes the cross test |
| ManualSolver.AlignmentFace | MainThesis/cube/manual_solver.py:501-512 | the side face that each UP edge position must match |
| ManualSolver.AlignedAgrees | MainThesis/cube/manual_solver.py:235-261 | an UP edge is properly aligned exactly when it is white and matches the side centre its alignment info names |
| ManualSolver.Locate | MainThesis/cube/manual_solver.py:168-190 | the edge classification: not an edge position exactly when "elsewhere"; "top, correct" only for an aligned UP edge |
| ManualSolver.ManualStepState | MainThesis/cube/manual_solver.py:592-601 | the model of the manual solver's `get_state_at_step`: step+1 moves replayed from the initial state in range, the working state otherwise; `ManualStepIsOneAhead` and `LastStepShowsInitial` state its properties |
| ManualSolver.ManualStepIsOneAhead | MainThesis/cube/manual_solver.py:592-601 | in range, the manual solver's step k shows what the bridge's step k+1 shows; out of range it shows the working state |
| ManualSolver.LastStepShowsInitial | MainThesis/cube/manual_solver.py:594-595 | before solving, step len(steps) shows the initial state, not the state after every move |
| ManualSolver.Put | MainThesis/cube/manual_solver.py:24-57 | a dictionary store: replaces an existing key in place, and appends a new key at the end |
| ManualSolver.StepNamesDistinct | MainThesis/cube/manual_solver.py:24-57 | the seven step names differ from one another |
| ManualSolver.PutExtendsChain | MainThesis/cube/manual_solver.py:24-57 | storing the next step, whose string extends the previous one, appends it and keeps the prefix chain |
| ManualSolver.ManualCubeSolver.constructor | MainThesis/cube/manual_solver.py:7-11 | the solver keeps the caller's state and works on a separate copy, with no moves and no steps |
| ManualSolver.ManualCubeSolver.AddMove | MainThesis/cube/manual_solver.py:80-83 | records the move and applies it to the working copy; a rejected move is recorded and leaves the copy unchanged |
| ManualSolver.ManualCubeSolver.AppendAlgorithm | MainThesis/cube/manual_solver.py:219-233 | plays every move of an accepted algorithm, in order |
| ManualSolver.ManualCubeSolver.SolveTopEdge | MainThesis/cube/manual_solver.py:192-233 | adds at most ten accepted moves, replayed on the working copy |
| ManualSolver.ManualCubeSolver.PlayAlgorithm | MainThesis/cube/manual_solver.py:287-288 | appends the algorithm's moves and replays them |
| ManualSolver.ManualCubeSolver.SolveWhiteEdge | MainThesis/cube/manual_solver.py:138-166 | adds at most ten accepted moves; an edge already aligned on UP adds none |
| ManualSolver.ManualCubeSolver.FindWhiteEdges | MainThesis/cube/manual_solver.py:359-379 | returns exactly the white edges of the working copy |
| ManualSolver.ManualCubeSolver.IsWhiteCrossSolved | MainThesis/cube/manual_solver.py:431-446 | returns exactly the cross test of the working copy |
| ManualSolver.ManualCubeSolver.SolveEdgesOnce | MainThesis/cube/manual_solver.py:110-117 | the inner loop adds at most ten accepted moves per edge |
| ManualSolver.ManualCubeSolver.SolveWhiteCross | MainThesis/cube/manual_solver.py:85-136 | adds accepted moves only; a solved cross adds none; returns the joined solution |
| ManualSolver.ManualCubeSolver.FixedStep | MainThesis/cube/manual_solver.py:514-584 | appends the fixed algorithm and returns the joined solution |
| ManualSolver.ManualCubeSolver.CrossStep | MainThesis/cube/manual_solver.py:24-27 | the first step adds accepted moves and, on a fresh table, records the first entry |
| ManualSolver.ManualCubeSolver.RecordStep | MainThesis/cube/manual_solver.py:29-57 | a later step appends its algorithm and records the next entry of the chain |
| ManualSolver.ManualCubeSolver.Solve | MainThesis/cube/manual_solver.py:13-71 | the added moves are all accepted; the solution is their join; a fresh table gets seven entries, each a prefix of the next, the last being the solution; the working copy is reset to the initial state |
| ManualSolver.ManualCubeSolver.OptimizeSequence | MainThesis/cube/manual_solver.py:586-590 | the optimisation pass returns its input unchanged |
| ManualSolver.ManualCubeSolver.GetStateAtStep | MainThesis/cube/manual_solver.py:592-601 | a new state that replays the first step+1 moves in range, or the working state out of range |
| ManualInput.MatchLength | MainThesis/ui/manual_solver.py:113-114 | the match at the start of the text is a whole token of at most three characters |
| ManualInput.ParseSolution | MainThesis/ui/manual_solver.py:105-114 | the model of `_parse_solution`: commas become spaces, then the move pattern's matches are collected; `ParseJoinedTokens` and `ParsedMovesAccepted` state its properties |
| ManualInput.FindAll | MainThesis/ui/manual_solver.py:113-114 | every match found is a token |
| ManualInput.TokenAccepted | MainThesis/ui/manual_solver.py:113 | every token the pattern matches is accepted by the engine |
| ManualInput.ParsedMovesAccepted | MainThesis/ui/manual_solver.py:105-114 | every parsed move is accepted by the engine |
| ManualInput.NeutralCharactersAgree | MainThesis/ui/manual_solver.py:113-114 | texts that differ only in characters no match can use parse alike |
| ManualInput.CommasIgnored | MainThesis/ui/manual_solver.py:108-114 | replacing commas changes nothing |
| ManualInput.FindAllJoined | MainThesis/ui/manual_solver.py:113-114 | matching tokens typed with single spaces gives the tokens back |
| ManualInput.ParseJoinedTokens | MainThesis/ui/manual_solver.py:105-114 | parsing tokens typed with single spaces gives the tokens back |
| ManualInput.OneModifierOnly | MainThesis/ui/manual_solver.py:113 | at most one modifier is taken: "R2'" parses as "R2" |
| ManualInput.AdjacentLetters | MainThesis/ui/manual_solver.py:113 | letters written together are separate moves: "RU" parses as "R", "U" |
| ManualInput.LoneRotationPrefix | MainThesis/ui/manual_solver.py:113-114 | an `m` not followed by R or L is skipped: "mU" parses as "U" |
| App.ColorIndex | MainThesis/ui/app.py:322-325 | the position of a real colour in the click order |
| App.NextColor | MainThesis/ui/app.py:322-334 | the colour a clicked sticker takes; `NextColorCycle` and `SixClicksRestore` state the cycle |
| App.NextColorCycle | MainThesis/ui/app.py:322-334 | a click goes WHITE, YELLOW, RED, ORANGE, BLUE, GREEN, WHITE; an unset or UNKNOWN sticker becomes WHITE |
| App.SixClicksRestore | MainThesis/ui/app.py:322-334 | six clicks bring a coloured sticker back to its colour |
| App.NextFace | MainThesis/ui/app.py:216-218 | a capture moves to the next face in face order, wrapping around |
| App.Advance | MainThesis/ui/app.py:211-219 | the face reached after n captures; `AdvanceSteps` states it is n places along the face order |
| App.AdvanceSteps | MainThesis/ui/app.py:211-219 | n captures move n places along the face order |
| App.CapturesVisitEveryFace | MainThesis/ui/app.py:211-219 | starting at UP, six captures visit the faces in face order |
| App.CapturesCycle | MainThesis/ui/app.py:211-219 | six more captures bring back the same face |
| App.ScrambleAccepted | MainThesis/ui/app.py:240-247 | every scramble move is accepted |
| App.ClosingTurnCancels | MainThesis/ui/app.py:240-247 | a turn followed by its prime adds nothing to a replay |
| App.ScrambleMeaning | MainThesis/ui/app.py:240-247 | the scramble always succeeds and equals its first four moves alone, since the rest cancel |
| App.NextStepValue | MainThesis/ui/app.py:524-569 | the counter after `_next_step`: one forward while below the move count; `StepBounds` states its bounds and its inverse |
| App.PreviousStepValue | MainThesis/ui/app.py:485-486 | the counter after `_previous_step`: one back while above 0; `StepBounds` states its bounds and its inverse |
| App.StepBounds | MainThesis/ui/app.py:483-486 | the step counter stays in -1..count; next and previous undo each other inside the range; each stops exactly at its end |
| App.NavigationConcat | MainThesis/ui/app.py:588-597 | the moves the lookup walks over two tables are the first table's, then the second's |
| App.LookupPastEnd | MainThesis/ui/app.py:599 | from the total number of moves on, the lookup reports ("Complete", "Unknown") |
| App.SectionAndMove | MainThesis/ui/app.py:582-599 | the model of `_get_current_section_and_move` over a step table; `LookupMove`, `LookupSection` and `LookupWalksSolution` state what it names |
| App.LookupMove | MainThesis/ui/app.py:588-597 | below the total, the lookup names the step-th navigation move |
| App.LookupSection | MainThesis/ui/app.py:588-597 | below the total, the lookup names the section of a table entry |
| App.LookupSectionBounds | MainThesis/ui/app.py:588-597 | the named section is the one whose moves contain the step-th move |
| App.LookupWalksSolution | MainThesis/ui/app.py:582-599 | on the corrected step table, the lookup names each move of the solution in turn |
| App.MoveCount | MainThesis/ui/app.py:527-574 | there is a count exactly when there is a solver: a bridge offers its `solution_steps` (empty before it has solved), a manual solution its own number of moves |
| App.SolverTable | MainThesis/ui/app.py:582-585 | the step table the lookup walks: the bridge's `moves_by_step` once it has one, the manual solver's table, none without a solver |
| App.Shown | MainThesis/ui/app.py:527-574 | what `get_state_at_step` gives the app for each kind of solver; `BridgeStepsShowPrefixes` and `LoadedManualSolverShows` state it |
| App.BridgeStepsShowPrefixes | MainThesis/ui/app.py:527-533 | with the bridge, each step shows the original state after that many solution moves |
| App.LoadedManualSolverShows | MainThesis/ui/app.py:568-574 | with a freshly loaded manual solution, each step in range shows the state after step+1 moves, and the step just past the end shows the initial state |
| App.CubeApp.constructor | MainThesis/ui/app.py:16-40 | starts with an unset cube, on UP, with no solver and step -1 |
| App.CubeApp.OnCellClick | MainThesis/ui/app.py:316-335 | the clicked sticker takes the next colour in the click order; nothing else changes |
| App.CubeApp.CaptureFace | MainThesis/ui/app.py:208-225 | a capture stores the face and moves to the next face; a failed capture changes nothing |
| App.CubeApp.OnFaceChange | MainThesis/ui/app.py:203-206 | the chosen face becomes the current face |
| App.CubeApp.ResetFace | MainThesis/ui/app.py:227-230 | the current face is cleared and the others are kept |
| App.CubeApp.CompleteCube | MainThesis/ui/app.py:232-235 | the cube becomes the solved state, which is valid |
| App.CubeApp.ScrambleCube | MainThesis/ui/app.py:237-249 | the cube becomes the solved state with the scramble replayed on it, still valid |
| App.CubeApp.ShowCurrentStep | MainThesis/ui/app.py:527-533 | shows the current step's state, or reports why it cannot and changes nothing |
| App.CubeApp.NextStep | MainThesis/ui/app.py:524-580 | without a solver nothing happens; otherwise the step moves forward while below the move count, and the new step's state is shown or its error reported (so a bridge that never solved moves from -1 to 0 and reports that it has no solution) |
| App.CubeApp.PreviousStep | MainThesis/ui/app.py:483-489 | the step moves back while above 0, and the new step's state is shown or its error reported |
| App.CubeApp.ProcessManualSolution | MainThesis/ui/app.py:444-481 | an empty list changes nothing; otherwise a manual solver for the current cube holding the moves, at step 0 |
| App.CubeApp.CurrentSectionAndMove | MainThesis/ui/app.py:582-599 | without a step table, ("Unknown", "Unknown"); otherwise the section and the move at that step |

## Left out

- Camera capture, widgets, colour display, highlighting and status text are not modelled. A capture's
  result is a parameter of `CaptureFace` (`None` for a failed capture).
- Debug output (`print` calls and `_print_cube_state`) and the timing report are not modelled.
- The external solver is a parameter of `SolveWithRubiksCube`. A missing fallback handler in the
  exception path becomes the `SolverFailed` error. `_provide_fallback_solution` and `test_conversion`
  are not part of this model.
- `_solve_cube` and `_simple_scramble_cube` in `ui/app.py` are not modelled: they start the solvers
  and draw the result.
- The manual solver's helpers that no reachable code calls are not modelled: `_bring_edge_from_middle_to_top`,
  `_flip_bottom_edge` and `_solve_single_white_edge` are never called, and
  `_is_edge_in_correct_cross_position`, `_move_edge_to_correct_cross_position` and
  `_bring_edge_to_white_face` are called only from `_solve_single_white_edge`.
- Two manual-solver helpers are called but have no effect on the model's state or results:
  `solve` calls `_get_cube_colors` (cube/manual_solver.py:22) and never uses its result, and
  `_color_to_char` only formats debug output in `_solve_white_cross` (cube/manual_solver.py:133) and
  `_print_cube_state`.
- Python object aliasing is not modelled. `set_face` storing the caller's list, and rows shared between
  faces, are treated as values.
- App.CubeApp.CurrentSectionAndMove: takes a non-negative step. The app never calls the lookup with
  step -1.
- Bridge.RubiksCubeBridge.SolveWithRubiksCube: the solver's answer is either a (solution, table)
  pair or a plain string. Other shapes, and non-string values other than "no moves" in the table, are
  not modelled.
- ManualSolver.ManualCubeSolver.Solve: the seven-entry table is stated only for a solver whose table
  starts empty. For moves, the contract states acceptance and the joined solution, not the cube that
  replaying them reaches.
- ManualSolver.ManualCubeSolver.SolveWhiteCross: states the number of moves added and that each is
  accepted, not that the cross ends solved; the source does not guarantee that either.

## Findings

| source | as written | input that shows it | evidently intended | confidence | as-written member | corrected member |
|---|---|---|---|---|---|---|
| MainThesis/cube/rubiks_cube_bridge.py:315-323 | slice k of the seven is cut at k·n//7 but kept only when n > 7·k (the last one only when n > 49), so for 8 <= n <= 49 the moves after the last kept slice land in no step | the solution "R U R' U' R U R' U'" (8 moves): only "R" is stored, and navigation replays one move instead of eight | every move lands in exactly one step, in order, so navigation replays the whole solution | not executed | Bridge.ParsedStepsAsWrittenLoseMoves | Bridge.ParsedStepsReplayWholeSolution |
