/** `cube/rubiks_cube_bridge.py`: the glue between the cube state and the external beginner's-method
    solver. The solver itself is not part of this model; what it returns is a parameter. */
module Bridge {
  import opened Outcomes
  import opened Constants
  import opened Facelets
  import opened Execution
  import opened CubeQueries
  import opened State
  import opened Text

  /** The exceptions the bridge raises. */
  datatype BridgeError =
    | LibraryMissing               // `ImportError`: the solver library could not be imported
    | MissingColor(cell: Cell)     // `KeyError`: a sticker with no entry in the colour map
    | NoSolution                   // `ValueError`: no solution has been stored yet
    | StepOutOfRange(step: int)    // `ValueError`: a step outside 0..len(solution_moves)
    | MoveFailed(error: MoveError) // the `ValueError` a replayed move raised
    | SolverFailed                 // the solver raised; its fallback handler is not defined

  // ---------------------------------------------------------------------------------------------
  // The solver's input string
  // ---------------------------------------------------------------------------------------------

  /** The face order the solver reads: UP, LEFT, FRONT, RIGHT, BACK, DOWN. */
  const SolverOrder: seq<Face> := [Up, Left, Front, Right, Back, Down]

  /** The position of a face in the solver's order. */
  function SolverIndex(f: Face): (i: nat)
    ensures i < 6 && SolverOrder[i] == f
  {
    match f
    case Up => 0
    case Left => 1
    case Front => 2
    case Right => 3
    case Back => 4
    case Down => 5
  }

  /** `color_map[cell]`: the lower-case initial of a real colour; an unset or `Unknown` sticker has no
      entry. Each letter is the lower-case form of the letter `as_string` writes. */
  function SolverLetter(cell: Cell): (r: Option<char>)
    ensures r.None? <==> cell == None || cell == Some(Unknown)
    ensures r.Some? ==> r.value as int == Letter(cell) as int + 32
  {
    match cell
    case Some(White) => Some('w')
    case Some(Yellow) => Some('y')
    case Some(Red) => Some('r')
    case Some(Orange) => Some('o')
    case Some(Blue) => Some('b')
    case Some(Green) => Some('g')
    case _ => None
  }

  /** `Ok(prefix + t)` when the rest encodes to `t`; the rest's error otherwise. */
  function Then(prefix: string, rest: Result<string, BridgeError>): Result<string, BridgeError>
  {
    match rest
    case Ok(t) => Ok(prefix + t)
    case Err(e) => Err(e)
  }

  /** The letters of a run of stickers, looked up one at a time from the first; the lookup of the
      first sticker without a letter raises, naming that sticker. */
  function Encode(s: seq<Cell>): Result<string, BridgeError>
  {
    if s == [] then Ok("")
    else
      match SolverLetter(s[0])
      case None => Err(MissingColor(s[0]))
      case Some(ch) => Then([ch], Encode(s[1..]))
  }

  /** Encoding succeeds exactly when every sticker has a letter, and then gives one letter per
      sticker, in order; otherwise it fails naming the first sticker without one. */
  lemma {:induction false} EncodeMeaning(s: seq<Cell>)
    ensures Encode(s).Ok? <==> forall i :: 0 <= i < |s| ==> SolverLetter(s[i]).Some?
    ensures Encode(s).Ok? ==> |Encode(s).value| == |s| &&
                              forall i :: 0 <= i < |s| ==> Encode(s).value[i] == SolverLetter(s[i]).value
    ensures Encode(s).Err? ==> exists i :: 0 <= i < |s| && Encode(s).error == MissingColor(s[i]) &&
                                             SolverLetter(s[i]).None? && forall j :: 0 <= j < i ==> SolverLetter(s[j]).Some?
  {
    if s != [] {
      EncodeMeaning(s[1..]);
      assert forall i :: 1 <= i < |s| ==> s[1..][i - 1] == s[i];
      if SolverLetter(s[0]).Some? && Encode(s[1..]).Err? {
        var i :| 0 <= i < |s[1..]| && Encode(s[1..]).error == MissingColor(s[1..][i]) &&
                 SolverLetter(s[1..][i]).None? && forall j :: 0 <= j < i ==> SolverLetter(s[1..][j]).Some?;
        assert Encode(s).error == MissingColor(s[i + 1]);
      }
    }
  }

  /** What `convert_to_rubiks_cube_format` computes once the library is present: the letters of all
      54 stickers, faces in the solver's order, each face row by row. */
  function SolverFormat(c: Cube): (r: Result<string, BridgeError>)
    ensures r.Ok? ==> |r.value| == 54
  {
    EncodeMeaning(CellsIn(c, SolverOrder, 6));
    Encode(CellsIn(c, SolverOrder, 6))
  }

  /** The conversion succeeds exactly when no sticker is unset or `Unknown`. */
  lemma SolverFormatSucceeds(c: Cube)
    ensures SolverFormat(c).Ok? <==> forall p :: c.At(p) != None && c.At(p) != Some(Unknown)
  {
    var s := CellsIn(c, SolverOrder, 6);
    EncodeMeaning(s);
    if SolverFormat(c).Ok? {
      forall p
        ensures c.At(p) != None && c.At(p) != Some(Unknown)
      {
        CellsInIndex(c, SolverOrder, 6, SolverIndex(p.face), p.row, p.col);
        assert SolverLetter(s[9 * SolverIndex(p.face) + 3 * p.row + p.col]).Some?;
      }
    } else {
      var i :| 0 <= i < |s| && SolverLetter(s[i]).None?;
      var fi, r, k := i / 9, (i % 9) / 3, i % 3;
      assert i == 9 * fi + 3 * r + k;
      CellsInIndex(c, SolverOrder, 6, fi, r, k);
      assert c.At(Pos(SolverOrder[fi], r, k)) == s[i];
    }
  }

  /** Character `9 * i + 3 * r + k` of a successful conversion is the letter of cell `(r, k)` of the
      `i`-th face in the solver's order. */
  lemma SolverFormatAt(c: Cube, i: nat, r: Index, k: Index)
    requires i < 6 && SolverFormat(c).Ok?
    ensures |SolverFormat(c).value| == 54 && SolverLetter(c.Get(SolverOrder[i])[r][k]).Some?
    ensures SolverFormat(c).value[9 * i + 3 * r + k] == SolverLetter(c.Get(SolverOrder[i])[r][k]).value
  {
    CellsInIndex(c, SolverOrder, 6, i, r, k);
    EncodeMeaning(CellsIn(c, SolverOrder, 6));
  }

  /** Every valid cube converts: nine stickers of each real colour leave no unset and no `Unknown`
      sticker. */
  lemma ValidConverts(c: Cube)
    requires IsValid(c)
    ensures SolverFormat(c).Ok?
  {
    ValidIsComplete(c);
    IsCompleteAt(c);
    forall p
      ensures c.At(p) != None && c.At(p) != Some(Unknown)
    {
      OccurrencesBag(Cells(c), Some(Unknown));
      AbsentEverywhere(c, Some(Unknown), p);
    }
    SolverFormatSucceeds(c);
  }

  /** The solver string and the facelet string of `as_string` describe the same stickers: the sticker
      at `p` appears in both, in lower case in the solver string, each at its own face order's offset. */
  lemma SolverFormatMatchesAsString(c: Cube, p: Pos)
    requires SolverFormat(c).Ok?
    ensures SolverFormat(c).value[9 * SolverIndex(p.face) + 3 * p.row + p.col] as int ==
            AsString(c)[9 * FaceletIndex(p.face) + 3 * p.row + p.col] as int + 32
  {
    SolverFormatAt(c, SolverIndex(p.face), p.row, p.col);
    AsStringAt(c, FaceletIndex(p.face), p.row, p.col);
    var cell := c.Get(p.face)[p.row][p.col];
    assert SolverLetter(cell).value as int == Letter(cell) as int + 32;
  }

  /** The conversion loses nothing: two cubes with the same solver string are equal. */
  lemma SolverFormatInjective(c: Cube, d: Cube)
    requires SolverFormat(c).Ok? && SolverFormat(c) == SolverFormat(d)
    ensures c == d
  {
    forall p
      ensures c.At(p) == d.At(p)
    {
      SolverFormatAt(c, SolverIndex(p.face), p.row, p.col);
      SolverFormatAt(d, SolverIndex(p.face), p.row, p.col);
      SolverFormatSucceeds(c);
      SolverFormatSucceeds(d);
    }
    CubeExt(c, d);
  }

  // ---------------------------------------------------------------------------------------------
  // `_parse_solution_into_steps`
  // ---------------------------------------------------------------------------------------------

  /** The names of the seven solving steps, in the order the step table lists them. */
  const StepNames: seq<string> :=
    ["Yellow cross", "Yellow corners", "Second layer", "OLL Step 1", "OLL Step 2", "PLL Step 1", "PLL Step 2"]

  /** A value of a `moves_by_step` table: a string of moves, or some other object. */
  datatype StepMoves = Moves(text: string) | NotText

  /** A `moves_by_step` dictionary: names with their values, in insertion order. */
  type StepTable = seq<(string, StepMoves)>

  /** The seven slices `_parse_solution_into_steps` takes of `n` tokens, as written: the first step
      takes `moves[:n//7]` when `n > 7` and every token otherwise; step `k` of the next five takes
      `moves[k*n//7:(k+1)*n//7]` only when `n > 7*(k+1)`; the last takes `moves[6*n//7:]` only when
      `n > 49`. With eight to forty-nine tokens the trailing tokens land in no step. */
  function SectionsAsWritten(moves: seq<string>): (r: seq<seq<string>>)
    ensures |r| == 7
    ensures |moves| <= 7 ==> r[0] == moves && forall k :: 1 <= k < 7 ==> r[k] == []
  {
    var n := |moves|;
    [if n > 7 then moves[..n / 7] else moves,
     if n > 14 then moves[n / 7..2 * n / 7] else [],
     if n > 21 then moves[2 * n / 7..3 * n / 7] else [],
     if n > 28 then moves[3 * n / 7..4 * n / 7] else [],
     if n > 35 then moves[4 * n / 7..5 * n / 7] else [],
     if n > 42 then moves[5 * n / 7..6 * n / 7] else [],
     if n > 49 then moves[6 * n / 7..] else []]
  }

  /** The seven slices with every token kept: up to seven tokens all go to the first step, as in the
      source; beyond that the cuts at `k*n//7` split the tokens into seven consecutive runs. */
  function Sections(moves: seq<string>): (r: seq<seq<string>>)
    ensures |r| == 7
  {
    var n := |moves|;
    if n <= 7 then [moves, [], [], [], [], [], []]
    else
      [moves[..n / 7], moves[n / 7..2 * n / 7], moves[2 * n / 7..3 * n / 7], moves[3 * n / 7..4 * n / 7],
       moves[4 * n / 7..5 * n / 7], moves[5 * n / 7..6 * n / 7], moves[6 * n / 7..]]
  }

  /** Adding the next cut: rows that flatten to `moves[..lo]`, followed by `moves[lo..hi]`, flatten to
      `moves[..hi]`. */
  lemma FlattenStep(rows: seq<seq<string>>, k: nat, moves: seq<string>, lo: nat, hi: nat)
    requires k < |rows| && lo <= hi <= |moves|
    requires Flatten(rows[..k]) == moves[..lo] && rows[k] == moves[lo..hi]
    ensures Flatten(rows[..k + 1]) == moves[..hi]
  {
    FlattenPrefix(rows, k);
    assert moves[..lo] + moves[lo..hi] == moves[..hi];
  }

  /** Seven consecutive cuts of a sequence flatten back to the sequence. */
  lemma FlattenCuts(moves: seq<string>, a: nat, b: nat, c: nat, d: nat, e: nat, f: nat)
    requires a <= b <= c <= d <= e <= f <= |moves|
    ensures Flatten([moves[..a], moves[a..b], moves[b..c], moves[c..d], moves[d..e], moves[e..f], moves[f..]]) == moves
  {
    var rows := [moves[..a], moves[a..b], moves[b..c], moves[c..d], moves[d..e], moves[e..f], moves[f..]];
    var n := |moves|;
    assert rows[..0] == [] && moves[..0] == [];
    FlattenStep(rows, 0, moves, 0, a);
    FlattenStep(rows, 1, moves, a, b);
    FlattenStep(rows, 2, moves, b, c);
    FlattenStep(rows, 3, moves, c, d);
    FlattenStep(rows, 4, moves, d, e);
    FlattenStep(rows, 5, moves, e, f);
    FlattenStep(rows, 6, moves, f, n);
    assert rows[..7] == rows && moves[..n] == moves;
  }

  /** Every token of the corrected split lands in exactly one step, in order. */
  lemma SectionsKeepEveryMove(moves: seq<string>)
    ensures Flatten(Sections(moves)) == moves
  {
    var n := |moves|;
    if n <= 7 {
      FlattenCuts(moves, n, n, n, n, n, n);
      assert moves[..n] == moves && moves[n..] == [];
    } else {
      FlattenCuts(moves, n / 7, 2 * n / 7, 3 * n / 7, 4 * n / 7, 5 * n / 7, 6 * n / 7);
    }
  }

  /** Above forty-nine tokens the source keeps every token: its slices are the corrected ones. */
  lemma LongSolutionKeepsEveryMove(moves: seq<string>)
    requires |moves| > 49
    ensures SectionsAsWritten(moves) == Sections(moves)
    ensures Flatten(SectionsAsWritten(moves)) == moves
  {
    SectionsKeepEveryMove(moves);
  }

  /** At most seven tokens: the source and the corrected split agree. */
  lemma ShortSolutionAgrees(moves: seq<string>)
    requires |moves| <= 7
    ensures SectionsAsWritten(moves) == Sections(moves)
  {
  }

  /** Eight tokens, as written: only the first lands in a step, the other seven are dropped. */
  lemma EightMovesLoseSeven()
    ensures SectionsAsWritten(["R", "U", "R'", "U'", "R", "U", "R'", "U'"]) == [["R"], [], [], [], [], [], []]
  {
    var moves := ["R", "U", "R'", "U'", "R", "U", "R'", "U'"];
    assert moves[..1] == ["R"];
  }

  /** Seven consecutive cuts that stop short of the end flatten to a proper prefix. */
  lemma FlattenShortCuts(moves: seq<string>, rows: seq<seq<string>>, a: nat, b: nat, c: nat, d: nat, e: nat, f: nat, cut: nat)
    requires a <= b <= c <= d <= e <= f <= cut < |moves|
    requires |rows| == 7 && rows[0] == moves[..a] && rows[1] == moves[a..b] && rows[2] == moves[b..c]
    requires rows[3] == moves[c..d] && rows[4] == moves[d..e] && rows[5] == moves[e..f] && rows[6] == moves[f..cut]
    ensures Flatten(rows) < moves
  {
    var p := moves[..cut];
    FlattenCuts(p, a, b, c, d, e, f);
    assert p[..a] == moves[..a] && p[a..b] == moves[a..b] && p[b..c] == moves[b..c] && p[c..d] == moves[c..d];
    assert p[d..e] == moves[d..e] && p[e..f] == moves[e..f] && p[f..] == moves[f..cut];
    assert rows == [p[..a], p[a..b], p[b..c], p[c..d], p[d..e], p[e..f], p[f..]];
  }

  /** From eight to forty-nine tokens, as written, the steps hold a proper prefix of the tokens: at
      least the last token lands in no step. */
  lemma MidLengthSolutionLosesMoves(moves: seq<string>)
    requires 7 < |moves| <= 49
    ensures Flatten(SectionsAsWritten(moves)) < moves
  {
    var n := |moves|;
    var rows := SectionsAsWritten(moves);
    var q1, q2, q3, q4, q5, q6 := n / 7, 2 * n / 7, 3 * n / 7, 4 * n / 7, 5 * n / 7, 6 * n / 7;
    if n <= 14 {
      FlattenShortCuts(moves, rows, q1, q1, q1, q1, q1, q1, q1);
    } else if n <= 21 {
      FlattenShortCuts(moves, rows, q1, q2, q2, q2, q2, q2, q2);
    } else if n <= 28 {
      FlattenShortCuts(moves, rows, q1, q2, q3, q3, q3, q3, q3);
    } else if n <= 35 {
      FlattenShortCuts(moves, rows, q1, q2, q3, q4, q4, q4, q4);
    } else if n <= 42 {
      FlattenShortCuts(moves, rows, q1, q2, q3, q4, q5, q5, q5);
    } else {
      FlattenShortCuts(moves, rows, q1, q2, q3, q4, q5, q6, q6);
    }
  }

  // ---------------------------------------------------------------------------------------------
  // Post-processing of the solver's result
  // ---------------------------------------------------------------------------------------------

  /** `s.replace('`', "'")`: the solver writes primes as backticks. */
  function FixPrimes(s: string): (r: string)
    ensures '`' !in r
    ensures |r| == |s|
  {
    ReplaceCharIdempotent(s, '`', '\'');
    ReplaceChar(s, '`', '\'')
  }

  /** The table after the in-place rewrite: every string value has its backticks replaced; names,
      order and non-string values are unchanged. */
  function FixTable(t: StepTable): (r: StepTable)
    ensures |r| == |t|
    ensures forall i :: 0 <= i < |t| ==> r[i].0 == t[i].0 && r[i].1.Moves? == t[i].1.Moves?
    ensures forall i :: 0 <= i < |t| && t[i].1.Moves? ==> r[i].1.text == FixPrimes(t[i].1.text)
  {
    if t == [] then []
    else
      var (name, moves) := t[|t| - 1];
      FixTable(t[..|t| - 1]) + [(name, if moves.Moves? then Moves(FixPrimes(moves.text)) else moves)]
  }

  /** The moves `solve_with_rubiks_cube` stores for navigation: the split tokens of every non-blank
      string value, in table order. */
  function NavigationMoves(t: StepTable): (r: seq<string>)
    ensures forall i :: 0 <= i < |r| ==> IsWord(r[i])
  {
    if t == [] then [] else NavigationMoves(t[..|t| - 1]) + Tokens(t[|t| - 1].1)
  }

  /** The tokens one table value contributes to navigation: those of a non-blank string, else none. */
  function Tokens(moves: StepMoves): (r: seq<string>)
    ensures forall i :: 0 <= i < |r| ==> IsWord(r[i])
  {
    if moves.Moves? && !IsBlank(moves.text) then Split(moves.text) else []
  }

  /** Navigation over one more table entry adds that entry's tokens. */
  lemma NavigationSnoc(t: StepTable, entry: (string, StepMoves))
    ensures NavigationMoves(t + [entry]) == NavigationMoves(t) + Tokens(entry.1)
  {
    assert (t + [entry])[..|t|] == t;
  }

  /** Stored navigation moves never hold a backtick: every string value was rewritten first. */
  lemma {:induction false} NavigationHasNoBackticks(t: StepTable)
    ensures forall i :: 0 <= i < |NavigationMoves(FixTable(t))| ==> '`' !in NavigationMoves(FixTable(t))[i]
  {
    if t != [] {
      var f := FixTable(t);
      var init := t[..|t| - 1];
      NavigationHasNoBackticks(init);
      assert f[..|f| - 1] == FixTable(init);
      var moves := f[|f| - 1].1;
      if moves.Moves? {
        SplitExcludes(moves.text, '`');
      }
    }
  }

  /** Rewriting the table a second time changes nothing. */
  lemma FixTableIdempotent(t: StepTable)
    ensures FixTable(FixTable(t)) == FixTable(t)
  {
    var f := FixTable(t);
    forall i | 0 <= i < |f| && f[i].1.Moves?
      ensures FixPrimes(f[i].1.text) == f[i].1.text
    {
      ReplaceCharIdempotent(t[i].1.text, '`', '\'');
    }
    assert forall i :: 0 <= i < |f| ==> FixTable(f)[i] == f[i];
  }

  /** A table of the given names with each section's moves joined by single spaces, in order. */
  function Tabulate(names: seq<string>, secs: seq<seq<string>>): (t: StepTable)
    requires |names| == |secs|
    ensures |t| == |secs|
    ensures forall i :: 0 <= i < |t| ==> t[i] == (names[i], Moves(Join(" ", secs[i])))
  {
    if secs == [] then []
    else Tabulate(names[..|names| - 1], secs[..|secs| - 1]) + [(names[|names| - 1], Moves(Join(" ", secs[|secs| - 1])))]
  }

  /** One joined section read back: the tokens of a non-blank value are the section's moves, and a
      blank value stands for an empty section. */
  lemma JoinedSectionTokens(last: seq<string>)
    requires forall w :: w in last ==> IsWord(w)
    ensures Tokens(Moves(Join(" ", last))) == last
  {
    assert forall i :: 0 <= i < |last| ==> IsWord(last[i]) by {
      forall i | 0 <= i < |last|
        ensures IsWord(last[i])
      {
        assert last[i] in last;
      }
    }
    SplitJoin(last);
    SplitEmptyIffBlank(Join(" ", last));
  }

  /** Splitting off the last section of a flattening whose tokens are all words. */
  lemma FlattenSnocWords(secs: seq<seq<string>>)
    requires secs != [] && forall w :: w in Flatten(secs) ==> IsWord(w)
    ensures Flatten(secs) == Flatten(secs[..|secs| - 1]) + secs[|secs| - 1]
    ensures forall w :: w in Flatten(secs[..|secs| - 1]) ==> IsWord(w)
    ensures forall w :: w in secs[|secs| - 1] ==> IsWord(w)
  {
    FlattenPrefix(secs, |secs| - 1);
    assert secs[..|secs|] == secs;
  }

  /** Reading navigation moves back out of a table of joined sections gives every section's moves in
      order, when every move is a single word. */
  lemma {:induction false} NavigationOfTabulate(names: seq<string>, secs: seq<seq<string>>)
    requires |names| == |secs|
    requires forall w :: w in Flatten(secs) ==> IsWord(w)
    ensures NavigationMoves(Tabulate(names, secs)) == Flatten(secs)
  {
    if secs != [] {
      var n := |secs|;
      var init, last := secs[..n - 1], secs[n - 1];
      FlattenSnocWords(secs);
      NavigationOfTabulate(names[..n - 1], init);
      JoinedSectionTokens(last);
      NavigationSnoc(Tabulate(names[..n - 1], init), (names[n - 1], Moves(Join(" ", last))));
    }
  }

  /** `_parse_solution_into_steps` as written: the seven named steps, each holding its slice of the
      solution's tokens joined by spaces. */
  function ParseSolutionIntoStepsAsWritten(solution: string): (t: StepTable)
    ensures |t| == 7 && forall i :: 0 <= i < 7 ==> t[i].0 == StepNames[i] && t[i].1.Moves?
  {
    Tabulate(StepNames, SectionsAsWritten(Split(solution)))
  }

  /** The same table with the corrected slices. */
  function ParseSolutionIntoSteps(solution: string): (t: StepTable)
    ensures |t| == 7 && forall i :: 0 <= i < 7 ==> t[i].0 == StepNames[i] && t[i].1.Moves?
  {
    Tabulate(StepNames, Sections(Split(solution)))
  }

  /** Navigating the corrected table replays exactly the solution's tokens. */
  lemma ParsedStepsReplayWholeSolution(solution: string)
    ensures NavigationMoves(ParseSolutionIntoSteps(solution)) == Split(solution)
  {
    var moves := Split(solution);
    SectionsKeepEveryMove(moves);
    NavigationOfTabulate(StepNames, Sections(moves));
  }

  /** Navigating the table built as written replays only a proper prefix of a solution of eight to
      forty-nine tokens. */
  lemma ParsedStepsAsWrittenLoseMoves(solution: string)
    requires 7 < |Split(solution)| <= 49
    ensures NavigationMoves(ParseSolutionIntoStepsAsWritten(solution)) < Split(solution)
  {
    var moves := Split(solution);
    MidLengthSolutionLosesMoves(moves);
    var secs := SectionsAsWritten(moves);
    forall w | w in Flatten(secs)
      ensures IsWord(w)
    {
      var i :| 0 <= i < |Flatten(secs)| && Flatten(secs)[i] == w;
      assert moves[i] == w;
    }
    NavigationOfTabulate(StepNames, secs);
  }

  // ---------------------------------------------------------------------------------------------
  // Replaying the stored solution
  // ---------------------------------------------------------------------------------------------

  /** What `get_state_at_step` returns for a stored solution: the original state after the first
      `step` moves; a step outside `0..len(moves)` is refused, and a move the engine rejects raises. */
  function StepState(original: Cube, moves: seq<string>, step: int): (r: Result<Cube, BridgeError>)
  {
    if step < 0 || step > |moves| then Err(StepOutOfRange(step))
    else
      match ApplyMoves(original, moves[..step])
      case Ok(d) => Ok(d)
      case Err(e) => Err(MoveFailed(e))
  }

  /** A step is refused as out of range exactly when it lies outside `0..len(moves)`. */
  lemma StepStateRange(original: Cube, moves: seq<string>, step: int)
    ensures StepState(original, moves, step) == Err(StepOutOfRange(step)) <==> step < 0 || step > |moves|
  {
  }

  /** Step zero is the original state and the last step is the whole replay. */
  lemma StepStateEnds(original: Cube, moves: seq<string>)
    ensures StepState(original, moves, 0) == Ok(original)
    ensures ApplyMoves(original, moves).Ok? ==> StepState(original, moves, |moves|) == Ok(ApplyMoves(original, moves).value)
  {
    assert moves[..0] == [];
    assert moves[..|moves|] == moves;
  }

  /** Moving one step forward applies exactly the next move. */
  lemma StepStateNext(original: Cube, moves: seq<string>, step: nat, d: Cube)
    requires step < |moves| && StepState(original, moves, step) == Ok(d)
    ensures StepState(original, moves, step + 1) ==
            match ApplyMove(d, moves[step])
            case Ok(e) => Ok(e)
            case Err(e) => Err(MoveFailed(e))
  {
    ReplaySnoc(original, moves, step, d);
  }

  /** When every stored move is accepted, every step in range can be shown, and each keeps the
      original's count of every colour. */
  lemma StepStateAccepted(original: Cube, moves: seq<string>, step: nat, color: Color)
    requires AllAccepted(moves) && step <= |moves|
    ensures StepState(original, moves, step).Ok?
    ensures ColorCount(StepState(original, moves, step).value, color) == ColorCount(original, color)
  {
    AllAcceptedEvery(moves);
    AllAcceptedEvery(moves[..step]);
    MovesKeepColorCount(original, moves[..step], color);
  }

  // ---------------------------------------------------------------------------------------------
  // The bridge object
  // ---------------------------------------------------------------------------------------------

  /** What `solve_3x3` hands back: a pair of a solution string and a step table, or some other object,
      here already turned into its string (`str(solution)`, or "" for a false value). A falsy first
      element or table is represented by "" and the empty table. */
  datatype SolverReturn = Pair(solution: string, steps: StepTable) | Other(text: string)

  /** The return value of `solve_with_rubiks_cube` for a solver result. */
  function SolvedTable(ret: SolverReturn): (r: (string, StepTable))
    ensures '`' !in r.0
    ensures ret.Other? ==> r.1 == [("Complete Solution", Moves(r.0))]
  {
    match ret
    case Pair(s, t) => (FixPrimes(s), FixTable(t))
    case Other(s) => (FixPrimes(s), [("Complete Solution", Moves(FixPrimes(s)))])
  }

  /** The moves `solve_with_rubiks_cube` stores for navigation. */
  function StoredMoves(ret: SolverReturn): (r: seq<string>)
    ensures forall i :: 0 <= i < |r| ==> IsWord(r[i]) && '`' !in r[i]
  {
    match ret
    case Pair(_, t) =>
      NavigationHasNoBackticks(t);
      NavigationMoves(FixTable(t))
    case Other(s) =>
      var fixed := FixPrimes(s);
      SplitExcludes(fixed, '`');
      if fixed != "" then Split(fixed) else []
  }

  /** The step table `solve_with_rubiks_cube` stores for the step display. */
  function StoredTable(ret: SolverReturn): (r: StepTable)
  {
    match ret
    case Pair(_, t) => FixTable(t)
    case Other(_) => []
  }

  /** For a plain-string result the stored moves are the tokens of the returned string. */
  lemma OtherStoresTokens(s: string)
    ensures StoredMoves(Other(s)) == Split(SolvedTable(Other(s)).0)
  {
  }

  /** The bridge object: whether the solver library imported, and the solution it stored last. */
  class RubiksCubeBridge {
    const available: bool
    /** `solution_moves`, absent until a solve succeeds. */
    var solutionMoves: Option<seq<string>>
    /** `original_cube_state`: a private copy of the state that was solved. */
    var original: CubeState?
    /** `moves_by_step`, absent until a solve succeeds. */
    var movesByStep: Option<StepTable>

    constructor (available: bool)
      ensures this.available == available
      ensures solutionMoves.None? && original == null && movesByStep.None?
    {
      this.available := available;
      solutionMoves := None;
      original := null;
      movesByStep := None;
    }

    /** `convert_to_rubiks_cube_format`: the 54 solver letters, faces in the solver's order, or the
        error the conversion raises. The source's mirrored branch for the B, U and L faces reads the
        cells exactly as the other branch does, so one loop serves both. */
    method ConvertToRubiksCubeFormat(state: CubeState) returns (r: Result<string, BridgeError>)
      ensures r == if available then SolverFormat(state.faces) else Err(LibraryMissing)
    {
      if !available {
        return Err(LibraryMissing);
      }
      ghost var all := CellsIn(state.faces, SolverOrder, 6);
      var result := "";
      assert all[0..] == all;
      assert Then(result, Encode(all)) == Encode(all) by {
        if Encode(all).Ok? {
          assert result + Encode(all).value == Encode(all).value;
        }
      }
      for i := 0 to 6
        invariant Then(result, Encode(all[9 * i..])) == Encode(all)
      {
        var grid := state.GetFace(SolverOrder[i]);
        CellsInDrop(state.faces, SolverOrder, 6, i);
        EncodeSplit(result, FaceCells(grid), all[9 * (i + 1)..]);
        var faceResult := AppendFace(result, grid);
        if faceResult.Err? {
          return Err(faceResult.error);
        }
        result := faceResult.value;
      }
      assert all[54..] == [];
      assert result + "" == result;
      return Ok(result);
    }

    /** The row and column loops of `convert_to_rubiks_cube_format` over one face: the letters of its
        nine stickers appended to `prefix`, or the error of the first sticker without a letter. */
    static method AppendFace(prefix: string, g: Grid) returns (r: Result<string, BridgeError>)
      ensures r == Then(prefix, Encode(FaceCells(g)))
    {
      ghost var cells := FaceCells(g);
      var result := prefix;
      assert cells[0..] == cells;
      for row := 0 to 3
        invariant Then(result, Encode(cells[3 * row..])) == Then(prefix, Encode(cells))
      {
        for col := 0 to 3
          invariant Then(result, Encode(cells[3 * row + col..])) == Then(prefix, Encode(cells))
        {
          var cell := g[row][col];
          var pos := 3 * row + col;
          assert cells[pos..][0] == cell && cells[pos..][1..] == cells[pos + 1..];
          match SolverLetter(cell)
          case None =>
            return Err(MissingColor(cell));
          case Some(ch) =>
            ThenAppend(result, ch, Encode(cells[pos + 1..]));
            result := result + [ch];
        }
      }
      assert cells[9..] == [];
      assert result + "" == result;
      return Ok(result);
    }

    /** `solve_with_rubiks_cube`, with the solver's answer `ret` as a parameter (`None` when the
        solver raises, which ends in a call to a handler that does not exist). A state that does not
        convert raises before the solver runs; a successful solve rewrites the answer's backticks,
        stores the navigation moves, a copy of the state and the step table, and returns the table. */
    method SolveWithRubiksCube(state: CubeState, ret: Option<SolverReturn>) returns (r: Result<(string, StepTable), BridgeError>)
      modifies this
      ensures r.Err? ==> solutionMoves == old(solutionMoves) && original == old(original) && movesByStep == old(movesByStep)
      ensures !available ==> r == Err(LibraryMissing)
      ensures available && SolverFormat(state.faces).Err? ==> r == Err(SolverFormat(state.faces).error)
      ensures available && SolverFormat(state.faces).Ok? && ret.None? ==> r == Err(SolverFailed)
      ensures available && SolverFormat(state.faces).Ok? && ret.Some? ==>
              r == Ok(SolvedTable(ret.value)) && solutionMoves == Some(StoredMoves(ret.value)) &&
              original != null && fresh(original) && original.faces == state.faces &&
              movesByStep == Some(StoredTable(ret.value))
    {
      var converted := ConvertToRubiksCubeFormat(state);
      if converted.Err? {
        return Err(converted.error);
      }
      if ret.None? {
        return Err(SolverFailed);
      }
      match ret.value
      case Pair(solution, steps) =>
        var solutionStr := FixPrimes(solution);
        var table := FixStepTable(steps);
        var navigation := CollectNavigation(table);
        solutionMoves := Some(navigation);
        original := state.Copy();
        movesByStep := Some(table);
        return Ok((solutionStr, table));
      case Other(text) =>
        var solutionStr := FixPrimes(text);
        solutionMoves := Some(if solutionStr != "" then Split(solutionStr) else []);
        original := state.Copy();
        movesByStep := Some([]);
        return Ok((solutionStr, [("Complete Solution", Moves(solutionStr))]));
    }

    /** The loop of `solve_with_rubiks_cube` that rewrites the backticks of every string value of
        the step table in place. */
    static method FixStepTable(steps: StepTable) returns (table: StepTable)
      ensures table == FixTable(steps)
    {
      table := steps;
      for i := 0 to |table|
        invariant table == FixTable(steps[..i]) + steps[i..]
      {
        if table[i].1.Moves? {
          table := table[i := (table[i].0, Moves(FixPrimes(table[i].1.text)))];
        }
        FixTableSnoc(steps, i, table);
      }
      assert steps[..|steps|] == steps;
    }

    /** The loop of `solve_with_rubiks_cube` that gathers the tokens of every non-blank string value
        of the step table, in order. */
    static method CollectNavigation(table: StepTable) returns (navigation: seq<string>)
      ensures navigation == NavigationMoves(table)
    {
      navigation := [];
      for i := 0 to |table|
        invariant navigation == NavigationMoves(table[..i])
      {
        assert table[..i + 1][..i] == table[..i];
        var moves := table[i].1;
        if moves.Moves? && !IsBlank(moves.text) {
          navigation := navigation + Split(moves.text);
        }
      }
      assert table[..|table|] == table;
    }

    /** `get_state_at_step`: a fresh state holding the stored original after the first `step`
        stored moves. Nothing the bridge holds changes. */
    method GetStateAtStep(step: int) returns (r: Result<CubeState, BridgeError>)
      ensures r.Ok? ==> fresh(r.value) && solutionMoves.Some? && original != null &&
                        StepState(original.faces, solutionMoves.value, step) == Ok(r.value.faces)
      ensures r.Err? ==> if solutionMoves.None? || original == null then r.error == NoSolution
                         else StepState(original.faces, solutionMoves.value, step) == Err(r.error)
    {
      if solutionMoves.None? || original == null {
        return Err(NoSolution);
      }
      var moves := solutionMoves.value;
      if step < 0 || step > |moves| {
        return Err(StepOutOfRange(step));
      }
      var current := original.Copy();
      assert moves[..0] == [];
      for i := 0 to step
        invariant fresh(current)
        invariant ApplyMoves(original.faces, moves[..i]) == Ok(current.faces)
      {
        if i < |moves| {
          ghost var before := current.faces;
          var outcome := current.Move(moves[i]);
          ReplaySnoc(original.faces, moves, i, before);
          if outcome.Fail? {
            ReplayStopsAtError(original.faces, moves, i + 1, step);
            return Err(MoveFailed(outcome.error));
          }
        }
      }
      return Ok(current);
    }

    /** `solution_steps`: the stored navigation moves, or none before a solve. */
    function SolutionSteps(): (r: seq<string>)
      reads this
      ensures solutionMoves.Some? ==> r == solutionMoves.value
      ensures solutionMoves.None? ==> r == []
    {
      if solutionMoves.Some? then solutionMoves.value else []
    }
  }

  /** Appending one letter to the encoded prefix. */
  lemma ThenAppend(prefix: string, ch: char, rest: Result<string, BridgeError>)
    ensures Then(prefix, Then([ch], rest)) == Then(prefix + [ch], rest)
  {
    if rest.Ok? {
      assert prefix + ([ch] + rest.value) == prefix + [ch] + rest.value;
    }
  }

  /** One step of the in-place rewrite of the table. */
  lemma FixTableSnoc(steps: StepTable, i: nat, table: StepTable)
    requires i < |steps|
    requires table == (FixTable(steps[..i]) + steps[i..])[i := FixTable(steps[..i + 1])[i]]
             || (table == FixTable(steps[..i]) + steps[i..] && !steps[i].1.Moves?)
    ensures table == FixTable(steps[..i + 1]) + steps[i + 1..]
  {
    assert steps[..i + 1][..i] == steps[..i];
  }

  /** The stickers from face `i` on are face `i`'s nine followed by the stickers after it. */
  lemma CellsInDrop(c: Cube, fs: seq<Face>, n: nat, i: nat)
    requires i < n <= |fs|
    ensures CellsIn(c, fs, n)[9 * i..] == FaceCells(c.Get(fs[i])) + CellsIn(c, fs, n)[9 * (i + 1)..]
  {
    var s := CellsIn(c, fs, n);
    var g := c.Get(fs[i]);
    forall j | 0 <= j < 9
      ensures s[9 * i + j] == FaceCells(g)[j]
    {
      CellsInIndex(c, fs, n, i, j / 3, j % 3);
    }
    assert s[9 * i..] == s[9 * i..9 * i + 9] + s[9 * (i + 1)..];
    assert s[9 * i..9 * i + 9] == FaceCells(g);
  }

  /** Encoding a concatenation: encode the first part and, when that succeeds, go on with the second. */
  lemma {:induction false} EncodeSplit(prefix: string, a: seq<Cell>, b: seq<Cell>)
    ensures Then(prefix, Encode(a + b)) ==
            match Then(prefix, Encode(a))
            case Err(e) => Err(e)
            case Ok(p) => Then(p, Encode(b))
    decreases |a|
  {
    if a == [] {
      assert a + b == b;
      assert prefix + "" == prefix;
    } else {
      assert (a + b)[0] == a[0] && (a + b)[1..] == a[1..] + b;
      match SolverLetter(a[0])
      case None =>
      case Some(ch) =>
        ThenAppend(prefix, ch, Encode(a[1..] + b));
        ThenAppend(prefix, ch, Encode(a[1..]));
        EncodeSplit(prefix + [ch], a[1..], b);
    }
  }
}
