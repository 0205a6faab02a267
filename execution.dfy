/** What applying a move does to the value of a cube state (`cube/execution.py`).
    The in-place procedures themselves are the methods of `State.CubeState`; the functions here are
    the values those methods are proved to compute. */
module Execution {
  import opened Outcomes
  import opened Constants
  import opened Facelets
  import opened Movements
  import Notation

  /** A line of three stickers on one face: row `line` or column `line`, indexed by `i` in the order
      the source's loops visit it (`2 - i` when `reversed`). */
  datatype Strip = Strip(face: Face, isRow: bool, line: Index, reversed: bool)

  function Row(f: Face, line: Index): Strip { Strip(f, true, line, false) }
  function RowReversed(f: Face, line: Index): Strip { Strip(f, true, line, true) }
  function Col(f: Face, line: Index): Strip { Strip(f, false, line, false) }
  function ColReversed(f: Face, line: Index): Strip { Strip(f, false, line, true) }

  /** The position the loop reaches at step `i` of strip `s`. */
  function StripAt(s: Strip, i: Index): (p: Pos)
    ensures p.face == s.face
  {
    var j: Index := if s.reversed then 2 - i else i;
    if s.isRow then Pos(s.face, s.line, j) else Pos(s.face, j, s.line)
  }

  predicate OnStrip(s: Strip, q: Pos)
  {
    q.face == s.face && (if s.isRow then q.row == s.line else q.col == s.line)
  }

  /** The step at which the loop over strip `s` reaches `q`. */
  function StripIndex(s: Strip, q: Pos): (i: Index)
    requires OnStrip(s, q)
    ensures StripAt(s, i) == q
  {
    var j := if s.isRow then q.col else q.row;
    if s.reversed then 2 - j else j
  }

  /** Every position a strip reaches lies on it, at the step that reached it. */
  lemma StripAtIndex(s: Strip, i: Index)
    ensures OnStrip(s, StripAt(s, i))
    ensures StripIndex(s, StripAt(s, i)) == i
  {
  }

  /** Four strips whose stickers rotate: at each step `i`, `p1[i]` takes `p2[i]`'s sticker, `p2[i]`
      takes `p3[i]`'s, `p3[i]` takes `p4[i]`'s and `p4[i]` takes the saved copy of `p1[i]`'s. This
      is the shape of every branch of `update_adjacent_faces` and of `_apply_middle_row_move`. */
  datatype Cycle = Cycle(p1: Strip, p2: Strip, p3: Strip, p4: Strip)

  /** The same four strips turned the other way: `p1` takes `p4`'s stickers. */
  function Reverse(t: Cycle): Cycle
  {
    Cycle(t.p1, t.p4, t.p3, t.p2)
  }

  /** The faces a cycle touches. */
  function CycleFaces(t: Cycle): set<Face>
  {
    {t.p1.face, t.p2.face, t.p3.face, t.p4.face}
  }

  /** The four strips lie on four different faces, so no sticker is touched twice. */
  predicate WellFormed(t: Cycle)
  {
    t.p1.face != t.p2.face && t.p1.face != t.p3.face && t.p1.face != t.p4.face &&
    t.p2.face != t.p3.face && t.p2.face != t.p4.face && t.p3.face != t.p4.face
  }

  /** The strips `update_adjacent_faces` cycles when `face` turns; `modifier == "'"` selects the
      counter-clockwise branch and every other modifier the clockwise one. */
  function AdjacentCycle(face: Face, modifier: string): (t: Cycle)
    ensures WellFormed(t) && face !in CycleFaces(t)
  {
    var ccw := modifier == "'";
    match face
    case Front =>
      if ccw then Cycle(Row(Up, 2), Col(Right, 0), RowReversed(Down, 0), ColReversed(Left, 2))
      else Cycle(Row(Up, 2), ColReversed(Left, 2), RowReversed(Down, 0), Col(Right, 0))
    case Right =>
      if ccw then Cycle(Col(Up, 2), ColReversed(Back, 0), Col(Down, 2), Col(Front, 2))
      else Cycle(Col(Up, 2), Col(Front, 2), Col(Down, 2), ColReversed(Back, 0))
    case Up =>
      if ccw then Cycle(Row(Front, 0), Row(Left, 0), Row(Back, 0), Row(Right, 0))
      else Cycle(Row(Front, 0), Row(Right, 0), Row(Back, 0), Row(Left, 0))
    case Left =>
      if ccw then Cycle(Col(Up, 0), Col(Front, 0), Col(Down, 0), ColReversed(Back, 2))
      else Cycle(Col(Up, 0), ColReversed(Back, 2), Col(Down, 0), Col(Front, 0))
    case Down =>
      if ccw then Cycle(Row(Front, 2), Row(Right, 2), Row(Back, 2), Row(Left, 2))
      else Cycle(Row(Front, 2), Row(Left, 2), Row(Back, 2), Row(Right, 2))
    case Back =>
      if ccw then Cycle(Row(Up, 0), ColReversed(Left, 0), RowReversed(Down, 2), Col(Right, 2))
      else Cycle(Row(Up, 0), Col(Right, 2), RowReversed(Down, 2), ColReversed(Left, 0))
  }

  /** The counter-clockwise branch of every face moves the same strips as the clockwise one, the
      other way round. */
  lemma CounterClockwiseIsReverse(face: Face, modifier: string)
    requires modifier != "'"
    ensures AdjacentCycle(face, "'") == Reverse(AdjacentCycle(face, modifier))
  {
  }

  /** The middle rows `_apply_middle_row_move` cycles. */
  function MiddleCycle(counterclockwise: bool): (t: Cycle)
    ensures WellFormed(t) && CycleFaces(t) == {Front, Right, Back, Left}
  {
    if counterclockwise then Cycle(Row(Front, 1), Row(Left, 1), Row(Back, 1), Row(Right, 1))
    else Cycle(Row(Front, 1), Row(Right, 1), Row(Back, 1), Row(Left, 1))
  }

  /** One pass of the loop body at step `i`: three stickers copied along the cycle, then the saved
      `temp` written to the last strip. Each write reads the state as the previous write left it. */
  function CycleStep(c: Cube, t: Cycle, i: Index, temp: Cell): Cube
  {
    var a, b, d, e := StripAt(t.p1, i), StripAt(t.p2, i), StripAt(t.p3, i), StripAt(t.p4, i);
    var c1 := c.Set(a, c.At(b));
    var c2 := c1.Set(b, c1.At(d));
    var c3 := c2.Set(d, c2.At(e));
    c3.Set(e, temp)
  }

  /** The whole loop: `temp` saves strip `p1` of the starting state, then passes 0, 1 and 2 run
      in order, each on the state the previous one left. */
  function ApplyCycle(c: Cube, t: Cycle): Cube
  {
    var s1 := CycleStep(c, t, 0, c.At(StripAt(t.p1, 0)));
    var s2 := CycleStep(s1, t, 1, c.At(StripAt(t.p1, 1)));
    CycleStep(s2, t, 2, c.At(StripAt(t.p1, 2)))
  }

  /** Where the sticker that a cycle puts at `q` comes from; `q` itself when it is on no strip. */
  function CycleSource(t: Cycle, q: Pos): Pos
  {
    if OnStrip(t.p1, q) then StripAt(t.p2, StripIndex(t.p1, q))
    else if OnStrip(t.p2, q) then StripAt(t.p3, StripIndex(t.p2, q))
    else if OnStrip(t.p3, q) then StripAt(t.p4, StripIndex(t.p3, q))
    else if OnStrip(t.p4, q) then StripAt(t.p1, StripIndex(t.p4, q))
    else q
  }

  /** `q` lies on a strip of `t` at a step below `n`: the first `n` passes have already moved it. */
  predicate Moved(t: Cycle, q: Pos, n: nat)
  {
    (OnStrip(t.p1, q) && StripIndex(t.p1, q) < n) || (OnStrip(t.p2, q) && StripIndex(t.p2, q) < n) ||
    (OnStrip(t.p3, q) && StripIndex(t.p3, q) < n) || (OnStrip(t.p4, q) && StripIndex(t.p4, q) < n)
  }

  /** One pass moves exactly the four stickers of step `i`. */
  lemma CycleStepAt(c: Cube, t: Cycle, i: Index, temp: Cell, q: Pos)
    requires WellFormed(t)
    ensures CycleStep(c, t, i, temp).At(q) ==
            if q == StripAt(t.p1, i) then c.At(StripAt(t.p2, i))
            else if q == StripAt(t.p2, i) then c.At(StripAt(t.p3, i))
            else if q == StripAt(t.p3, i) then c.At(StripAt(t.p4, i))
            else if q == StripAt(t.p4, i) then temp
            else c.At(q)
  {
  }

  /** Where the four positions of step `i` take their stickers from, and when they are moved. */
  lemma StepSources(t: Cycle, i: Index, n: nat)
    requires WellFormed(t)
    ensures CycleSource(t, StripAt(t.p1, i)) == StripAt(t.p2, i)
    ensures CycleSource(t, StripAt(t.p2, i)) == StripAt(t.p3, i)
    ensures CycleSource(t, StripAt(t.p3, i)) == StripAt(t.p4, i)
    ensures CycleSource(t, StripAt(t.p4, i)) == StripAt(t.p1, i)
    ensures Moved(t, StripAt(t.p1, i), n) <==> i < n
    ensures Moved(t, StripAt(t.p2, i), n) <==> i < n
    ensures Moved(t, StripAt(t.p3, i), n) <==> i < n
    ensures Moved(t, StripAt(t.p4, i), n) <==> i < n
  {
    StripAtIndex(t.p1, i);
    StripAtIndex(t.p2, i);
    StripAtIndex(t.p3, i);
    StripAtIndex(t.p4, i);
  }

  /** A position that is not one of the four of step `i` is moved by the first `i + 1` passes
      exactly when it is moved by the first `i`. */
  lemma MovedStep(t: Cycle, i: Index, q: Pos)
    requires WellFormed(t)
    requires q != StripAt(t.p1, i) && q != StripAt(t.p2, i) && q != StripAt(t.p3, i) && q != StripAt(t.p4, i)
    ensures Moved(t, q, i + 1) <==> Moved(t, q, i)
  {
  }

  /** The sticker at `q` after `n` passes, as the loop invariant describes it. */
  function AfterPasses(c0: Cube, t: Cycle, n: nat, q: Pos): Cell
  {
    if Moved(t, q, n) then c0.At(CycleSource(t, q)) else c0.At(q)
  }

  /** One pass keeps the invariant: if `c` is as the first `i` passes leave `c0` and `c'` is `c` after
      pass `i`, then `c'` is as the first `i + 1` passes leave `c0` at `q`. */
  lemma PassKeepsInvariant(c0: Cube, c: Cube, c': Cube, t: Cycle, i: Index, q: Pos)
    requires WellFormed(t)
    requires forall x :: c.At(x) == AfterPasses(c0, t, i, x)
    requires c'.At(q) ==
             if q == StripAt(t.p1, i) then c.At(StripAt(t.p2, i))
             else if q == StripAt(t.p2, i) then c.At(StripAt(t.p3, i))
             else if q == StripAt(t.p3, i) then c.At(StripAt(t.p4, i))
             else if q == StripAt(t.p4, i) then c0.At(StripAt(t.p1, i))
             else c.At(q)
    ensures c'.At(q) == AfterPasses(c0, t, i + 1, q)
  {
    var a, b, d, e := StripAt(t.p1, i), StripAt(t.p2, i), StripAt(t.p3, i), StripAt(t.p4, i);
    StepSources(t, i, i + 1);
    StepSources(t, i, i);
    if q == a {
      assert c.At(b) == AfterPasses(c0, t, i, b);
    } else if q == b {
      assert c.At(d) == AfterPasses(c0, t, i, d);
    } else if q == d {
      assert c.At(e) == AfterPasses(c0, t, i, e);
    } else if q == e {
    } else {
      MovedStep(t, i, q);
      assert c.At(q) == AfterPasses(c0, t, i, q);
    }
  }

  /** Pass `i` keeps the loop invariant at every position. */
  lemma PassKeepsInvariantEverywhere(c0: Cube, c: Cube, t: Cycle, i: Index)
    requires WellFormed(t)
    requires forall x :: c.At(x) == AfterPasses(c0, t, i, x)
    ensures forall q :: CycleStep(c, t, i, c0.At(StripAt(t.p1, i))).At(q) == AfterPasses(c0, t, i + 1, q)
  {
    var temp := c0.At(StripAt(t.p1, i));
    forall q
      ensures CycleStep(c, t, i, temp).At(q) == AfterPasses(c0, t, i + 1, q)
    {
      CycleStepAt(c, t, i, temp, q);
      PassKeepsInvariant(c0, c, CycleStep(c, t, i, temp), t, i, q);
    }
  }

  /** After all three passes every position holds the original sticker of its source. */
  lemma LastPass(c0: Cube, c: Cube, t: Cycle)
    requires WellFormed(t)
    requires forall x :: c.At(x) == AfterPasses(c0, t, 2, x)
    ensures forall q :: CycleStep(c, t, 2, c0.At(StripAt(t.p1, 2))).At(q) == c0.At(CycleSource(t, q))
  {
    PassKeepsInvariantEverywhere(c0, c, t, 2);
  }

  /** Passes 0 and 1 leave the state the invariant describes. */
  lemma FirstPasses(c: Cube, t: Cycle)
    requires WellFormed(t)
    ensures var s1 := CycleStep(c, t, 0, c.At(StripAt(t.p1, 0)));
            forall x :: CycleStep(s1, t, 1, c.At(StripAt(t.p1, 1))).At(x) == AfterPasses(c, t, 2, x)
  {
    PassKeepsInvariantEverywhere(c, c, t, 0);
    PassKeepsInvariantEverywhere(c, CycleStep(c, t, 0, c.At(StripAt(t.p1, 0))), t, 1);
  }

  /** The whole loop puts at every position the original sticker of its source. */
  lemma ApplyCycleAt(c: Cube, t: Cycle)
    requires WellFormed(t)
    ensures forall q :: ApplyCycle(c, t).At(q) == c.At(CycleSource(t, q))
  {
    var s1 := CycleStep(c, t, 0, c.At(StripAt(t.p1, 0)));
    var s2 := CycleStep(s1, t, 1, c.At(StripAt(t.p1, 1)));
    FirstPasses(c, t);
    LastPass(c, s2, t);
  }

  /** A cycle moves stickers only among its own strips. */
  lemma CycleSourceFace(t: Cycle, q: Pos)
    ensures CycleSource(t, q) == q || (q.face in CycleFaces(t) && CycleSource(t, q).face in CycleFaces(t))
  {
  }

  /** Turning the reversed cycle and then the cycle, or the other way round, puts every sticker back. */
  lemma CycleSourceReverse(t: Cycle, q: Pos)
    requires WellFormed(t)
    ensures CycleSource(t, CycleSource(Reverse(t), q)) == q
    ensures CycleSource(Reverse(t), CycleSource(t, q)) == q
  {
    if OnStrip(t.p1, q) {
      StripAtIndex(t.p2, StripIndex(t.p1, q));
      StripAtIndex(t.p4, StripIndex(t.p1, q));
    } else if OnStrip(t.p2, q) {
      StripAtIndex(t.p1, StripIndex(t.p2, q));
      StripAtIndex(t.p3, StripIndex(t.p2, q));
    } else if OnStrip(t.p3, q) {
      StripAtIndex(t.p2, StripIndex(t.p3, q));
      StripAtIndex(t.p4, StripIndex(t.p3, q));
    } else if OnStrip(t.p4, q) {
      StripAtIndex(t.p1, StripIndex(t.p4, q));
      StripAtIndex(t.p3, StripIndex(t.p4, q));
    }
  }

  /** Four turns of a cycle put every sticker back. */
  lemma CycleSourceFour(t: Cycle, q: Pos)
    requires WellFormed(t)
    ensures CycleSource(t, CycleSource(t, CycleSource(t, CycleSource(t, q)))) == q
  {
    if OnStrip(t.p1, q) || OnStrip(t.p2, q) || OnStrip(t.p3, q) || OnStrip(t.p4, q) {
      var i := if OnStrip(t.p1, q) then StripIndex(t.p1, q)
               else if OnStrip(t.p2, q) then StripIndex(t.p2, q)
               else if OnStrip(t.p3, q) then StripIndex(t.p3, q)
               else StripIndex(t.p4, q);
      StepSources(t, i, 0);
    }
  }

  /** Two sequences of four stickers exchanged in turn leave the total unchanged. */
  lemma ExchangeChain<T>(m0: multiset<T>, m1: multiset<T>, m2: multiset<T>, m3: multiset<T>, m4: multiset<T>,
                         a: T, b: T, d: T, e: T)
    requires m1 + multiset{a} == m0 + multiset{b}
    requires m2 + multiset{b} == m1 + multiset{d}
    requires m3 + multiset{d} == m2 + multiset{e}
    requires m4 + multiset{e} == m3 + multiset{a}
    ensures m4 == m0
  {
    forall x
      ensures m4[x] == m0[x]
    {
      assert (m1 + multiset{a})[x] == (m0 + multiset{b})[x];
      assert (m2 + multiset{b})[x] == (m1 + multiset{d})[x];
      assert (m3 + multiset{d})[x] == (m2 + multiset{e})[x];
      assert (m4 + multiset{e})[x] == (m3 + multiset{a})[x];
    }
  }

  /** Four writes, each exchanging one sticker for another, along a cycle of four distinct
      positions keep the bag. */
  lemma FourWritesBag(c: Cube, a: Pos, b: Pos, d: Pos, e: Pos)
    requires a != b && a != d && a != e && b != d && b != e && d != e
    ensures var c1 := c.Set(a, c.At(b));
            var c2 := c1.Set(b, c.At(d));
            var c3 := c2.Set(d, c.At(e));
            Bag(c3.Set(e, c.At(a))) == Bag(c)
  {
    var c1 := c.Set(a, c.At(b));
    var c2 := c1.Set(b, c.At(d));
    var c3 := c2.Set(d, c.At(e));
    BagSet(c, a, c.At(b));
    BagSet(c1, b, c.At(d));
    BagSet(c2, d, c.At(e));
    BagSet(c3, e, c.At(a));
    assert c1.At(b) == c.At(b);
    assert c1.At(d) == c.At(d) && c2.At(d) == c1.At(d);
    assert c1.At(e) == c.At(e) && c2.At(e) == c1.At(e) && c3.At(e) == c2.At(e);
    ExchangeChain(Bag(c), Bag(c1), Bag(c2), Bag(c3), Bag(c3.Set(e, c.At(a))), c.At(a), c.At(b), c.At(d), c.At(e));
  }

  /** A pass whose `temp` is the current sticker of `p1` only moves stickers around. */
  lemma PassBag(c: Cube, t: Cycle, i: Index, temp: Cell)
    requires WellFormed(t)
    requires temp == c.At(StripAt(t.p1, i))
    ensures Bag(CycleStep(c, t, i, temp)) == Bag(c)
  {
    var a, b, d, e := StripAt(t.p1, i), StripAt(t.p2, i), StripAt(t.p3, i), StripAt(t.p4, i);
    var c1 := c.Set(a, c.At(b));
    assert c1.At(d) == c.At(d);
    var c2 := c1.Set(b, c.At(d));
    assert c2.At(e) == c.At(e);
    FourWritesBag(c, a, b, d, e);
  }

  /** Pass `i` does not touch the saved strip's position of another step `j`. */
  lemma PassLeavesOtherSteps(c: Cube, t: Cycle, i: Index, temp: Cell, j: Index)
    requires WellFormed(t) && i != j
    ensures CycleStep(c, t, i, temp).At(StripAt(t.p1, j)) == c.At(StripAt(t.p1, j))
  {
    CycleStepAt(c, t, i, temp, StripAt(t.p1, j));
    StripAtIndex(t.p1, i);
    StripAtIndex(t.p1, j);
  }

  /** Cycling four strips keeps every sticker: the colour count is unchanged. */
  lemma ApplyCycleBag(c: Cube, t: Cycle)
    requires WellFormed(t)
    ensures Bag(ApplyCycle(c, t)) == Bag(c)
  {
    var a0, a1, a2 := StripAt(t.p1, 0), StripAt(t.p1, 1), StripAt(t.p1, 2);
    var s1 := CycleStep(c, t, 0, c.At(a0));
    var s2 := CycleStep(s1, t, 1, c.At(a1));
    PassLeavesOtherSteps(c, t, 0, c.At(a0), 1);
    PassLeavesOtherSteps(c, t, 0, c.At(a0), 2);
    PassLeavesOtherSteps(s1, t, 1, c.At(a1), 2);
    PassBag(c, t, 0, c.At(a0));
    PassBag(s1, t, 1, c.At(a1));
    PassBag(s2, t, 2, c.At(a2));
  }

  /** `update_adjacent_faces(face, modifier)` as a value: the branch's four strips cycled in place. */
  function UpdateAdjacentFaces(c: Cube, face: Face, modifier: string): Cube
  {
    ApplyCycle(c, AdjacentCycle(face, modifier))
  }

  /** A cube related to `c` by a cycle's source map differs from `c` only on the cycle's faces. */
  lemma CycleKeepsOtherFaces(c: Cube, d: Cube, t: Cycle, face: Face)
    requires forall q :: d.At(q) == c.At(CycleSource(t, q))
    requires face !in CycleFaces(t)
    ensures d.Get(face) == c.Get(face)
  {
    forall r: Index, k: Index
      ensures d.Get(face)[r][k] == c.Get(face)[r][k]
    {
      assert d.At(Pos(face, r, k)) == c.At(CycleSource(t, Pos(face, r, k)));
      CycleSourceFace(t, Pos(face, r, k));
    }
    GridExt(d.Get(face), c.Get(face));
  }

  /** The neighbour update moves every sticker from its source along the branch's cycle, never
      touches the turning face's own grid, and keeps every sticker. */
  lemma UpdateAdjacentFacesSpec(c: Cube, face: Face, modifier: string)
    ensures forall q :: UpdateAdjacentFaces(c, face, modifier).At(q) == c.At(CycleSource(AdjacentCycle(face, modifier), q))
    ensures UpdateAdjacentFaces(c, face, modifier).Get(face) == c.Get(face)
    ensures Bag(UpdateAdjacentFaces(c, face, modifier)) == Bag(c)
  {
    var t := AdjacentCycle(face, modifier);
    ApplyCycleAt(c, t);
    CycleKeepsOtherFaces(c, ApplyCycle(c, t), t, face);
    ApplyCycleBag(c, t);
  }

  /** One quarter turn of an outer face: its own grid is rotated and then its neighbours are
      updated, with `"'"` as the modifier exactly when the turn is counter-clockwise. */
  function Quarter(c: Cube, f: Face, clockwise: bool): Cube
  {
    UpdateAdjacentFaces(c.With(f, RotateFaceGrid(c.Get(f), clockwise)), f, if clockwise then "" else "'")
  }

  /** The outer-face branch of `apply_move`: `"'"` turns counter-clockwise, `"2"` runs the clockwise
      rotation and the clockwise neighbour update twice, and every other modifier turns clockwise. */
  function OuterTurn(c: Cube, f: Face, modifier: string): Cube
  {
    if modifier == "'" then
      UpdateAdjacentFaces(c.With(f, RotateCounterClockwise(c.Get(f))), f, modifier)
    else if modifier == "2" then
      var c1 := UpdateAdjacentFaces(c.With(f, RotateClockwise(c.Get(f))), f, "");
      UpdateAdjacentFaces(c1.With(f, RotateClockwise(c1.Get(f))), f, "")
    else
      UpdateAdjacentFaces(c.With(f, RotateClockwise(c.Get(f))), f, modifier)
  }

  /** Each branch of the outer-face turn is a number of quarter turns: one counter-clockwise for
      `"'"`, two clockwise for `"2"` and one clockwise otherwise. */
  lemma OuterTurnQuarters(c: Cube, f: Face, modifier: string)
    ensures OuterTurn(c, f, modifier) ==
            if modifier == "'" then Quarter(c, f, false)
            else if modifier == "2" then Quarter(Quarter(c, f, true), f, true)
            else Quarter(c, f, true)
  {
    CounterClockwiseIsReverse(f, "");
    if modifier != "'" && modifier != "2" {
      CounterClockwiseIsReverse(f, modifier);
    }
  }

  /** The cell of the same face a rotated grid takes its sticker at `q` from. */
  function RotSource(clockwise: bool, q: Pos): (p: Pos)
    ensures p.face == q.face
  {
    if clockwise then Pos(q.face, 2 - q.col, q.row) else Pos(q.face, q.col, 2 - q.row)
  }

  /** The neighbour cycle of a quarter turn. */
  function TurnCycle(f: Face, clockwise: bool): (t: Cycle)
    ensures WellFormed(t) && f !in CycleFaces(t)
  {
    AdjacentCycle(f, if clockwise then "" else "'")
  }

  /** Where the sticker a quarter turn of `f` puts at `q` comes from. */
  function TurnSource(f: Face, clockwise: bool, q: Pos): Pos
  {
    if q.face == f then RotSource(clockwise, q) else CycleSource(TurnCycle(f, clockwise), q)
  }

  /** A cube whose turning face was rotated and whose neighbours were then cycled holds at `q` the
      original sticker of `q`'s quarter-turn source. */
  lemma QuarterFromPartsAt(c: Cube, c1: Cube, d: Cube, f: Face, clockwise: bool, q: Pos)
    requires c1 == c.With(f, RotateFaceGrid(c.Get(f), clockwise))
    requires d.At(q) == c1.At(CycleSource(TurnCycle(f, clockwise), q))
    ensures d.At(q) == c.At(TurnSource(f, clockwise, q))
  {
    CycleSourceFace(TurnCycle(f, clockwise), q);
    if q.face == f {
      RotateFaceGridAt(c.Get(f), clockwise, q.row, q.col);
    }
  }

  /** The same, at every position. */
  lemma QuarterFromParts(c: Cube, c1: Cube, d: Cube, f: Face, clockwise: bool)
    requires c1 == c.With(f, RotateFaceGrid(c.Get(f), clockwise))
    requires forall q :: d.At(q) == c1.At(CycleSource(TurnCycle(f, clockwise), q))
    ensures forall q :: d.At(q) == c.At(TurnSource(f, clockwise, q))
  {
    forall q
      ensures d.At(q) == c.At(TurnSource(f, clockwise, q))
    {
      QuarterFromPartsAt(c, c1, d, f, clockwise, q);
    }
  }

  /** A quarter turn moves every sticker from its source position. */
  lemma QuarterAt(c: Cube, f: Face, clockwise: bool)
    ensures forall q :: Quarter(c, f, clockwise).At(q) == c.At(TurnSource(f, clockwise, q))
  {
    var c1 := c.With(f, RotateFaceGrid(c.Get(f), clockwise));
    ApplyCycleAt(c1, TurnCycle(f, clockwise));
    QuarterFromParts(c, c1, Quarter(c, f, clockwise), f, clockwise);
  }

  /** The source maps of opposite quarter turns undo each other. */
  lemma TurnSourceInverse(f: Face, clockwise: bool, q: Pos)
    ensures TurnSource(f, clockwise, TurnSource(f, !clockwise, q)) == q
  {
    var t := TurnCycle(f, clockwise);
    CounterClockwiseIsReverse(f, "");
    CycleSourceFace(TurnCycle(f, !clockwise), q);
    if q.face != f {
      if clockwise {
        CycleSourceReverse(t, q);
      } else {
        CycleSourceReverse(TurnCycle(f, true), q);
      }
    }
  }

  /** Four quarter-turn source maps in the same direction compose to the identity. */
  lemma TurnSourceFour(f: Face, clockwise: bool, q: Pos)
    ensures TurnSource(f, clockwise, TurnSource(f, clockwise, TurnSource(f, clockwise, TurnSource(f, clockwise, q)))) == q
  {
    var t := TurnCycle(f, clockwise);
    if q.face != f {
      CycleSourceFace(t, q);
      CycleSourceFace(t, CycleSource(t, q));
      CycleSourceFace(t, CycleSource(t, CycleSource(t, q)));
      CycleSourceFour(t, q);
    }
  }

  /** A quarter turn followed by the opposite quarter turn restores the cube. */
  lemma QuarterInverse(c: Cube, f: Face, clockwise: bool)
    ensures Quarter(Quarter(c, f, clockwise), f, !clockwise) == c
  {
    QuarterThenOpposite(c, f, clockwise, !clockwise);
    RestoredBySources(c, Quarter(Quarter(c, f, clockwise), f, !clockwise), f, clockwise, !clockwise);
  }

  /** A cube that takes every sticker of `c` from the composition of opposite source maps is `c`. */
  lemma RestoredBySources(c: Cube, e: Cube, f: Face, clockwise: bool, back: bool)
    requires back == !clockwise
    requires forall q :: e.At(q) == c.At(TurnSource(f, clockwise, TurnSource(f, back, q)))
    ensures e == c
  {
    forall q
      ensures e.At(q) == c.At(q)
    {
      TurnSourceInverse(f, clockwise, q);
    }
    CubeExt(e, c);
  }

  /** A quarter turn followed by the opposite one takes every sticker from the composed source. */
  lemma QuarterThenOpposite(c: Cube, f: Face, clockwise: bool, back: bool)
    requires back == !clockwise
    ensures forall q :: Quarter(Quarter(c, f, clockwise), f, back).At(q) ==
                        c.At(TurnSource(f, clockwise, TurnSource(f, back, q)))
  {
    QuarterAt(c, f, clockwise);
    QuarterAt(Quarter(c, f, clockwise), f, back);
  }

  /** Two quarter turns in the same direction take every sticker from its source's source. */
  lemma QuarterTwice(c: Cube, f: Face, clockwise: bool)
    ensures forall q :: Quarter(Quarter(c, f, clockwise), f, clockwise).At(q) ==
                        c.At(TurnSource(f, clockwise, TurnSource(f, clockwise, q)))
  {
    QuarterAt(c, f, clockwise);
    QuarterAt(Quarter(c, f, clockwise), f, clockwise);
  }

  /** Two cubes each two quarter turns after the previous: the last is the first. */
  lemma FourFromSources(c: Cube, d2: Cube, d4: Cube, f: Face, clockwise: bool)
    requires forall q :: d2.At(q) == c.At(TurnSource(f, clockwise, TurnSource(f, clockwise, q)))
    requires forall q :: d4.At(q) == d2.At(TurnSource(f, clockwise, TurnSource(f, clockwise, q)))
    ensures d4 == c
  {
    forall q
      ensures d4.At(q) == c.At(q)
    {
      TurnSourceFour(f, clockwise, q);
    }
    CubeExt(d4, c);
  }

  /** Four quarter turns in the same direction restore the cube. */
  lemma QuarterFour(c: Cube, f: Face, clockwise: bool)
    ensures Quarter(Quarter(Quarter(Quarter(c, f, clockwise), f, clockwise), f, clockwise), f, clockwise) == c
  {
    var d2 := Quarter(Quarter(c, f, clockwise), f, clockwise);
    QuarterTwice(c, f, clockwise);
    QuarterTwice(d2, f, clockwise);
    FourFromSources(c, d2, Quarter(Quarter(d2, f, clockwise), f, clockwise), f, clockwise);
  }

  /** A quarter turn keeps every sticker: the colour count is unchanged. */
  lemma QuarterBag(c: Cube, f: Face, clockwise: bool)
    ensures Bag(Quarter(c, f, clockwise)) == Bag(c)
  {
    var g := RotateFaceGrid(c.Get(f), clockwise);
    RotationPermutes(c.Get(f), clockwise);
    BagWithSame(c, f, g);
    ApplyCycleBag(c.With(f, g), TurnCycle(f, clockwise));
  }

  /** `_apply_middle_row_move`: row 1 of FRONT, LEFT, BACK and RIGHT is copied first and then each of
      these faces takes the saved row of its neighbour (FRONT takes RIGHT's when clockwise, LEFT's
      when counter-clockwise). */
  function MiddleRowMove(c: Cube, counterclockwise: bool): Cube
  {
    var frontMiddle, leftMiddle, backMiddle, rightMiddle := c.front[1], c.left[1], c.back[1], c.right[1];
    if counterclockwise then
      c.(front := c.front[1 := leftMiddle], left := c.left[1 := backMiddle],
         back := c.back[1 := rightMiddle], right := c.right[1 := frontMiddle])
    else
      c.(front := c.front[1 := rightMiddle], right := c.right[1 := backMiddle],
         back := c.back[1 := leftMiddle], left := c.left[1 := frontMiddle])
  }

  /** The middle-row move takes every sticker from its source along the cycle of the middle rows. */
  lemma MiddleRowMoveAt(c: Cube, counterclockwise: bool)
    ensures forall q :: MiddleRowMove(c, counterclockwise).At(q) == c.At(CycleSource(MiddleCycle(counterclockwise), q))
  {
    var t := MiddleCycle(counterclockwise);
    forall q
      ensures MiddleRowMove(c, counterclockwise).At(q) == c.At(CycleSource(t, q))
    {
      if q.row == 1 && q.face != Up && q.face != Down {
        StripAtIndex(t.p1, q.col);
      }
    }
  }

  /** Two cubes that take every sticker of `c` from the same source are equal. */
  lemma SameCycleSources(c: Cube, d: Cube, e: Cube, t: Cycle)
    requires forall q :: d.At(q) == c.At(CycleSource(t, q))
    requires forall q :: e.At(q) == c.At(CycleSource(t, q))
    ensures d == e
  {
    CubeExt(d, e);
  }

  /** The middle-row move is the four-strip cycle of row 1 of the side faces. */
  lemma MiddleRowMoveIsCycle(c: Cube, counterclockwise: bool)
    ensures MiddleRowMove(c, counterclockwise) == ApplyCycle(c, MiddleCycle(counterclockwise))
  {
    MiddleRowMoveAt(c, counterclockwise);
    ApplyCycleAt(c, MiddleCycle(counterclockwise));
    SameCycleSources(c, MiddleRowMove(c, counterclockwise), ApplyCycle(c, MiddleCycle(counterclockwise)),
                     MiddleCycle(counterclockwise));
  }

  /** The middle-row move changes only row 1 of the four side faces: UP, DOWN and rows 0 and 2 stay. */
  lemma MiddleRowMoveFrame(c: Cube, counterclockwise: bool, q: Pos)
    requires q.face == Up || q.face == Down || q.row != 1
    ensures MiddleRowMove(c, counterclockwise).At(q) == c.At(q)
  {
  }

  /** The counter-clockwise middle-row move undoes the clockwise one, and the other way round. */
  lemma MiddleRowMoveInverse(c: Cube, counterclockwise: bool)
    ensures MiddleRowMove(MiddleRowMove(c, counterclockwise), !counterclockwise) == c
  {
    var d := MiddleRowMove(MiddleRowMove(c, counterclockwise), !counterclockwise);
    assert d.front == c.front && d.back == c.back;
    assert d.left == c.left && d.right == c.right;
  }

  /** The middle-row move keeps every sticker. */
  lemma MiddleRowMoveBag(c: Cube, counterclockwise: bool)
    ensures Bag(MiddleRowMove(c, counterclockwise)) == Bag(c)
  {
    MiddleRowMoveIsCycle(c, counterclockwise);
    ApplyCycleBag(c, MiddleCycle(counterclockwise));
  }

  /** `rotate_cube_around_vertical_axis`: the four side grids are relabelled and the UP and DOWN grids
      are turned in opposite directions. With `clockwise` false FRONT takes LEFT's grid, LEFT takes
      BACK's, BACK takes RIGHT's and RIGHT takes FRONT's, UP turns counter-clockwise and DOWN
      clockwise; with `clockwise` true everything goes the other way. */
  function Vertical(c: Cube, clockwise: bool): Cube
  {
    if !clockwise then
      Cube(up := RotateCounterClockwise(c.up), down := RotateClockwise(c.down),
           front := c.left, back := c.right, left := c.back, right := c.front)
    else
      Cube(up := RotateClockwise(c.up), down := RotateCounterClockwise(c.down),
           front := c.right, back := c.left, left := c.front, right := c.back)
  }

  /** Rotating the whole cube one way and then the other restores it. */
  lemma VerticalInverse(c: Cube, clockwise: bool)
    ensures Vertical(Vertical(c, clockwise), !clockwise) == c
  {
    RotationsAreInverse(c.up);
    RotationsAreInverse(c.down);
  }

  /** Rotating the whole cube keeps every sticker. */
  lemma VerticalBag(c: Cube, clockwise: bool)
    ensures Bag(Vertical(c, clockwise)) == Bag(c)
  {
    RotationPermutes(c.up, true);
    RotationPermutes(c.up, false);
    RotationPermutes(c.down, true);
    RotationPermutes(c.down, false);
    BagFaces(c);
    BagFaces(Vertical(c, clockwise));
  }

  /** The face letters of the six outer turns. */
  function OuterFace(ch: char): (f: Option<Face>)
    ensures f.Some? <==> ch in "FRULDB"
  {
    match ch
    case 'F' => Some(Front)
    case 'R' => Some(Right)
    case 'U' => Some(Up)
    case 'L' => Some(Left)
    case 'D' => Some(Down)
    case 'B' => Some(Back)
    case _ => None
  }

  /** The letter `apply_move` dispatches on for an outer face. */
  function FaceLetter(f: Face): (ch: char)
    ensures OuterFace(ch) == Some(f)
  {
    match f
    case Front => 'F'
    case Right => 'R'
    case Up => 'U'
    case Left => 'L'
    case Down => 'D'
    case Back => 'B'
  }

  /** The `ValueError`s a move can raise. */
  datatype MoveError =
    | InvalidFace(face: char)
    | InvalidCubeRotationMove(move: string)
    | InvalidCubeRotationFace(rotationFace: char)

  /** The split `apply_move` performs inline: the face letter and the one-character modifier (empty
      when the token has a single character). It is the split `parse_move` performs. */
  function SplitMove(move: string): (r: (char, string))
    requires move != ""
    ensures Notation.ParseMove(Some(move)) == (Some(r.0), Some(r.1))
    ensures r.0 == move[0] && |r.1| <= 1
  {
    (move[0], if |move| > 1 then [move[1]] else "")
  }

  /** The two outer-face tokens `apply_middle_layer_move` issues for an E or S move: E is `D' U`,
      `D2 U2` or `D U'` and S is `F' B`, `F2 B2` or `F B'`, for the modifiers `"'"`, `"2"` and
      anything else. */
  function LayerTokens(moveType: char, modifier: string): (r: (string, string))
    requires moveType == 'E' || moveType == 'S'
    ensures |r.0| >= 1 && |r.1| >= 1
    ensures moveType == 'E' ==> r.0[0] == 'D' && r.1[0] == 'U'
    ensures moveType == 'S' ==> r.0[0] == 'F' && r.1[0] == 'B'
  {
    if moveType == 'E' then
      if modifier == "'" then ("D'", "U")
      else if modifier == "2" then ("D2", "U2")
      else ("D", "U'")
    else
      if modifier == "'" then ("F'", "B")
      else if modifier == "2" then ("F2", "B2")
      else ("F", "B'")
  }

  /** A letter followed by a modifier of at most one character splits back into the two. */
  lemma SplitToken(ch: char, modifier: string)
    requires |modifier| <= 1
    ensures SplitMove([ch] + modifier) == (ch, modifier)
  {
    var move := [ch] + modifier;
    if |modifier| == 1 {
      assert move[1] == modifier[0];
      assert [move[1]] == modifier;
    }
  }

  /** 1 for the tokens whose move calls `apply_move` again (E and S), 0 for all others. */
  function Depth(move: string): nat
  {
    if move != "" && (move[0] == 'E' || move[0] == 'S') then 1 else 0
  }

  /** `apply_middle_layer_move`. M cycles the middle rows (`"'"` counter-clockwise, `"2"` twice
      clockwise, otherwise once clockwise). E and S apply their two outer-face tokens with
      `apply_move`, the second on the state the first left; both tokens are outer turns, which never
      raise. Any other letter does nothing. */
  function MiddleLayer(c: Cube, moveType: char, modifier: string): (r: Result<Cube, MoveError>)
    ensures r.Ok?
    decreases if moveType == 'E' || moveType == 'S' then 1 else 0, 0
  {
    if moveType == 'M' then
      if modifier == "'" then Ok(MiddleRowMove(c, true))
      else if modifier == "2" then Ok(MiddleRowMove(MiddleRowMove(c, false), false))
      else Ok(MiddleRowMove(c, false))
    else if moveType == 'E' || moveType == 'S' then
      var tokens := LayerTokens(moveType, modifier);
      assert Depth(tokens.0) == 0 && Depth(tokens.1) == 0;
      assert tokens.0[0] in "FRULDB" && tokens.1[0] in "FRULDB";
      ApplyMove(ApplyMove(c, tokens.0).value, tokens.1)
    else Ok(c)
  }

  /** `apply_cube_rotation`: R rotates clockwise except for the modifiers `"'"` (once the other way)
      and `"2"` (twice the other way); L mirrors this; any other letter is an error. */
  function CubeRotation(c: Cube, rotationFace: char, modifier: string): (r: Result<Cube, MoveError>)
    ensures r.Err? <==> rotationFace != 'R' && rotationFace != 'L'
  {
    if rotationFace == 'R' then
      if modifier == "'" then Ok(Vertical(c, false))
      else if modifier == "2" then Ok(Vertical(Vertical(c, false), false))
      else Ok(Vertical(c, true))
    else if rotationFace == 'L' then
      if modifier == "'" then Ok(Vertical(c, true))
      else if modifier == "2" then Ok(Vertical(Vertical(c, true), true))
      else Ok(Vertical(c, false))
    else Err(InvalidCubeRotationFace(rotationFace))
  }

  /** What `apply_move` decides to do with a token, before touching the cube. */
  datatype Action =
    | NoMove
    | OuterMove(face: Face, modifier: string)
    | MiddleMove(moveType: char, modifier: string)
    | RotationMove(rotationFace: char, modifier: string)
    | Invalid(error: MoveError)

  /** A token `apply_move` rejects: an unknown first letter, a bare `m`, or `m` followed by a letter
      other than R and L. */
  predicate Rejected(move: string)
  {
    move != "" &&
    (move[0] !in "FRULDBMESm" || (move[0] == 'm' && (|move| < 2 || (move[1] != 'R' && move[1] != 'L'))))
  }

  /** The dispatch of `apply_move`: the empty token does nothing; otherwise the first character
      selects an outer turn, a middle-layer move or (after `m`) a whole-cube rotation, which is handed
      the second character both as the rotation letter and as the modifier. */
  function Dispatch(move: string): (a: Action)
    ensures a.NoMove? <==> move == ""
    ensures a.Invalid? || (a.RotationMove? && a.rotationFace != 'R' && a.rotationFace != 'L') <==> Rejected(move)
    ensures a.Invalid? ==> move[0] !in "FRULDBMES"
    ensures a.Invalid? && move[0] != 'm' ==> a.error == InvalidFace(move[0])
    ensures a.Invalid? && move == "m" ==> a.error == InvalidCubeRotationMove(move)
    ensures a.RotationMove? ==> |move| >= 2 && move[0] == 'm' && a.rotationFace == move[1] && a.modifier == [move[1]]
    ensures a.MiddleMove? ==> a.moveType == move[0] && a.moveType in "MES" && |a.modifier| <= 1
  {
    if move == "" then NoMove
    else
      var (face, modifier) := SplitMove(move);
      match OuterFace(face)
      case Some(f) => OuterMove(f, modifier)
      case None =>
        if face == 'M' || face == 'E' || face == 'S' then MiddleMove(face, modifier)
        else if face == 'm' then
          if |move| >= 2 then RotationMove(move[1], modifier)
          else Invalid(InvalidCubeRotationMove(move))
        else Invalid(InvalidFace(face))
  }

  /** `apply_move`: performs the action the token selects. The empty token changes nothing, and
      exactly the rejected tokens raise, with the error the source raises for them. */
  function ApplyMove(c: Cube, move: string): (r: Result<Cube, MoveError>)
    ensures move == "" ==> r == Ok(c)
    ensures r.Err? <==> Rejected(move)
    ensures r.Err? && move[0] !in "FRULDBMESm" ==> r.error == InvalidFace(move[0])
    ensures r.Err? && move == "m" ==> r.error == InvalidCubeRotationMove(move)
    ensures r.Err? && |move| >= 2 && move[0] == 'm' ==> r.error == InvalidCubeRotationFace(move[1])
    decreases Depth(move), 1
  {
    match Dispatch(move)
    case NoMove => Ok(c)
    case OuterMove(f, modifier) => Ok(OuterTurn(c, f, modifier))
    case MiddleMove(moveType, modifier) => MiddleLayer(c, moveType, modifier)
    case RotationMove(rotationFace, modifier) => CubeRotation(c, rotationFace, modifier)
    case Invalid(e) => Err(e)
  }

  /** No token of `moves` is rejected, checked from the last token back. */
  predicate AllAccepted(moves: seq<string>)
  {
    moves == [] || (AllAccepted(moves[..|moves| - 1]) && !Rejected(moves[|moves| - 1]))
  }

  /** `AllAccepted` says that every token is accepted. */
  lemma {:induction false} AllAcceptedEvery(moves: seq<string>)
    ensures AllAccepted(moves) <==> forall i :: 0 <= i < |moves| ==> !Rejected(moves[i])
  {
    if moves != [] {
      var init := moves[..|moves| - 1];
      AllAcceptedEvery(init);
      assert forall i :: 0 <= i < |init| ==> init[i] == moves[i];
    }
  }

  /** Applying tokens in order, stopping at the first error as the raised exception does. The
      replay succeeds exactly when every token is accepted. */
  function ApplyMoves(c: Cube, moves: seq<string>): (r: Result<Cube, MoveError>)
    ensures r.Ok? <==> AllAccepted(moves)
  {
    if moves == [] then Ok(c)
    else
      var init, last := moves[..|moves| - 1], moves[|moves| - 1];
      match ApplyMoves(c, init)
      case Err(e) => Err(e)
      case Ok(d) => ApplyMove(d, last)
  }

  /** Replaying `xs + ys` is replaying `xs` and then `ys` from where it stopped. */
  lemma {:induction false} ApplyMovesConcat(c: Cube, xs: seq<string>, ys: seq<string>)
    ensures ApplyMoves(c, xs + ys) ==
            match ApplyMoves(c, xs)
            case Err(e) => Err(e)
            case Ok(d) => ApplyMoves(d, ys)
  {
    if ys == [] {
      assert xs + ys == xs;
    } else {
      var init, last := ys[..|ys| - 1], ys[|ys| - 1];
      assert (xs + ys)[..|xs + ys| - 1] == xs + init;
      assert (xs + ys)[|xs + ys| - 1] == last;
      ApplyMovesConcat(c, xs, init);
      var r := ApplyMoves(c, xs);
      if r.Ok? {
        var d := r.value;
        assert ApplyMoves(d, ys) ==
               match ApplyMoves(d, init)
               case Err(e) => Err(e)
               case Ok(d') => ApplyMove(d', last);
      }
    }
  }

  /** Replaying one more move applies that move to the previous replay. */
  lemma ReplaySnoc(c: Cube, moves: seq<string>, i: nat, d: Cube)
    requires i < |moves| && ApplyMoves(c, moves[..i]) == Ok(d)
    ensures ApplyMoves(c, moves[..i + 1]) == ApplyMove(d, moves[i])
  {
    assert moves[..i + 1][..i] == moves[..i];
  }

  /** Once a replay has failed, replaying more moves fails with the same error. */
  lemma ReplayStopsAtError(c: Cube, moves: seq<string>, k: nat, step: nat)
    requires k <= step <= |moves| && ApplyMoves(c, moves[..k]).Err?
    ensures ApplyMoves(c, moves[..step]) == ApplyMoves(c, moves[..k])
  {
    assert moves[..k] + moves[k..step] == moves[..step];
    ApplyMovesConcat(c, moves[..k], moves[k..step]);
  }

  /** Replaying `[m] + ms` is applying `m` and then replaying `ms`. */
  lemma {:induction false} ApplyMovesCons(c: Cube, m: string, ms: seq<string>)
    ensures ApplyMoves(c, [m] + ms) ==
            match ApplyMove(c, m)
            case Err(e) => Err(e)
            case Ok(d) => ApplyMoves(d, ms)
  {
    assert [m][..0] == [];
    assert ApplyMoves(c, [m]) == ApplyMove(c, m);
    ApplyMovesConcat(c, [m], ms);
  }

  /** A plain, a primed and a doubled outer-face token are one clockwise, one counter-clockwise and
      two clockwise quarter turns. */
  lemma OuterTokens(c: Cube, f: Face)
    ensures ApplyMove(c, [FaceLetter(f)]) == Ok(Quarter(c, f, true))
    ensures ApplyMove(c, [FaceLetter(f), '\'']) == Ok(Quarter(c, f, false))
    ensures ApplyMove(c, [FaceLetter(f), '2']) == Ok(Quarter(Quarter(c, f, true), f, true))
  {
    OuterPlainToken(c, f);
    OuterPrimeToken(c, f);
    OuterDoubleToken(c, f);
  }

  /** The plain token of a face is one clockwise quarter turn. */
  lemma OuterPlainToken(c: Cube, f: Face)
    ensures ApplyMove(c, [FaceLetter(f)]) == Ok(Quarter(c, f, true))
  {
    assert Dispatch([FaceLetter(f)]) == OuterMove(f, "");
    OuterTurnQuarters(c, f, "");
  }

  /** The primed token of a face is one counter-clockwise quarter turn. */
  lemma OuterPrimeToken(c: Cube, f: Face)
    ensures ApplyMove(c, [FaceLetter(f), '\'']) == Ok(Quarter(c, f, false))
  {
    assert Dispatch([FaceLetter(f), '\'']) == OuterMove(f, "'");
    OuterTurnQuarters(c, f, "'");
  }

  /** The doubled token of a face is two clockwise quarter turns. */
  lemma OuterDoubleToken(c: Cube, f: Face)
    ensures ApplyMove(c, [FaceLetter(f), '2']) == Ok(Quarter(Quarter(c, f, true), f, true))
  {
    assert Dispatch([FaceLetter(f), '2']) == OuterMove(f, "2");
    OuterTurnQuarters(c, f, "2");
  }

  /** Only the first two characters of a token decide what `apply_move` does. */
  lemma DispatchIgnoresTail(move: string, tail: string)
    requires |move| >= 2
    ensures Dispatch(move + tail) == Dispatch(move)
  {
    assert (move + tail)[0] == move[0] && (move + tail)[1] == move[1];
  }

  /** Characters after the second never change the effect of a token. */
  lemma ApplyMoveIgnoresTail(c: Cube, move: string, tail: string)
    requires |move| >= 2
    ensures ApplyMove(c, move + tail) == ApplyMove(c, move)
  {
    DispatchIgnoresTail(move, tail);
  }

  /** Any modifier of an outer-face token other than `'` and `2` turns clockwise, like no modifier. */
  lemma OuterOtherModifier(c: Cube, f: Face, m: char)
    requires m != '\'' && m != '2'
    ensures ApplyMove(c, [FaceLetter(f), m]) == ApplyMove(c, [FaceLetter(f)])
  {
    assert Dispatch([FaceLetter(f), m]) == OuterMove(f, [m]);
    assert Dispatch([FaceLetter(f)]) == OuterMove(f, "");
    OuterTurnQuarters(c, f, [m]);
    OuterTurnQuarters(c, f, "");
  }

  /** The three outer-face tokens of `f` act on every cube as quarter turns. */
  lemma OuterTokensEverywhere(f: Face)
    ensures forall d :: ApplyMove(d, [FaceLetter(f)]) == Ok(Quarter(d, f, true))
    ensures forall d :: ApplyMove(d, [FaceLetter(f), '\'']) == Ok(Quarter(d, f, false))
  {
    forall d
      ensures ApplyMove(d, [FaceLetter(f)]) == Ok(Quarter(d, f, true))
      ensures ApplyMove(d, [FaceLetter(f), '\'']) == Ok(Quarter(d, f, false))
    {
      OuterTokens(d, f);
    }
  }

  /** Two moves that succeed one after the other replay as a pair. */
  lemma ReplayTwo(c: Cube, a: string, b: string, d: Cube, e: Cube)
    requires ApplyMove(c, a) == Ok(d) && ApplyMove(d, b) == Ok(e)
    ensures ApplyMoves(c, [a, b]) == Ok(e)
  {
    ApplyMovesCons(c, a, [b]);
    ApplyMovesCons(d, b, []);
  }

  /** Two replays that succeed one after the other replay as their concatenation. */
  lemma ReplayConcat(c: Cube, xs: seq<string>, ys: seq<string>, d: Cube, e: Cube)
    requires ApplyMoves(c, xs) == Ok(d) && ApplyMoves(d, ys) == Ok(e)
    ensures ApplyMoves(c, xs + ys) == Ok(e)
  {
    ApplyMovesConcat(c, xs, ys);
  }

  /** Proof helper, not a model of the source: two pairs side by side are four copies, stated over
      a plain element so that `ReplayFourTimes` does not build the sequence of literal move strings
      itself. */
  lemma PairsJoin<T>(x: T)
    ensures [x, x] + [x, x] == [x, x, x, x]
  {
  }

  /** The same token applied four times in a row, each time successfully, replays as four copies. */
  lemma ReplayFourTimes(c: Cube, x: string, d1: Cube, d2: Cube, d3: Cube, d4: Cube)
    requires ApplyMove(c, x) == Ok(d1) && ApplyMove(d1, x) == Ok(d2)
    requires ApplyMove(d2, x) == Ok(d3) && ApplyMove(d3, x) == Ok(d4)
    ensures ApplyMoves(c, [x, x, x, x]) == Ok(d4)
  {
    ReplayTwo(c, x, x, d1, d2);
    ReplayTwo(d2, x, x, d3, d4);
    ReplayConcat(c, [x, x], [x, x], d2, d4);
    PairsJoin(x);
  }

  /** A token followed by its primed form restores the cube. */
  lemma OuterTurnThenPrime(c: Cube, f: Face)
    ensures ApplyMoves(c, [[FaceLetter(f)], [FaceLetter(f), '\'']]) == Ok(c)
  {
    var x, x' := [FaceLetter(f)], [FaceLetter(f), '\''];
    var d := Quarter(c, f, true);
    OuterTokens(c, f);
    OuterTokens(d, f);
    QuarterInverse(c, f, true);
    ReplayTwo(c, x, x', d, c);
  }

  /** A primed token followed by the plain one restores the cube. */
  lemma OuterPrimeThenTurn(c: Cube, f: Face)
    ensures ApplyMoves(c, [[FaceLetter(f), '\''], [FaceLetter(f)]]) == Ok(c)
  {
    var x, x' := [FaceLetter(f)], [FaceLetter(f), '\''];
    var d := Quarter(c, f, false);
    OuterTokens(c, f);
    OuterTokens(d, f);
    QuarterInverse(c, f, false);
    ReplayTwo(c, x', x, d, c);
  }

  /** The doubled token is the plain token twice. */
  lemma OuterDouble(c: Cube, f: Face)
    ensures ApplyMove(c, [FaceLetter(f), '2']) == ApplyMoves(c, [[FaceLetter(f)], [FaceLetter(f)]])
  {
    var x := [FaceLetter(f)];
    OuterTokens(c, f);
    OuterTokensEverywhere(f);
    ReplayTwo(c, x, x, Quarter(c, f, true), Quarter(Quarter(c, f, true), f, true));
  }

  /** Four plain turns of the same face restore the cube. */
  lemma OuterFour(c: Cube, f: Face)
    ensures ApplyMoves(c, [[FaceLetter(f)], [FaceLetter(f)], [FaceLetter(f)], [FaceLetter(f)]]) == Ok(c)
  {
    var d1 := Quarter(c, f, true);
    var d2 := Quarter(d1, f, true);
    var d3 := Quarter(d2, f, true);
    QuarterFour(c, f, true);
    OuterTokensEverywhere(f);
    ReplayFourTimes(c, [FaceLetter(f)], d1, d2, d3, c);
  }

  /** An outer turn keeps every sticker, whatever its modifier. */
  lemma OuterTurnBag(c: Cube, f: Face, modifier: string)
    ensures Bag(OuterTurn(c, f, modifier)) == Bag(c)
  {
    OuterTurnQuarters(c, f, modifier);
    QuarterBag(c, f, true);
    QuarterBag(c, f, false);
    QuarterBag(Quarter(c, f, true), f, true);
  }

  /** An outer-face token with a modifier of at most one character performs the outer turn with that
      modifier, on every cube. */
  lemma OuterTokenEverywhere(f: Face, modifier: string)
    requires |modifier| <= 1
    ensures forall d :: ApplyMove(d, [FaceLetter(f)] + modifier) == Ok(OuterTurn(d, f, modifier))
  {
    var move := [FaceLetter(f)] + modifier;
    SplitToken(FaceLetter(f), modifier);
    assert Dispatch(move) == OuterMove(f, modifier);
  }

  /** The middle-row tokens: `M` is one clockwise middle-row move, `M'` one counter-clockwise and `M2`
      two clockwise; any other modifier acts as `M`. */
  lemma MiddleTokens(c: Cube, m: char)
    ensures ApplyMove(c, "M") == Ok(MiddleRowMove(c, false))
    ensures ApplyMove(c, "M'") == Ok(MiddleRowMove(c, true))
    ensures ApplyMove(c, "M2") == Ok(MiddleRowMove(MiddleRowMove(c, false), false))
    ensures m != '\'' && m != '2' ==> ApplyMove(c, ['M', m]) == ApplyMove(c, "M")
  {
    assert Dispatch(['M', m]) == MiddleMove('M', [m]);
  }

  /** `M` and `M'` undo each other, and `M2` is `M` twice. */
  lemma MiddleInverse(c: Cube)
    ensures ApplyMoves(c, ["M", "M'"]) == Ok(c)
    ensures ApplyMoves(c, ["M'", "M"]) == Ok(c)
    ensures ApplyMove(c, "M2") == ApplyMoves(c, ["M", "M"])
  {
    MiddleTokens(c, 'M');
    MiddleTokens(MiddleRowMove(c, false), 'M');
    MiddleTokens(MiddleRowMove(c, true), 'M');
    MiddleRowMoveInverse(c, false);
    MiddleRowMoveInverse(c, true);
    ReplayTwo(c, "M", "M'", MiddleRowMove(c, false), c);
    ReplayTwo(c, "M'", "M", MiddleRowMove(c, true), c);
    ReplayTwo(c, "M", "M", MiddleRowMove(c, false), MiddleRowMove(MiddleRowMove(c, false), false));
  }

  /** Every M token changes only row 1 of the four side faces. */
  lemma MiddleFrame(c: Cube, move: string, q: Pos)
    requires move != "" && move[0] == 'M'
    requires q.face == Up || q.face == Down || q.row != 1
    ensures ApplyMove(c, move).Ok? && ApplyMove(c, move).value.At(q) == c.At(q)
  {
    var modifier := SplitMove(move).1;
    assert Dispatch(move) == MiddleMove('M', modifier);
    assert ApplyMove(c, move) == MiddleLayer(c, 'M', modifier);
    if modifier == "'" {
      MiddleRowMoveFrame(c, true, q);
    } else if modifier == "2" {
      MiddleRowMoveFrame(c, false, q);
      MiddleRowMoveFrame(MiddleRowMove(c, false), false, q);
    } else {
      MiddleRowMoveFrame(c, false, q);
    }
  }

  /** A token that does what two others do in turn replays like them. */
  lemma ExpandsTo(c: Cube, move: string, a: string, b: string, d: Cube, e: Cube)
    requires ApplyMove(c, move) == Ok(e)
    requires ApplyMove(c, a) == Ok(d) && ApplyMove(d, b) == Ok(e)
    ensures ApplyMove(c, move) == ApplyMoves(c, [a, b])
  {
    ReplayTwo(c, a, b, d, e);
  }

  /** A middle-layer token with a modifier of at most one character performs that middle-layer move. */
  lemma MiddleToken(c: Cube, moveType: char, modifier: string)
    requires moveType == 'M' || moveType == 'E' || moveType == 'S'
    requires |modifier| <= 1
    ensures ApplyMove(c, [moveType] + modifier) == MiddleLayer(c, moveType, modifier)
  {
    SplitToken(moveType, modifier);
    assert OuterFace(moveType) == None;
    assert Dispatch([moveType] + modifier) == MiddleMove(moveType, modifier);
  }

  /** Replaying two tokens is applying the first and, if it succeeds, the second. */
  lemma {:induction false} ReplayPair(c: Cube, a: string, b: string)
    ensures ApplyMoves(c, [a, b]) ==
            match ApplyMove(c, a)
            case Err(e) => Err(e)
            case Ok(d) => ApplyMove(d, b)
  {
    ApplyMovesCons(c, a, [b]);
    if ApplyMove(c, a).Ok? {
      ApplyMovesCons(ApplyMove(c, a).value, b, []);
    }
  }

  /** An E or S token replays as its two outer-face tokens. */
  lemma LayerExpansion(c: Cube, moveType: char, modifier: string)
    requires moveType == 'E' || moveType == 'S'
    requires |modifier| <= 1
    ensures ApplyMove(c, [moveType] + modifier) ==
            ApplyMoves(c, [LayerTokens(moveType, modifier).0, LayerTokens(moveType, modifier).1])
  {
    MiddleToken(c, moveType, modifier);
    ReplayPair(c, LayerTokens(moveType, modifier).0, LayerTokens(moveType, modifier).1);
  }

  /** `E` is `D` then `U'`. */
  lemma EquatorPlain(c: Cube)
    ensures ApplyMove(c, "E") == ApplyMoves(c, ["D", "U'"])
  {
    assert "E" == ['E'] + "";
    LayerExpansion(c, 'E', "");
  }

  /** `E'` is `D'` then `U`. */
  lemma EquatorPrime(c: Cube)
    ensures ApplyMove(c, "E'") == ApplyMoves(c, ["D'", "U"])
  {
    assert "E'" == ['E'] + "'";
    LayerExpansion(c, 'E', "'");
  }

  /** `E2` is `D2` then `U2`. */
  lemma EquatorDouble(c: Cube)
    ensures ApplyMove(c, "E2") == ApplyMoves(c, ["D2", "U2"])
  {
    assert "E2" == ['E'] + "2";
    LayerExpansion(c, 'E', "2");
  }

  /** `S` is `F` then `B'`. */
  lemma StandingPlain(c: Cube)
    ensures ApplyMove(c, "S") == ApplyMoves(c, ["F", "B'"])
  {
    assert "S" == ['S'] + "";
    LayerExpansion(c, 'S', "");
  }

  /** `S'` is `F'` then `B`. */
  lemma StandingPrime(c: Cube)
    ensures ApplyMove(c, "S'") == ApplyMoves(c, ["F'", "B"])
  {
    assert "S'" == ['S'] + "'";
    LayerExpansion(c, 'S', "'");
  }

  /** `S2` is `F2` then `B2`. */
  lemma StandingDouble(c: Cube)
    ensures ApplyMove(c, "S2") == ApplyMoves(c, ["F2", "B2"])
  {
    assert "S2" == ['S'] + "2";
    LayerExpansion(c, 'S', "2");
  }

  /** Turning UP or DOWN never moves a sticker of row 1 of a side face. */
  lemma UpDownKeepMiddleRow(f: Face, clockwise: bool, q: Pos)
    requires f == Up || f == Down
    requires q.face != Up && q.face != Down && q.row == 1
    ensures TurnSource(f, clockwise, q) == q
  {
  }

  /** A cube one quarter turn after `c` agrees with `c` wherever the turn's source map is the identity. */
  lemma KeptBySource(c: Cube, d: Cube, f: Face, clockwise: bool, q: Pos)
    requires forall x :: d.At(x) == c.At(TurnSource(f, clockwise, x))
    requires TurnSource(f, clockwise, q) == q
    ensures d.At(q) == c.At(q)
  {
  }

  /** A quarter turn of UP or DOWN keeps row 1 of the side faces. */
  lemma QuarterKeepsMiddleRow(c: Cube, f: Face, clockwise: bool, q: Pos)
    requires f == Up || f == Down
    requires q.face != Up && q.face != Down && q.row == 1
    ensures Quarter(c, f, clockwise).At(q) == c.At(q)
  {
    UpDownKeepMiddleRow(f, clockwise, q);
    QuarterAt(c, f, clockwise);
    KeptBySource(c, Quarter(c, f, clockwise), f, clockwise, q);
  }

  /** An outer turn of UP or DOWN, with any modifier, keeps row 1 of the side faces. */
  lemma UpDownTurnKeepsMiddleRow(c: Cube, f: Face, modifier: string, q: Pos)
    requires f == Up || f == Down
    requires q.face != Up && q.face != Down && q.row == 1
    ensures OuterTurn(c, f, modifier).At(q) == c.At(q)
  {
    OuterTurnQuarters(c, f, modifier);
    if modifier == "'" {
      QuarterKeepsMiddleRow(c, f, false, q);
    } else if modifier == "2" {
      QuarterKeepsMiddleRow(c, f, true, q);
      QuarterKeepsMiddleRow(Quarter(c, f, true), f, true, q);
    } else {
      QuarterKeepsMiddleRow(c, f, true, q);
    }
  }

  /** An outer-face token performs the outer turn its first two characters select. */
  lemma OuterToken(c: Cube, move: string)
    requires move != "" && move[0] in "FRULDB"
    ensures ApplyMove(c, move) == Ok(OuterTurn(c, OuterFace(move[0]).value, SplitMove(move).1))
  {
    assert Dispatch(move) == OuterMove(OuterFace(move[0]).value, SplitMove(move).1);
  }

  /** An E move is a turn of DOWN followed by a turn of UP, with the modifiers of its two tokens. */
  lemma EquatorTurns(c: Cube, modifier: string)
    ensures var tokens := LayerTokens('E', modifier);
            MiddleLayer(c, 'E', modifier) ==
            Ok(OuterTurn(OuterTurn(c, Down, SplitMove(tokens.0).1), Up, SplitMove(tokens.1).1))
  {
    var tokens := LayerTokens('E', modifier);
    var m0, m1 := SplitMove(tokens.0).1, SplitMove(tokens.1).1;
    assert OuterFace(tokens.0[0]) == Some(Down);
    assert OuterFace(tokens.1[0]) == Some(Up);
    OuterToken(c, tokens.0);
    var d := OuterTurn(c, Down, m0);
    assert ApplyMove(c, tokens.0) == Ok(d);
    OuterToken(d, tokens.1);
    assert ApplyMove(d, tokens.1) == Ok(OuterTurn(d, Up, m1));
  }

  /** Since E is built from turns of DOWN and UP, no E token changes row 1 of a side face. */
  lemma EquatorKeepsMiddleRow(c: Cube, move: string, q: Pos)
    requires move != "" && move[0] == 'E'
    requires q.face != Up && q.face != Down && q.row == 1
    ensures ApplyMove(c, move).Ok? && ApplyMove(c, move).value.At(q) == c.At(q)
  {
    var modifier := SplitMove(move).1;
    assert Dispatch(move) == MiddleMove('E', modifier);
    EquatorTurns(c, modifier);
    var tokens := LayerTokens('E', modifier);
    var m0, m1 := SplitMove(tokens.0).1, SplitMove(tokens.1).1;
    var d := OuterTurn(c, Down, m0);
    assert ApplyMove(c, move) == Ok(OuterTurn(d, Up, m1));
    UpDownTurnKeepsMiddleRow(c, Down, m0, q);
    UpDownTurnKeepsMiddleRow(d, Up, m1, q);
  }

  /** The whole-cube rotation ignores its modifier: the second character is passed both as the
      rotation letter and as the modifier, so every `mR` token rotates clockwise and every `mL`
      token counter-clockwise. */
  lemma RotationIgnoresModifier(c: Cube, move: string)
    requires |move| >= 2 && move[0] == 'm'
    ensures move[1] == 'R' ==> ApplyMove(c, move) == Ok(Vertical(c, true))
    ensures move[1] == 'L' ==> ApplyMove(c, move) == Ok(Vertical(c, false))
  {
    assert SplitMove(move) == ('m', [move[1]]);
    assert Dispatch(move) == RotationMove(move[1], [move[1]]);
  }

  /** `mR` followed by `mL`, or the other way round, restores the cube. */
  lemma RotationInverse(c: Cube)
    ensures ApplyMoves(c, ["mR", "mL"]) == Ok(c)
    ensures ApplyMoves(c, ["mL", "mR"]) == Ok(c)
  {
    RotationIgnoresModifier(c, "mR");
    RotationIgnoresModifier(c, "mL");
    RotationIgnoresModifier(Vertical(c, true), "mL");
    RotationIgnoresModifier(Vertical(c, false), "mR");
    VerticalInverse(c, true);
    VerticalInverse(c, false);
    ReplayTwo(c, "mR", "mL", Vertical(c, true), c);
    ReplayTwo(c, "mL", "mR", Vertical(c, false), c);
  }

  /** An outer-face token keeps every sticker. */
  lemma OuterTokenBag(c: Cube, move: string)
    requires move != "" && move[0] in "FRULDB"
    ensures ApplyMove(c, move).Ok? && Bag(ApplyMove(c, move).value) == Bag(c)
  {
    OuterToken(c, move);
    OuterTurnBag(c, OuterFace(move[0]).value, SplitMove(move).1);
  }

  /** A middle-layer move keeps every sticker. */
  lemma MiddleLayerBag(c: Cube, moveType: char, modifier: string)
    ensures Bag(MiddleLayer(c, moveType, modifier).value) == Bag(c)
  {
    if moveType == 'M' {
      if modifier == "'" {
        MiddleRowMoveBag(c, true);
      } else if modifier == "2" {
        MiddleRowMoveBag(c, false);
        MiddleRowMoveBag(MiddleRowMove(c, false), false);
      } else {
        MiddleRowMoveBag(c, false);
      }
    } else if moveType == 'E' || moveType == 'S' {
      var tokens := LayerTokens(moveType, modifier);
      OuterTokenBag(c, tokens.0);
      OuterTokenBag(ApplyMove(c, tokens.0).value, tokens.1);
    }
  }

  /** A whole-cube rotation that succeeds keeps every sticker. */
  lemma CubeRotationBag(c: Cube, rotationFace: char, modifier: string)
    requires CubeRotation(c, rotationFace, modifier).Ok?
    ensures Bag(CubeRotation(c, rotationFace, modifier).value) == Bag(c)
  {
    VerticalBag(c, true);
    VerticalBag(c, false);
    VerticalBag(Vertical(c, true), true);
    VerticalBag(Vertical(c, false), false);
  }

  /** Every accepted token permutes the 54 stickers, so the colour count is unchanged. */
  lemma ApplyMoveBag(c: Cube, move: string)
    requires ApplyMove(c, move).Ok?
    ensures Bag(ApplyMove(c, move).value) == Bag(c)
  {
    match Dispatch(move)
    case NoMove =>
    case OuterMove(f, modifier) =>
      OuterTurnBag(c, f, modifier);
    case MiddleMove(moveType, modifier) =>
      MiddleLayerBag(c, moveType, modifier);
    case RotationMove(rotationFace, modifier) =>
      CubeRotationBag(c, rotationFace, modifier);
    case Invalid(e) =>
  }

  /** A replay that succeeds keeps the colour count. */
  lemma {:induction false} ApplyMovesBag(c: Cube, moves: seq<string>)
    requires ApplyMoves(c, moves).Ok?
    ensures Bag(ApplyMoves(c, moves).value) == Bag(c)
  {
    if moves != [] {
      var init := moves[..|moves| - 1];
      ApplyMovesBag(c, init);
      ApplyMoveBag(ApplyMoves(c, init).value, moves[|moves| - 1]);
    }
  }
}
