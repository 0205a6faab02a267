/** The Python string operations the solver glue relies on: `str.split()` with no argument,
    `" ".join`, single-character `str.replace` and the blank test `s.strip() == ""`. */
module Text {

  /** The characters `str.isspace` accepts, which `str.split()` and `str.strip()` treat as
      separators. */
  predicate IsSpace(ch: char)
  {
    ch == ' ' || ('\t' <= ch <= '\r') || ('\U{1C}' <= ch <= '\U{1F}') || ch == '\U{85}' || ch == '\U{A0}' ||
    ch == '\U{1680}' || ('\U{2000}' <= ch <= '\U{200A}') || ch == '\U{2028}' || ch == '\U{2029}' ||
    ch == '\U{202F}' || ch == '\U{205F}' || ch == '\U{3000}'
  }

  /** A piece `str.split()` can return: non-empty and free of separators. */
  predicate IsWord(w: string)
  {
    w != [] && forall i :: 0 <= i < |w| ==> !IsSpace(w[i])
  }

  /** `s.strip() == ""`: every character is a separator. */
  predicate IsBlank(s: string)
  {
    forall i :: 0 <= i < |s| ==> IsSpace(s[i])
  }

  /** Where the last word of `s` starts: `s` ends in a non-separator, and the word runs from the
      returned index to the end. */
  function WordStart(s: string): (n: nat)
    requires s != [] && !IsSpace(s[|s| - 1])
    ensures n < |s| && (n == 0 || IsSpace(s[n - 1]))
    ensures forall i :: n <= i < |s| ==> !IsSpace(s[i])
  {
    if |s| == 1 || IsSpace(s[|s| - 2]) then |s| - 1 else WordStart(s[..|s| - 1])
  }

  /** `s.split()`: the maximal runs of non-separators, in order; separators at either end and runs
      of separators produce no empty pieces. */
  function Split(s: string): (r: seq<string>)
    ensures forall i :: 0 <= i < |r| ==> IsWord(r[i])
  {
    if s == [] then []
    else if IsSpace(s[|s| - 1]) then Split(s[..|s| - 1])
    else
      var n := WordStart(s);
      Split(s[..n]) + [s[n..]]
  }

  /** `sep.join(ws)`: the pieces in order with `sep` between neighbours. */
  function Join(sep: string, ws: seq<string>): (s: string)
    ensures ws == [] ==> s == ""
  {
    if |ws| <= 1 then (if ws == [] then "" else ws[0])
    else Join(sep, ws[..|ws| - 1]) + sep + ws[|ws| - 1]
  }

  /** `s.replace(a, b)` for one-character `a` and `b`: every `a` becomes `b` and nothing else changes. */
  function ReplaceChar(s: string, a: char, b: char): (r: string)
    ensures |r| == |s|
    ensures forall i :: 0 <= i < |s| ==> r[i] == if s[i] == a then b else s[i]
  {
    if s == [] then "" else ReplaceChar(s[..|s| - 1], a, b) + [if s[|s| - 1] == a then b else s[|s| - 1]]
  }

  /** After the replacement no `a` is left (when `b` differs from `a`), and replacing again
      changes nothing. */
  lemma ReplaceCharIdempotent(s: string, a: char, b: char)
    requires a != b
    ensures a !in ReplaceChar(s, a, b)
    ensures ReplaceChar(ReplaceChar(s, a, b), a, b) == ReplaceChar(s, a, b)
  {
  }

  /** A word is its own last word. */
  lemma WordStartOfWord(w: string)
    requires IsWord(w)
    ensures WordStart(w) == 0
  {
  }

  /** The last word of `a + [c] + w`, for a separator `c` and a word `w`, is `w`. */
  lemma WordStartAfterSpace(a: string, c: char, w: string)
    requires IsSpace(c) && IsWord(w)
    ensures WordStart(a + [c] + w) == |a| + 1
  {
    var s := a + [c] + w;
    var n := WordStart(s);
    assert s[|a|] == c;
  }

  /** A trailing separator adds no piece. */
  lemma SplitTrailingSpace(a: string, c: char)
    requires IsSpace(c)
    ensures Split(a + [c]) == Split(a)
  {
    assert (a + [c])[..|a|] == a;
  }

  /** Splitting `a`, a separator and a word gives the pieces of `a` followed by the word. */
  lemma SplitAppendWord(a: string, c: char, w: string)
    requires IsSpace(c) && IsWord(w)
    ensures Split(a + [c] + w) == Split(a) + [w]
  {
    var s := a + [c] + w;
    WordStartAfterSpace(a, c, w);
    assert s[..|a| + 1] == a + [c];
    assert s[|a| + 1..] == w;
    SplitTrailingSpace(a, c);
  }

  /** A word splits into itself. */
  lemma SplitWord(w: string)
    requires IsWord(w)
    ensures Split(w) == [w]
  {
    WordStartOfWord(w);
    assert w[..0] == [];
    assert w[0..] == w;
  }

  /** Joining at least two pieces puts the separator before the last one. */
  lemma JoinSnoc(ws: seq<string>)
    requires |ws| > 1
    ensures Join(" ", ws) == Join(" ", ws[..|ws| - 1]) + [' '] + ws[|ws| - 1]
  {
  }

  /** Joining a piece in front of at least one more puts the separator after it. */
  lemma {:induction false} JoinCons(w: string, ws: seq<string>)
    requires ws != []
    ensures Join(" ", [w] + ws) == w + " " + Join(" ", ws)
  {
    var all := [w] + ws;
    if |ws| == 1 {
      assert all[..1] == [w];
    } else {
      var init := ws[..|ws| - 1];
      JoinCons(w, init);
      assert all[..|all| - 1] == [w] + init;
      assert all[|all| - 1] == ws[|ws| - 1];
      JoinSnoc(ws);
      calc {
        Join(" ", all);
        Join(" ", [w] + init) + " " + ws[|ws| - 1];
        w + " " + Join(" ", init) + " " + ws[|ws| - 1];
        w + " " + (Join(" ", init) + " " + ws[|ws| - 1]);
      }
    }
  }

  /** Splitting what `" ".join` built gives back the pieces, when each piece is a word. */
  lemma {:induction false} SplitJoin(ws: seq<string>)
    requires forall i :: 0 <= i < |ws| ==> IsWord(ws[i])
    ensures Split(Join(" ", ws)) == ws
  {
    if |ws| == 1 {
      SplitWord(ws[0]);
    } else if |ws| > 1 {
      var init, last := ws[..|ws| - 1], ws[|ws| - 1];
      assert forall i :: 0 <= i < |init| ==> init[i] == ws[i];
      SplitJoin(init);
      JoinSnoc(ws);
      SplitAppendWord(Join(" ", init), ' ', last);
      assert init + [last] == ws;
    }
  }

  /** Joining more pieces extends the string: `" ".join(xs)` is a prefix of `" ".join(xs + ys)`. */
  lemma {:induction false} JoinPrefix(xs: seq<string>, ys: seq<string>)
    ensures Join(" ", xs) <= Join(" ", xs + ys)
  {
    if ys == [] {
      assert xs + ys == xs;
    } else if xs != [] {
      var init := ys[..|ys| - 1];
      JoinPrefix(xs, init);
      assert (xs + ys)[..|xs + ys| - 1] == xs + init;
      var j := Join(" ", xs + init);
      assert Join(" ", xs + ys) == j + " " + ys[|ys| - 1];
      assert Join(" ", xs) <= j;
      assert j <= j + " " + ys[|ys| - 1];
    }
  }

  /** A string splits into no pieces exactly when it is blank. */
  lemma {:induction false} SplitEmptyIffBlank(s: string)
    ensures Split(s) == [] <==> IsBlank(s)
  {
    if s != [] {
      SplitEmptyIffBlank(s[..|s| - 1]);
      if IsSpace(s[|s| - 1]) {
        assert IsBlank(s) <==> IsBlank(s[..|s| - 1]) by {
          if IsBlank(s[..|s| - 1]) {
            forall i | 0 <= i < |s|
              ensures IsSpace(s[i])
            {
              if i < |s| - 1 {
                assert s[..|s| - 1][i] == s[i];
              }
            }
          }
        }
      }
    }
  }

  /** A character absent from `s` is absent from every piece `s.split()` returns. */
  lemma {:induction false} SplitExcludes(s: string, c: char)
    requires c !in s
    ensures forall i :: 0 <= i < |Split(s)| ==> c !in Split(s)[i]
  {
    if s != [] {
      if IsSpace(s[|s| - 1]) {
        SplitExcludes(s[..|s| - 1], c);
      } else {
        var n := WordStart(s);
        SplitExcludes(s[..n], c);
        assert c !in s[n..];
      }
    }
  }
}
