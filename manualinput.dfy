/** `ui/manual_solver.py`, `ManualSolutionInput._parse_solution`: the typed solution is cut into move
    tokens by `re.findall(r"(?:m[RL]|[RUFLBDMES])['2]?", ...)` after commas become spaces. The scan is
    modelled as the regular-expression engine performs it: at each position it tries `m` followed by
    `R` or `L`, then one of the nine move letters, then takes one optional modifier; a position where
    nothing matches is skipped one character at a time. */
module ManualInput {
  import opened Execution
  import opened Text

  /** The letters of the character class `[RUFLBDMES]`. */
  predicate IsMoveLetter(ch: char)
  {
    ch in {'R', 'U', 'F', 'L', 'B', 'D', 'M', 'E', 'S'}
  }

  /** The optional modifier `['2]`. */
  predicate IsModifier(ch: char)
  {
    ch == '\'' || ch == '2'
  }

  /** What the alternation matches: `mR`, `mL` or one move letter. */
  predicate IsBase(b: string)
  {
    (|b| == 1 && IsMoveLetter(b[0])) || (|b| == 2 && b[0] == 'm' && (b[1] == 'R' || b[1] == 'L'))
  }

  /** A whole match: a base, optionally followed by one modifier. */
  predicate IsToken(t: string)
  {
    IsBase(t) || (|t| >= 2 && IsBase(t[..|t| - 1]) && IsModifier(t[|t| - 1]))
  }

  /** The length of the match at the start of `s`; 0 when none starts there. */
  function MatchLength(s: string): (n: nat)
    ensures n <= 3 && n <= |s|
    ensures n > 0 ==> IsToken(s[..n])
  {
    var b :=
      if s == [] then 0
      else if s[0] == 'm' && |s| >= 2 && (s[1] == 'R' || s[1] == 'L') then 2
      else if IsMoveLetter(s[0]) then 1
      else 0;
    if b > 0 && b < |s| && IsModifier(s[b]) then
      assert IsBase(s[..b + 1][..b]) by { assert s[..b + 1][..b] == s[..b]; }
      b + 1
    else b
  }

  /** `re.findall`: the matches from left to right, without overlaps; a character where no match
      starts is passed over. */
  function FindAll(s: string): (r: seq<string>)
    ensures forall i :: 0 <= i < |r| ==> IsToken(r[i])
    decreases |s|
  {
    if s == [] then []
    else
      var n := MatchLength(s);
      if n == 0 then FindAll(s[1..]) else [s[..n]] + FindAll(s[n..])
  }

  /** `_parse_solution`: commas become spaces, then the matches are collected. */
  function ParseSolution(text: string): (moves: seq<string>)
  {
    FindAll(ReplaceChar(text, ',', ' '))
  }

  /** Every token the parser returns is one `apply_move` accepts. */
  lemma TokenAccepted(t: string)
    requires IsToken(t)
    ensures !Rejected(t)
  {
    var ch := t[0];
    assert ch == 'm' || IsMoveLetter(ch);
    assert ch in "FRULDBMESm" by {
      if ch == 'F' { assert "FRULDBMESm"[0] == ch; }
      else if ch == 'R' { assert "FRULDBMESm"[1] == ch; }
      else if ch == 'U' { assert "FRULDBMESm"[2] == ch; }
      else if ch == 'L' { assert "FRULDBMESm"[3] == ch; }
      else if ch == 'D' { assert "FRULDBMESm"[4] == ch; }
      else if ch == 'B' { assert "FRULDBMESm"[5] == ch; }
      else if ch == 'M' { assert "FRULDBMESm"[6] == ch; }
      else if ch == 'E' { assert "FRULDBMESm"[7] == ch; }
      else if ch == 'S' { assert "FRULDBMESm"[8] == ch; }
      else { assert "FRULDBMESm"[9] == ch; }
    }
    if ch == 'm' {
      assert |t| >= 2 && (t[1] == 'R' || t[1] == 'L') by {
        if !IsBase(t) {
          assert t[..|t| - 1][0] == ch && t[..|t| - 1][1] == t[1];
        }
      }
    }
  }

  /** The parsed list is played without an error. */
  lemma ParsedMovesAccepted(text: string)
    ensures forall i :: 0 <= i < |ParseSolution(text)| ==> !Rejected(ParseSolution(text)[i])
  {
    var moves := ParseSolution(text);
    forall i | 0 <= i < |moves|
      ensures !Rejected(moves[i])
    {
      TokenAccepted(moves[i]);
    }
  }

  /** A character that can be part of no match: neither a move letter, a modifier nor `m`. */
  predicate Neutral(ch: char)
  {
    !IsMoveLetter(ch) && !IsModifier(ch) && ch != 'm'
  }

  /** Two texts that differ only in which neutral characters they hold parse alike. */
  lemma {:induction false} NeutralCharactersAgree(s: string, t: string)
    requires |s| == |t|
    requires forall i :: 0 <= i < |s| ==> s[i] == t[i] || (Neutral(s[i]) && Neutral(t[i]))
    ensures FindAll(s) == FindAll(t)
    decreases |s|
  {
    if s != [] {
      var n := MatchLength(s);
      assert MatchLength(t) == n;
      if n == 0 {
        NeutralCharactersAgree(s[1..], t[1..]);
      } else {
        assert s[..n] == t[..n] by {
          forall i | 0 <= i < n
            ensures s[i] == t[i]
          {
            assert !Neutral(s[..n][i]) by { assert IsToken(s[..n]); }
          }
        }
        NeutralCharactersAgree(s[n..], t[n..]);
      }
    }
  }

  /** Replacing commas with spaces never changes the result: neither can be part of a match. */
  lemma CommasIgnored(text: string)
    ensures ParseSolution(text) == FindAll(text)
  {
    NeutralCharactersAgree(ReplaceChar(text, ',', ' '), text);
  }

  /** A token followed by a character that is not a modifier is matched whole. */
  lemma MatchesToken(t: string, rest: string)
    requires IsToken(t) && (rest == [] || !IsModifier(rest[0]))
    ensures MatchLength(t + rest) == |t| && (t + rest)[..|t|] == t
  {
    var s := t + rest;
    assert s[..|t|] == t;
    if IsBase(t) {
      assert s[0] == t[0];
      if |t| == 2 { assert s[1] == t[1]; }
      if |t| < |s| { assert s[|t|] == rest[0]; }
    } else {
      var b := t[..|t| - 1];
      assert s[0] == b[0];
      if |b| == 2 { assert s[1] == b[1]; }
      assert s[|b|] == t[|t| - 1];
    }
  }

  /** Parsing tokens typed with single spaces between them gives the tokens back. */
  lemma {:induction false} FindAllJoined(ts: seq<string>)
    requires forall i :: 0 <= i < |ts| ==> IsToken(ts[i])
    ensures FindAll(Join(" ", ts)) == ts
  {
    if |ts| == 1 {
      MatchesToken(ts[0], "");
      assert ts[0] + "" == ts[0];
      assert ts[0][|ts[0]|..] == [];
    } else if |ts| > 1 {
      var t, rest := ts[0], ts[1..];
      assert ts == [t] + rest;
      JoinCons(t, rest);
      var j := Join(" ", rest);
      var s := t + (" " + j);
      assert Join(" ", ts) == s;
      MatchesToken(t, " " + j);
      assert s[|t|..] == " " + j;
      assert MatchLength(" " + j) == 0;
      assert (" " + j)[1..] == j;
      FindAllJoined(rest);
    }
  }

  /** `_parse_solution` inverts `" ".join` on tokens: typing the moves separated by spaces loads
      exactly those moves. */
  lemma ParseJoinedTokens(ts: seq<string>)
    requires forall i :: 0 <= i < |ts| ==> IsToken(ts[i])
    ensures ParseSolution(Join(" ", ts)) == ts
  {
    CommasIgnored(Join(" ", ts));
    FindAllJoined(ts);
  }

  /** At most one modifier is taken: the stray apostrophe of "R2'" is dropped. */
  lemma OneModifierOnly()
    ensures ParseSolution("R2'") == ["R2"]
  {
    var s := "R2'";
    assert ParseSolution(s) == FindAll(s) by { CommasIgnored(s); }
    assert FindAll("'") == [] by {
      assert MatchLength("'") == 0;
      assert "'"[1..] == [];
    }
    assert FindAll(s) == [s[..2]] + FindAll(s[2..]) by {
      assert MatchLength(s) == 2;
    }
    assert s[..2] == "R2" && s[2..] == "'";
  }

  /** Letters written together are separate moves. */
  lemma AdjacentLetters()
    ensures ParseSolution("RU") == ["R", "U"]
  {
    var s := "RU";
    assert ParseSolution(s) == FindAll(s) by { CommasIgnored(s); }
    assert FindAll("U") == ["U"] by {
      assert MatchLength("U") == 1;
      assert "U"[..1] == "U" && "U"[1..] == [];
    }
    assert FindAll(s) == [s[..1]] + FindAll(s[1..]) by {
      assert MatchLength(s) == 1;
    }
    assert s[..1] == "R" && s[1..] == "U";
  }

  /** An `m` not followed by R or L is skipped, and the letter after it is read on its own. */
  lemma LoneRotationPrefix()
    ensures ParseSolution("mU") == ["U"]
  {
    var s := "mU";
    assert ParseSolution(s) == FindAll(s) by { CommasIgnored(s); }
    assert FindAll("U") == ["U"] by {
      assert MatchLength("U") == 1;
      assert "U"[..1] == "U" && "U"[1..] == [];
    }
    assert FindAll(s) == FindAll(s[1..]) by {
      assert MatchLength(s) == 0;
    }
    assert s[1..] == "U";
  }
}
