/** Splitting a move token into its face letter and modifier (`cube/notation.py`). */
module Notation {
  import opened Outcomes

  /** `parse_move`: a missing or empty token gives `(None, None)`; otherwise the first character is
      the face and the second, if any, the modifier (`''` when there is none). Later characters are
      not looked at. */
  function ParseMove(input: Option<string>): (r: (Option<char>, Option<string>))
    ensures r.0.None? <==> input.None? || input.value == ""
    ensures r.1.None? <==> r.0.None?
    ensures r.0.Some? ==> input.Some? && |r.1.value| == (if |input.value| > 1 then 1 else 0)
    ensures r.0.Some? ==> [r.0.value] + r.1.value == input.value[..|r.1.value| + 1]
  {
    if input.None? || input.value == "" then (None, None)
    else
      var s := input.value;
      (Some(s[0]), Some(if |s| > 1 then [s[1]] else ""))
  }

  /** Putting the face and the modifier back together gives the first two characters of the token
      (the whole token when it is shorter). */
  lemma ParseMoveRoundTrip(s: string)
    requires s != ""
    ensures var (face, modifier) := ParseMove(Some(s));
            [face.value] + modifier.value == (if |s| <= 2 then s else s[..2])
  {
  }

  /** Characters after the second never change the result. */
  lemma ParseMoveIgnoresTail(s: string, t: string)
    requires |s| >= 2
    ensures ParseMove(Some(s + t)) == ParseMove(Some(s))
  {
    assert (s + t)[0] == s[0] && (s + t)[1] == s[1];
  }

  /** A single character is a face with the empty modifier. */
  lemma ParseMoveSingle(x: char)
    ensures ParseMove(Some([x])) == (Some(x), Some(""))
  {
  }
}
