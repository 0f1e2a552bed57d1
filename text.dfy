/** Line handling shared by the puzzles' input parsing. */
module Text {
  /** `filter((s) => s)`: the non-empty strings, in order. */
  function NonEmpty(pieces: seq<string>): (kept: seq<string>)
    ensures forall i :: 0 <= i < |kept| ==> kept[i] != ""
    ensures forall s :: s in kept <==> s in pieces && s != ""
    ensures |kept| <= |pieces|
  {
    if pieces == [] then []
    else
      var rest := NonEmpty(pieces[1..]);
      assert forall i :: 1 <= i < |pieces| ==> pieces[i] == pieces[1..][i - 1];
      (if pieces[0] == "" then [] else [pieces[0]]) + rest
  }
}
