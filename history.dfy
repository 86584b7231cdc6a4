/** The labels a transcriber has appended since its text was last cleared.
    Both services keep the most recent one in a global and refuse to append
    it again straight away; these definitions state what that guarantees
    about the whole history. */
module History {
  import opened Wrappers

  /** The most recently appended label, or None when nothing was appended. */
  function Last(history: seq<string>): Option<string>
  {
    if history == [] then None else Some(history[|history| - 1])
  }

  /** No label was appended twice in a row. */
  predicate NoAdjacentRepeats(history: seq<string>)
  {
    forall i :: 0 < i < |history| ==> history[i - 1] != history[i]
  }

  /** Appending a label keeps the history free of adjacent repeats exactly
      when the label differs from the last one appended. */
  lemma AppendKeepsNoRepeats(history: seq<string>, sign: string)
    requires NoAdjacentRepeats(history)
    ensures NoAdjacentRepeats(history + [sign]) <==> Last(history) != Some(sign)
  {
    var h' := history + [sign];
    if Last(history) == Some(sign) {
      assert h'[|history| - 1] == h'[|history|];
    }
  }
}
