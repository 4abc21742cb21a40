/** How the tokenizer treats a line that no pattern of the current mode
    matches: the source's loop as written, and the failure it evidently
    means to raise. */
module TokenizerCases {
  import opened Results
  import opened Strings
  import opened Patterns
  import opened Tokenizer

  /** One pass of the source's `processLoop` body exactly as written
      (make/parser/tokenizer/index.ts:317-372): the pattern loop either cuts
      a token off the line or, when no pattern matches, leaves cursor and
      line as they were; the `while (textLine)` test then runs again. */
  function ProcessLoopPass(m: Matcher, cur: Cursor, textLine: string): (r: (Cursor, string))
    ensures StepLine(m, cur, textLine).None? ==> r == (cur, textLine)
    ensures StepLine(m, cur, textLine).Some? ==> |r.1| < |textLine|
  {
    match StepLine(m, cur, textLine)
    case None => (cur, textLine)
    case Some(s) => (s.next, s.rest)
  }

  /** In tree mode no pattern matches a lone `?`, so a pass leaves the
      non-empty line unchanged and the source's loop never ends. */
  lemma UnmatchedLineStalls()
    ensures ProcessLoopPass(SourcePatterns, Start, "?") == (Start, "?")
  {
    var ps := PatternsFor(Top(Start.stack));
    assert ps == TreePatterns;
    forall j | 0 <= j < |ps|
      ensures SourcePatterns(ps[j], "?") == 0
    {
      assert SourcePatterns(ps[j], "?") == MatchLength(ps[j], "?");
    }
    StepLineFirstMatch(SourcePatterns, Start, "?");
  }

  /** The evidently intended behaviour: a line no pattern matches fails
      tokenizing, with no last token when nothing was produced before. */
  lemma UnmatchedLineFails()
    ensures Tokenize("p", "?") == Err(SyntaxTokenError("p", "?", ["?"], None))
  {
    UnmatchedLineStalls();
    assert Split("?", '\n') == ["?"];
  }
}
