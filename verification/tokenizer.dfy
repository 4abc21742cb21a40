/** The link-text tokenizer (`tokenizeLinkText`,
    make/parser/tokenizer/index.ts:298-435): a mode stack of tree and text
    entries, an ordered pattern list chosen by the mode on top, first match
    wins, and the matched prefix cut off the line. Three behaviours of the
    source are kept as they are: the line counter `i` is never incremented,
    so break tokens appear after every line only when the text splits into
    more than two lines; the column `character` is never advanced within a
    line; and break tokens do not advance `offset`. */
module Tokenizer {
  import opened Results
  import opened Strings
  import opened Patterns

  /** `TextState` (make/parser/tokenizer/index.ts:186-189). */
  datatype Mode = TreeMode | TextMode

  datatype Position = Position(line: nat, character: nat)

  datatype Span = Span(start: nat, end: nat)

  datatype Token = Token(kind: Kind, offset: Span, start: Position, end: Position, text: string)

  /** `TEXT_PATTERN_LIST`, in priority order (make/parser/tokenizer/index.ts:51-70). */
  const TreePatterns: seq<Kind> := [
    CloseEvaluation, CloseInterpolation, CloseParenthesis, CloseText, Comma,
    Comment, Decimal, Hashtag, OpenEvaluation, OpenIndentation,
    OpenInterpolation, OpenNesting, OpenParenthesis, OpenText, Path,
    SignedInteger, TermFragment, UnsignedInteger
  ]

  /** `TEXT_STRING_PATTERN_LIST` (make/parser/tokenizer/index.ts:73-77). */
  const TextPatterns: seq<Kind> := [CloseInterpolation, CloseText, String]

  /** The mode on top of the stack; an empty stack reads as tree mode. */
  function Top(stack: seq<Mode>): Mode {
    if |stack| == 0 then TreeMode else stack[|stack| - 1]
  }

  function PatternsFor(m: Mode): seq<Kind> {
    if m == TreeMode then TreePatterns else TextPatterns
  }

  /** The kinds a mode's pattern list can produce: the tree list holds every
      kind but the string body and the break; the text list holds the two
      closers and the string body. */
  predicate InMode(k: Kind, mode: Mode) {
    if mode == TreeMode then k != String && k != Line
    else k == CloseInterpolation || k == CloseText || k == String
  }

  lemma PatternsInMode(mode: Mode)
    ensures forall j :: 0 <= j < |PatternsFor(mode)| ==> InMode(PatternsFor(mode)[j], mode)
  {
  }

  /** `Array.prototype.pop`: removes the top entry; a no-op on an empty stack. */
  function Pop(stack: seq<Mode>): seq<Mode> {
    if |stack| == 0 then [] else stack[..|stack| - 1]
  }

  /** The stack change after a token of kind `k` (make/parser/tokenizer/index.ts:353-370). */
  function StackEffect(k: Kind, stack: seq<Mode>): seq<Mode> {
    match k
    case OpenInterpolation => stack + [TreeMode]
    case CloseInterpolation => Pop(stack)
    case OpenText => stack + [TextMode]
    case CloseText => Pop(stack)
    case _ => stack
  }

  /** A matcher gives the length of a kind's match at the start of a line,
      zero when the kind's pattern does not match; it never exceeds the line.
      The tokenizer is stated for any matcher, and `Tokenize` runs it with the
      source's patterns, `MatchLength`. */
  type Matcher = m: (Kind, string) -> nat | forall k: Kind, s: string :: m(k, s) <= |s|
    witness (k: Kind, s: string) => 0

  /** The index of the first pattern at or after `i` that matches `s`. */
  function FirstMatchFrom(m: Matcher, patterns: seq<Kind>, s: string, i: nat): (r: Option<nat>)
    requires i <= |patterns|
    ensures r.Some? ==> i <= r.value < |patterns| && m(patterns[r.value], s) > 0
    ensures r.Some? ==> forall j :: i <= j < r.value ==> m(patterns[j], s) == 0
    ensures r.None? ==> forall j :: i <= j < |patterns| ==> m(patterns[j], s) == 0
    decreases |patterns| - i
  {
    if i == |patterns| then None
    else if m(patterns[i], s) > 0 then Some(i)
    else FirstMatchFrom(m, patterns, s, i + 1)
  }

  /** Conversely, a pattern that matches after a stretch of patterns that
      do not is the one found. */
  lemma {:induction false} FirstMatchIsFound(m: Matcher, patterns: seq<Kind>, s: string, i: nat, j: nat)
    requires i <= j < |patterns|
    requires forall k :: i <= k < j ==> m(patterns[k], s) == 0
    requires m(patterns[j], s) > 0
    ensures FirstMatchFrom(m, patterns, s, i) == Some(j)
    decreases j - i
  {
    if i < j {
      FirstMatchIsFound(m, patterns, s, i + 1, j);
    }
  }

  /** The tokenizer's position: mode stack, line, column and character offset. */
  datatype Cursor = Cursor(stack: seq<Mode>, line: nat, character: nat, offset: nat)

  datatype Step = Step(token: Token, rest: string, next: Cursor)

  /** One iteration of the inner loop (make/parser/tokenizer/index.ts:317-372):
      the first pattern of the current mode that matches wins; its token text
      is the first `n` characters of the line, where `n` is the match length,
      and the line loses those characters. `None` when no pattern matches. */
  function StepLine(m: Matcher, cur: Cursor, textLine: string): (r: Option<Step>)
    ensures r.Some? ==> r.value.token.text + r.value.rest == textLine && |r.value.token.text| > 0
  {
    var patterns := PatternsFor(Top(cur.stack));
    match FirstMatchFrom(m, patterns, textLine, 0)
    case None => None
    case Some(j) =>
      var kind := patterns[j];
      var n := m(kind, textLine);
      var token := Token(kind, Span(cur.offset, cur.offset + n),
                         Position(cur.line, cur.character), Position(cur.line, cur.character + n),
                         textLine[..n]);
      assert textLine[..n] + textLine[n..] == textLine;
      Some(Step(token, textLine[n..], cur.(stack := StackEffect(kind, cur.stack), offset := cur.offset + n)))
  }

  /** A step fails exactly when no pattern of the current mode matches; when
      it succeeds its kind is the first pattern of the mode that matches, the
      token covers that many characters from the cursor, and the cursor moves
      past them with the kind's stack effect applied. */
  lemma StepLineFirstMatch(m: Matcher, cur: Cursor, textLine: string)
    ensures var ps := PatternsFor(Top(cur.stack));
      StepLine(m, cur, textLine).None? <==> forall j :: 0 <= j < |ps| ==> m(ps[j], textLine) == 0
    ensures var ps := PatternsFor(Top(cur.stack));
      StepLine(m, cur, textLine).Some? ==>
        var t := StepLine(m, cur, textLine).value.token;
        exists j :: 0 <= j < |ps| && ps[j] == t.kind && m(t.kind, textLine) == |t.text|
                    && forall i :: 0 <= i < j ==> m(ps[i], textLine) == 0
  {
    var ps := PatternsFor(Top(cur.stack));
    var f := FirstMatchFrom(m, ps, textLine, 0);
    if f.Some? {
      assert ps[f.value] == StepLine(m, cur, textLine).value.token.kind;
    }
  }

  /** Where a step puts its token and its cursor. */
  lemma StepLinePlaces(m: Matcher, cur: Cursor, textLine: string)
    requires StepLine(m, cur, textLine).Some?
    ensures var s := StepLine(m, cur, textLine).value;
      && InMode(s.token.kind, Top(cur.stack))
      && s.next == cur.(stack := StackEffect(s.token.kind, cur.stack), offset := cur.offset + |s.token.text|)
      && s.token.offset == Span(cur.offset, cur.offset + |s.token.text|)
      && s.token.start == Position(cur.line, cur.character)
      && s.token.end == Position(cur.line, cur.character + |s.token.text|)
  {
    var ps := PatternsFor(Top(cur.stack));
    var j := FirstMatchFrom(m, ps, textLine, 0).value;
    PatternsInMode(Top(cur.stack));
    assert InMode(ps[j], Top(cur.stack));
  }

  /** Every entry below the top of the stack is a tree entry. */
  predicate TreeBelowTop(stack: seq<Mode>) {
    forall j :: 0 <= j < |stack| - 1 ==> stack[j] == TreeMode
  }

  /** Tree mode never yields a string body; text mode never opens text or an
      interpolation, and yields nothing but the two closers and the body. */
  lemma ModeRestrictsKinds(m: Matcher, cur: Cursor, textLine: string)
    requires StepLine(m, cur, textLine).Some?
    ensures var k := StepLine(m, cur, textLine).value.token.kind;
      && (Top(cur.stack) == TreeMode ==> k != String && k != Line)
      && (Top(cur.stack) == TextMode ==> k == CloseInterpolation || k == CloseText || k == String)
  {
    StepLinePlaces(m, cur, textLine);
  }

  /** The stack keeps only tree entries below its top, because both kinds
      that push are found only in the tree-mode list. */
  lemma StepKeepsTreeBelowTop(m: Matcher, cur: Cursor, textLine: string)
    requires StepLine(m, cur, textLine).Some?
    ensures TreeBelowTop(cur.stack) ==> TreeBelowTop(StepLine(m, cur, textLine).value.next.stack)
  {
    var s := StepLine(m, cur, textLine).value;
    var k := s.token.kind;
    StepLinePlaces(m, cur, textLine);
    if TreeBelowTop(cur.stack) && (k == OpenInterpolation || k == OpenText) {
      assert Top(cur.stack) == TreeMode;
      var st := cur.stack + [if k == OpenText then TextMode else TreeMode];
      assert s.next.stack == st;
      forall j | 0 <= j < |st| - 1
        ensures st[j] == TreeMode
      {
        assert st[j] == cur.stack[j];
        if j == |cur.stack| - 1 {
          assert cur.stack[j] == Top(cur.stack);
        }
      }
    }
  }

  /** The last token produced so far (`tokenList[tokenList.length - 1]`). */
  function Last(ts: seq<Token>): Option<Token> {
    if |ts| == 0 then None else Some(ts[|ts| - 1])
  }

  /** Characters of line text consumed by the tokens: break tokens count zero. */
  function Consumed(ts: seq<Token>): nat {
    if |ts| == 0 then 0
    else Consumed(ts[..|ts| - 1]) + (if ts[|ts| - 1].kind == Line then 0 else |ts[|ts| - 1].text|)
  }

  /** Number of break tokens. */
  function Breaks(ts: seq<Token>): nat {
    if |ts| == 0 then 0 else Breaks(ts[..|ts| - 1]) + (if ts[|ts| - 1].kind == Line then 1 else 0)
  }

  /** The token texts, concatenated in order. */
  function Texts(ts: seq<Token>): string {
    if |ts| == 0 then "" else Texts(ts[..|ts| - 1]) + ts[|ts| - 1].text
  }

  /** Token `k` starts at the offset where the line text before it ends, on
      the line numbered by the breaks before it, at column zero, and its
      offset and column ranges are as long as its text. */
  predicate Placed(ts: seq<Token>, k: nat)
    requires k < |ts|
  {
    var t := ts[k];
    var before := ts[..k];
    && t.offset == Span(Consumed(before), Consumed(before) + |t.text|)
    && t.start == Position(Breaks(before), 0)
    && t.end == Position(Breaks(before), |t.text|)
    && (t.kind == Line ==> t.text == "\n")
  }

  predicate WellPlaced(ts: seq<Token>) {
    forall k :: 0 <= k < |ts| ==> Placed(ts, k)
  }

  /** The cursor sits right after the tokens produced so far. */
  predicate CursorAfter(cur: Cursor, ts: seq<Token>) {
    cur.offset == Consumed(ts) && cur.line == Breaks(ts) && cur.character == 0
  }

  /** A token placed right after well-placed tokens keeps them well placed. */
  lemma {:induction false} AppendPlaced(ts: seq<Token>, t: Token)
    ensures WellPlaced(ts)
            && t.offset == Span(Consumed(ts), Consumed(ts) + |t.text|)
            && t.start == Position(Breaks(ts), 0) && t.end == Position(Breaks(ts), |t.text|)
            && (t.kind == Line ==> t.text == "\n")
            ==> WellPlaced(ts + [t])
  {
    if !(WellPlaced(ts)
         && t.offset == Span(Consumed(ts), Consumed(ts) + |t.text|)
         && t.start == Position(Breaks(ts), 0) && t.end == Position(Breaks(ts), |t.text|)
         && (t.kind == Line ==> t.text == "\n")) {
      return;
    }
    var us := ts + [t];
    forall k | 0 <= k < |us|
      ensures Placed(us, k)
    {
      if k < |ts| {
        assert us[..k] == ts[..k];
        assert us[k] == ts[k];
        assert Placed(ts, k);
      } else {
        assert us[..k] == ts;
      }
    }
  }

  lemma AppendCounts(ts: seq<Token>, t: Token)
    ensures Consumed(ts + [t]) == Consumed(ts) + (if t.kind == Line then 0 else |t.text|)
    ensures Breaks(ts + [t]) == Breaks(ts) + (if t.kind == Line then 1 else 0)
    ensures Texts(ts + [t]) == Texts(ts) + t.text
  {
    assert (ts + [t])[..|ts|] == ts;
  }

  datatype Progress = Progress(cursor: Cursor, tokens: seq<Token>)

  /** The `while (textLine)` loop over one line, with the evident intent of
      lines 378-385 made explicit: when no pattern matches, tokenizing fails
      with the last token produced so far. The source instead repeats the
      scan on the unchanged line forever, so that throw is never reached. */
  function TokenizeLine(m: Matcher, cur: Cursor, textLine: string, acc: seq<Token>): (r: Result<Progress, Option<Token>>)
    ensures r.Err? && |acc| > 0 ==> r.error.Some?
    ensures r.Ok? ==> |r.value.tokens| >= |acc|
    decreases |textLine|
  {
    if |textLine| == 0 then Ok(Progress(cur, acc))
    else
      match StepLine(m, cur, textLine)
      case None => Err(Last(acc))
      case Some(s) => TokenizeLine(m, s.next, s.rest, acc + [s.token])
  }

  /** The tokens of one line spell the line. */
  lemma {:induction false} TokenizeLineSpellsLine(m: Matcher, cur: Cursor, textLine: string, acc: seq<Token>)
    requires TokenizeLine(m, cur, textLine, acc).Ok?
    ensures Texts(TokenizeLine(m, cur, textLine, acc).value.tokens) == Texts(acc) + textLine
    decreases |textLine|
  {
    if |textLine| > 0 {
      var s := StepLine(m, cur, textLine).value;
      AppendCounts(acc, s.token);
      TokenizeLineSpellsLine(m, s.next, s.rest, acc + [s.token]);
      assert Texts(acc) + s.token.text + s.rest == Texts(acc) + textLine;
    }
  }

  /** One line adds no break and leaves the line and column where they were. */
  lemma {:induction false} TokenizeLineAddsNoBreak(m: Matcher, cur: Cursor, textLine: string, acc: seq<Token>)
    requires TokenizeLine(m, cur, textLine, acc).Ok?
    ensures var p := TokenizeLine(m, cur, textLine, acc).value;
      Breaks(p.tokens) == Breaks(acc) && p.cursor.line == cur.line && p.cursor.character == cur.character
    decreases |textLine|
  {
    if |textLine| > 0 {
      var s := StepLine(m, cur, textLine).value;
      ModeRestrictsKinds(m, cur, textLine);
      StepLinePlaces(m, cur, textLine);
      AppendCounts(acc, s.token);
      TokenizeLineAddsNoBreak(m, s.next, s.rest, acc + [s.token]);
    }
  }

  /** The tokens of one line extend the tokens before them. */
  lemma {:induction false} TokenizeLineExtends(m: Matcher, cur: Cursor, textLine: string, acc: seq<Token>)
    requires TokenizeLine(m, cur, textLine, acc).Ok?
    ensures var p := TokenizeLine(m, cur, textLine, acc).value;
      |acc| <= |p.tokens| && p.tokens[..|acc|] == acc
    decreases |textLine|
  {
    if |textLine| > 0 {
      var s := StepLine(m, cur, textLine).value;
      var acc' := acc + [s.token];
      TokenizeLineExtends(m, s.next, s.rest, acc');
      var p := TokenizeLine(m, cur, textLine, acc).value;
      assert p.tokens[..|acc|] == p.tokens[..|acc'|][..|acc|];
    }
  }

  /** Tokens of one line are placed contiguously after the tokens before them. */
  lemma {:induction false} TokenizeLinePlaces(m: Matcher, cur: Cursor, textLine: string, acc: seq<Token>)
    requires TokenizeLine(m, cur, textLine, acc).Ok?
    requires WellPlaced(acc) && CursorAfter(cur, acc)
    ensures var p := TokenizeLine(m, cur, textLine, acc).value;
      WellPlaced(p.tokens) && CursorAfter(p.cursor, p.tokens)
    decreases |textLine|
  {
    if |textLine| > 0 {
      var s := StepLine(m, cur, textLine).value;
      StepLinePlaces(m, cur, textLine);
      ModeRestrictsKinds(m, cur, textLine);
      AppendCounts(acc, s.token);
      AppendPlaced(acc, s.token);
      TokenizeLinePlaces(m, s.next, s.rest, acc + [s.token]);
    }
  }

  /** A line keeps the stack's entries below the top all tree entries. */
  lemma {:induction false} TokenizeLineKeepsStack(m: Matcher, cur: Cursor, textLine: string, acc: seq<Token>)
    requires TokenizeLine(m, cur, textLine, acc).Ok?
    requires TreeBelowTop(cur.stack)
    ensures TreeBelowTop(TokenizeLine(m, cur, textLine, acc).value.cursor.stack)
    decreases |textLine|
  {
    if |textLine| > 0 {
      var s := StepLine(m, cur, textLine).value;
      StepKeepsTreeBelowTop(m, cur, textLine);
      TokenizeLineKeepsStack(m, s.next, s.rest, acc + [s.token]);
    }
  }

  /** The break token for the current position: covers one offset without
      advancing the cursor (make/parser/tokenizer/index.ts:388-403). */
  function BreakToken(cur: Cursor): Token {
    Token(Line, Span(cur.offset, cur.offset + 1), Position(cur.line, cur.character),
          Position(cur.line, cur.character + 1), "\n")
  }

  /** The concatenation of `lines[k..]`, each followed by `sep`. */
  function Rendered(lines: seq<string>, k: nat, sep: string): string
    requires k <= |lines|
    decreases |lines| - k
  {
    if k == |lines| then "" else lines[k] + sep + Rendered(lines, k + 1, sep)
  }

  /** What follows each line in the token texts: a break exactly when the
      text has more than two lines. */
  function LineEnd(lines: seq<string>): string {
    if |lines| > 2 then "\n" else ""
  }

  /** The outer loop over `lines[k..]` (make/parser/tokenizer/index.ts:315-410).
      The source's `i` stays zero, so a break token follows each line exactly
      when there are more than two lines; the break moves to the next line
      and resets the (never advanced) column. */
  function TokenizeLines(m: Matcher, lines: seq<string>, k: nat, cur: Cursor, acc: seq<Token>): (r: Result<Progress, Option<Token>>)
    requires k <= |lines|
    ensures r.Err? && |acc| > 0 ==> r.error.Some?
    decreases |lines| - k
  {
    if k == |lines| then Ok(Progress(cur, acc))
    else
      var i := 0; // never incremented in the source
      match TokenizeLine(m, cur, lines[k], acc)
      case Err(last) => Err(last)
      case Ok(p) =>
        if i < |lines| - 2 then
          var next := p.cursor.(line := p.cursor.line + 1, character := 0);
          TokenizeLines(m, lines, k + 1, next, p.tokens + [BreakToken(p.cursor)])
        else
          TokenizeLines(m, lines, k + 1, p.cursor, p.tokens)
  }

  /** One round of the line loop: the line's tokens, then a break when there
      are more than two lines, then the remaining lines. */
  lemma TokenizeLinesUnfold(m: Matcher, lines: seq<string>, k: nat, cur: Cursor, acc: seq<Token>)
    requires k < |lines|
    requires TokenizeLines(m, lines, k, cur, acc).Ok?
    ensures TokenizeLine(m, cur, lines[k], acc).Ok?
    ensures var p := TokenizeLine(m, cur, lines[k], acc).value;
      |lines| > 2 ==>
        TokenizeLines(m, lines, k, cur, acc) ==
        TokenizeLines(m, lines, k + 1, p.cursor.(line := p.cursor.line + 1, character := 0), p.tokens + [BreakToken(p.cursor)])
    ensures var p := TokenizeLine(m, cur, lines[k], acc).value;
      |lines| <= 2 ==> TokenizeLines(m, lines, k, cur, acc) == TokenizeLines(m, lines, k + 1, p.cursor, p.tokens)
  {
  }

  lemma Regroup(a: string, b: string, c: string, d: string)
    ensures a + b + c + d == a + (b + c + d)
  {
  }

  /** One round of the line loop, as the state the remaining lines start
      from: the line's text and, with more than two lines, one break more. */
  lemma LinesStep(m: Matcher, lines: seq<string>, k: nat, cur: Cursor, acc: seq<Token>) returns (cur2: Cursor, acc2: seq<Token>)
    requires k < |lines|
    requires TokenizeLines(m, lines, k, cur, acc).Ok?
    ensures TokenizeLines(m, lines, k, cur, acc) == TokenizeLines(m, lines, k + 1, cur2, acc2)
    ensures Texts(acc2) == Texts(acc) + lines[k] + LineEnd(lines)
    ensures Breaks(acc2) == Breaks(acc) + (if |lines| > 2 then 1 else 0)
  {
    TokenizeLinesUnfold(m, lines, k, cur, acc);
    var p := TokenizeLine(m, cur, lines[k], acc).value;
    TokenizeLineSpellsLine(m, cur, lines[k], acc);
    TokenizeLineAddsNoBreak(m, cur, lines[k], acc);
    if |lines| > 2 {
      cur2, acc2 := p.cursor.(line := p.cursor.line + 1, character := 0), p.tokens + [BreakToken(p.cursor)];
      AppendCounts(p.tokens, BreakToken(p.cursor));
    } else {
      cur2, acc2 := p.cursor, p.tokens;
    }
  }

  /** The remaining lines are spelled in order, each followed by a break
      exactly when there are more than two lines. */
  lemma {:induction false} TokenizeLinesSpellsLines(m: Matcher, lines: seq<string>, k: nat, cur: Cursor, acc: seq<Token>)
    requires k <= |lines|
    requires TokenizeLines(m, lines, k, cur, acc).Ok?
    ensures Texts(TokenizeLines(m, lines, k, cur, acc).value.tokens) == Texts(acc) + Rendered(lines, k, LineEnd(lines))
    decreases |lines| - k
  {
    if k < |lines| {
      var cur2, acc2 := LinesStep(m, lines, k, cur, acc);
      TokenizeLinesSpellsLines(m, lines, k + 1, cur2, acc2);
      Regroup(Texts(acc), lines[k], LineEnd(lines), Rendered(lines, k + 1, LineEnd(lines)));
    }
  }

  /** Each remaining line adds a break exactly when there are more than two
      lines, and those breaks are the only ones added. */
  lemma {:induction false} TokenizeLinesCountsBreaks(m: Matcher, lines: seq<string>, k: nat, cur: Cursor, acc: seq<Token>)
    requires k <= |lines|
    requires TokenizeLines(m, lines, k, cur, acc).Ok?
    ensures Breaks(TokenizeLines(m, lines, k, cur, acc).value.tokens)
            == Breaks(acc) + (if |lines| > 2 then |lines| - k else 0)
    decreases |lines| - k
  {
    if k < |lines| {
      var cur2, acc2 := LinesStep(m, lines, k, cur, acc);
      TokenizeLinesCountsBreaks(m, lines, k + 1, cur2, acc2);
    }
  }

  /** Every token of the remaining lines, breaks included, is placed. */
  lemma {:induction false} TokenizeLinesPlaces(m: Matcher, lines: seq<string>, k: nat, cur: Cursor, acc: seq<Token>)
    requires k <= |lines|
    requires TokenizeLines(m, lines, k, cur, acc).Ok?
    requires WellPlaced(acc) && CursorAfter(cur, acc)
    ensures var p := TokenizeLines(m, lines, k, cur, acc).value;
      WellPlaced(p.tokens) && CursorAfter(p.cursor, p.tokens)
    decreases |lines| - k
  {
    if k < |lines| {
      TokenizeLinesUnfold(m, lines, k, cur, acc);
      var p := TokenizeLine(m, cur, lines[k], acc).value;
      TokenizeLinePlaces(m, cur, lines[k], acc);
      if |lines| > 2 {
        var b := BreakToken(p.cursor);
        AppendCounts(p.tokens, b);
        AppendPlaced(p.tokens, b);
        TokenizeLinesPlaces(m, lines, k + 1, p.cursor.(line := p.cursor.line + 1, character := 0), p.tokens + [b]);
      } else {
        TokenizeLinesPlaces(m, lines, k + 1, p.cursor, p.tokens);
      }
    }
  }

  /** Over all remaining lines the stack keeps only tree entries below its
      top; nothing requires it to be back to its initial single entry. */
  lemma {:induction false} TokenizeLinesKeepsStack(m: Matcher, lines: seq<string>, k: nat, cur: Cursor, acc: seq<Token>)
    requires k <= |lines|
    requires TokenizeLines(m, lines, k, cur, acc).Ok?
    requires TreeBelowTop(cur.stack)
    ensures TreeBelowTop(TokenizeLines(m, lines, k, cur, acc).value.cursor.stack)
    decreases |lines| - k
  {
    if k < |lines| {
      TokenizeLinesUnfold(m, lines, k, cur, acc);
      var p := TokenizeLine(m, cur, lines[k], acc).value;
      TokenizeLineKeepsStack(m, cur, lines[k], acc);
      if |lines| > 2 {
        TokenizeLinesKeepsStack(m, lines, k + 1, p.cursor.(line := p.cursor.line + 1, character := 0), p.tokens + [BreakToken(p.cursor)]);
      } else {
        TokenizeLinesKeepsStack(m, lines, k + 1, p.cursor, p.tokens);
      }
    }
  }

  /** Every token starts on a line below `bound`. */
  predicate StartsBelow(ts: seq<Token>, bound: nat) {
    forall j :: 0 <= j < |ts| ==> ts[j].start.line < bound
  }

  /** A line's tokens start on the cursor's line, which the line loop never
      leaves; so when it fails, the last token produced starts below any
      bound the cursor and the earlier tokens keep. */
  lemma {:induction false} TokenizeLineStartsBelow(m: Matcher, cur: Cursor, textLine: string, acc: seq<Token>, bound: nat)
    requires cur.line < bound && StartsBelow(acc, bound)
    ensures var r := TokenizeLine(m, cur, textLine, acc);
      r.Ok? ==> r.value.cursor.line == cur.line && StartsBelow(r.value.tokens, bound)
    ensures var r := TokenizeLine(m, cur, textLine, acc);
      r.Err? && r.error.Some? ==> r.error.value.start.line < bound
    decreases |textLine|
  {
    if |textLine| > 0 {
      match StepLine(m, cur, textLine)
      case None =>
      case Some(s) =>
        TokenizeLineStartsBelow(m, s.next, s.rest, acc + [s.token], bound);
    }
  }

  /** When the line loop fails, the last token produced starts on one of
      the text's lines: the cursor is never past the line being read, and
      the break after a line sits on that line. */
  lemma {:induction false} TokenizeLinesFailsOnALine(m: Matcher, lines: seq<string>, k: nat, cur: Cursor, acc: seq<Token>)
    requires k <= |lines|
    requires cur.line <= k && StartsBelow(acc, k + 1)
    ensures var r := TokenizeLines(m, lines, k, cur, acc);
      r.Err? && r.error.Some? ==> r.error.value.start.line < |lines|
    decreases |lines| - k
  {
    if k < |lines| {
      TokenizeLineStartsBelow(m, cur, lines[k], acc, k + 1);
      match TokenizeLine(m, cur, lines[k], acc)
      case Err(_) =>
      case Ok(p) =>
        if 0 < |lines| - 2 {
          var next := p.cursor.(line := p.cursor.line + 1, character := 0);
          var acc2 := p.tokens + [BreakToken(p.cursor)];
          assert StartsBelow(acc2, k + 2) by {
            forall j | 0 <= j < |acc2| ensures acc2[j].start.line < k + 2 {
              if j < |p.tokens| { assert acc2[j] == p.tokens[j]; }
            }
          }
          TokenizeLinesFailsOnALine(m, lines, k + 1, next, acc2);
        } else {
          TokenizeLinesFailsOnALine(m, lines, k + 1, p.cursor, p.tokens);
        }
    }
  }

  /** A failed run's last token, when there is one, starts on a line of the
      text. */
  lemma TokenizeFailsOnALine(m: Matcher, path: string, text: string)
    requires TokenizeWith(m, path, text).Err?
    ensures var e := TokenizeWith(m, path, text).error;
      e.lastToken.Some? ==> e.lastToken.value.start.line < |e.textInLines|
  {
    TokenizeLinesFailsOnALine(m, Split(text, '\n'), 0, Start, []);
  }

  /** `TextSplitInputType` plus the token list. */
  datatype TextResult = TextResult(path: string, text: string, textInLines: seq<string>, tokens: seq<Token>)

  /** The failure the source means to raise with `generateSyntaxTokenError`. */
  datatype SyntaxTokenError = SyntaxTokenError(path: string, text: string, textInLines: seq<string>, lastToken: Option<Token>)

  /** The source's pattern set as a matcher. */
  const SourcePatterns: Matcher := (k: Kind, s: string) => MatchLength(k, s)

  /** The initial cursor: one tree entry on the stack, everything at zero. */
  const Start: Cursor := Cursor([TreeMode], 0, 0, 0)

  /** `tokenizeLinkText` with the given matcher: split on line breaks, run
      the line loop from an initial stack holding one tree entry, then append
      the trailing break. */
  function TokenizeWith(m: Matcher, path: string, text: string): (r: Result<TextResult, SyntaxTokenError>)
    ensures r.Ok? ==> r.value.textInLines == Split(text, '\n') && r.value.path == path && r.value.text == text
    ensures r.Err? ==> r.error.textInLines == Split(text, '\n') && r.error.path == path && r.error.text == text
  {
    var lines := Split(text, '\n');
    match TokenizeLines(m, lines, 0, Start, [])
    case Err(last) => Err(SyntaxTokenError(path, text, lines, last))
    case Ok(p) => Ok(TextResult(path, text, lines, p.tokens + [BreakToken(p.cursor)]))
  }

  /** `tokenizeLinkText` (make/parser/tokenizer/index.ts:298-435). */
  function Tokenize(path: string, text: string): Result<TextResult, SyntaxTokenError> {
    TokenizeWith(SourcePatterns, path, text)
  }

  /** Every token of a successful run is placed: contiguous offsets that
      break tokens do not advance, the line number counting the breaks before
      it, column zero, ranges as long as the text. The stream ends with a
      break token. */
  lemma TokenizePlaces(m: Matcher, path: string, text: string)
    requires TokenizeWith(m, path, text).Ok?
    ensures var ts := TokenizeWith(m, path, text).value.tokens;
      WellPlaced(ts) && ts[|ts| - 1].kind == Line && ts[|ts| - 1].text == "\n"
  {
    var lines := Split(text, '\n');
    var p := TokenizeLines(m, lines, 0, Start, []).value;
    TokenizeLinesPlaces(m, lines, 0, Start, []);
    AppendCounts(p.tokens, BreakToken(p.cursor));
    AppendPlaced(p.tokens, BreakToken(p.cursor));
  }

  /** A successful run holds a break per line only when there are more than
      two lines, plus the trailing break. */
  lemma TokenizeCountsBreaks(m: Matcher, path: string, text: string)
    requires TokenizeWith(m, path, text).Ok?
    ensures var lines := Split(text, '\n');
      Breaks(TokenizeWith(m, path, text).value.tokens) == (if |lines| > 2 then |lines| else 0) + 1
  {
    var lines := Split(text, '\n');
    var p := TokenizeLines(m, lines, 0, Start, []).value;
    TokenizeLinesCountsBreaks(m, lines, 0, Start, []);
    AppendCounts(p.tokens, BreakToken(p.cursor));
  }

  /** The token texts of a successful run spell the lines, each followed by a
      break when there are more than two (then they spell the text itself),
      and end with the trailing break. */
  lemma TokenizeSpellsText(m: Matcher, path: string, text: string)
    requires TokenizeWith(m, path, text).Ok?
    ensures var lines := Split(text, '\n');
      Texts(TokenizeWith(m, path, text).value.tokens)
        == (if |lines| > 2 then text + "\n" else Rendered(lines, 0, "")) + "\n"
  {
    var lines := Split(text, '\n');
    var p := TokenizeLines(m, lines, 0, Start, []).value;
    TokenizeLinesSpellsLines(m, lines, 0, Start, []);
    AppendCounts(p.tokens, BreakToken(p.cursor));
    if |lines| > 2 {
      RenderedWithBreaks(lines, 0);
      assert lines[0..] == lines;
      JoinSplit(text, '\n');
    }
  }

  /** Each line followed by a break is the joined text plus one break. */
  lemma {:induction false} RenderedWithBreaks(lines: seq<string>, k: nat)
    requires k < |lines|
    ensures Rendered(lines, k, "\n") == Join(lines[k..], "\n") + "\n"
    decreases |lines| - k
  {
    if k + 1 < |lines| {
      RenderedWithBreaks(lines, k + 1);
      assert lines[k..][1..] == lines[k + 1..];
    } else {
      assert lines[k..] == [lines[k]];
    }
  }
}
