/** The plain-text source excerpt printed under a diagnostic
    (make/builder/error.ts:67-96 and 480-520), with colouring taken as the
    identity. A window of at most five lines around the highlighted line is
    printed with a right-aligned, 1-based line-number gutter; the highlighted
    line is followed by an underline of tildes. */
module Excerpts {
  import opened Results
  import opened Strings
  import Tokenizer
  import opened Trees

  /** The bounded range of `generateHighlightedError`. Its end character is
      `-1` for an empty last line; the renderer never reads it. */
  datatype Window = Window(startLine: nat, endLine: nat, endCharacter: int)

  /** The window around the highlight's start line: two lines either side,
      clipped to the file. An empty line list has no last line to read, and
      `assertString` throws (make/builder/error.ts:71-77). */
  function WindowFor(textByLine: seq<string>, highlight: Range): (r: Result<Window, GeometryFault>)
    ensures r.Err? <==> |textByLine| == 0
    ensures r.Ok? ==>
      r.value.endLine < |textByLine| && r.value.endCharacter == |textByLine[r.value.endLine]| - 1
  {
    var s := highlight.start.line;
    if |textByLine| == 0 then Err(MissingLine)
    else
      var e := if s + 2 < |textByLine| - 1 then s + 2 else |textByLine| - 1;
      Ok(Window(if s >= 2 then s - 2 else 0, e, |textByLine[e]| - 1))
  }

  /** The window holds at most five lines, reaches no further than two lines
      from the highlight on either side, ends at the file's last line or two
      lines below the highlight, and contains the highlighted line whenever
      that line exists. */
  lemma WindowAroundHighlight(textByLine: seq<string>, highlight: Range)
    requires |textByLine| > 0
    ensures var w := WindowFor(textByLine, highlight).value;
      var s := highlight.start.line;
      && w.startLine <= s && s <= w.startLine + 2
      && w.endLine <= s + 2
      && (w.endLine == s + 2 || w.endLine == |textByLine| - 1)
      && w.endLine + 1 - w.startLine <= 5
      && (s < |textByLine| ==> s <= w.endLine)
  {
  }

  /** The gutter of 0-based line `i`: its 1-based number padded to `pad`, or
      blank for the file's last line (make/builder/error.ts:493-497). */
  function Gutter(i: nat, lineCount: nat, pad: nat): string {
    if i + 1 < lineCount then PadStart(DecimalString(i + 1), pad) else Spaces(pad)
  }

  /** A numbered gutter is spaces followed by the line's 1-based number and
      is at least `pad` wide; the last line's gutter is `pad` spaces. */
  lemma GutterNumbersFromOne(i: nat, lineCount: nat, pad: nat)
    ensures var g := Gutter(i, lineCount, pad);
      && |g| >= pad
      && (i + 1 < lineCount ==>
           var d := DecimalString(i + 1);
           && g[|g| - |d|..] == d
           && DecimalValue(d) == i + 1
           && forall k :: 0 <= k < |g| - |d| ==> g[k] == ' ')
      && (i + 1 >= lineCount ==> g == Spaces(pad))
  {
    if i + 1 < lineCount {
      DecimalRoundTrip(i + 1);
    }
  }

  /** The gutter width is the digit count of the window's 0-based end index,
      so the 1-based number of that line can be one digit wider than the
      rest: in an eleven-line file, line index 9 prints as `10` in a gutter
      sized for `9`. */
  lemma GutterCanOutgrowPad()
    ensures |DecimalString(9)| == 1
    ensures Gutter(9, 11, |DecimalString(9)|) == "10"
  {
    assert DecimalString(10) == DecimalString(1) + [DigitChar(0)];
  }

  /** The underline's tildes: `new Array(end - start + 1).join('~')`. */
  function Squiggle(highlight: Range): Option<string> {
    ArrayJoin(highlight.end.character - highlight.start.character + 1, '~')
  }

  /** A window line as printed: gutter, bar, the line's text. */
  function NumberedRow(textByLine: seq<string>, i: nat, pad: nat): string
    requires i < |textByLine|
  {
    Gutter(i, |textByLine|, pad) + " | " + textByLine[i]
  }

  /** The underline row: blank under a gutter `width` wide, then the
      highlight's start column in spaces, then the tildes. */
  function Underline(width: nat, highlight: Range, tildes: string): string {
    Spaces(width) + " | " + Spaces(highlight.start.character) + tildes
  }

  /** The tildes under a highlight: one per column from its start to its
      end character, none when the end lies left of the start. */
  function Tildes(highlight: Range): (r: string)
    ensures |r| == if highlight.end.character >= highlight.start.character
      then highlight.end.character - highlight.start.character else 0
    ensures forall k :: 0 <= k < |r| ==> r[k] == '~'
  {
    Repeat('~', if highlight.end.character >= highlight.start.character
      then highlight.end.character - highlight.start.character else 0)
  }

  /** A printed row of the window: a source line, or the underline under
      the highlighted line. */
  datatype Row = LineRow(index: nat) | UnderlineRow(line: nat)

  /** The layout of window lines `i..n` (make/builder/error.ts:491-515):
      each line's row, followed by the underline row after the highlighted
      line. Building the underline fails when its array length is negative. */
  function Rows(i: nat, n: nat, highlight: Range): (r: Result<seq<Row>, GeometryFault>)
    ensures r.Ok? ==> forall k :: 0 <= k < |r.value| ==> r.value[k].LineRow? ==> i <= r.value[k].index <= n
    ensures r.Err? ==> r.error == NegativeArrayLength
    decreases n + 1 - i
  {
    if i > n then Ok([])
    else if highlight.start.line == i && Squiggle(highlight).None? then Err(NegativeArrayLength)
    else
      var here := if highlight.start.line == i then [LineRow(i), UnderlineRow(i)] else [LineRow(i)];
      match Rows(i + 1, n, highlight)
      case Err(f) => Err(f)
      case Ok(rest) => Ok(here + rest)
  }

  /** Whether the highlighted line lies in the window `i..n`. */
  predicate Shows(i: nat, n: nat, highlight: Range) {
    i <= highlight.start.line <= n
  }

  /** The layout fails exactly when the highlighted line is shown and its end
      character lies more than one column left of its start. */
  lemma {:induction false} RowsOkIff(i: nat, n: nat, highlight: Range)
    ensures Rows(i, n, highlight).Ok? <==>
      !Shows(i, n, highlight) || highlight.end.character + 1 >= highlight.start.character
    decreases n + 1 - i
  {
    if i <= n {
      RowsOkIff(i + 1, n, highlight);
    }
  }

  /** One row per window line, plus one underline row when the highlighted
      line is shown. */
  lemma {:induction false} RowsCount(i: nat, n: nat, highlight: Range)
    requires Rows(i, n, highlight).Ok?
    ensures |Rows(i, n, highlight).value|
      == (if i <= n then n + 1 - i else 0) + (if Shows(i, n, highlight) then 1 else 0)
    decreases n + 1 - i
  {
    if i <= n {
      RowsCount(i + 1, n, highlight);
    }
  }

  /** Where line `j` of the window is printed: after the rows of the lines
      before it and the underline, when that came before it. */
  function RowIndex(i: nat, j: nat, highlight: Range): nat
    requires i <= j
  {
    j - i + (if i <= highlight.start.line < j then 1 else 0)
  }

  /** Every window line gets its row, in order. */
  lemma {:induction false} RowsShowLine(i: nat, n: nat, highlight: Range, j: nat)
    requires i <= j <= n
    requires Rows(i, n, highlight).Ok?
    ensures RowIndex(i, j, highlight) < |Rows(i, n, highlight).value|
    ensures Rows(i, n, highlight).value[RowIndex(i, j, highlight)] == LineRow(j)
    decreases n + 1 - i
  {
    var all := Rows(i, n, highlight).value;
    var rest := Rows(i + 1, n, highlight).value;
    var w := if highlight.start.line == i then 2 else 1;
    assert all[w..] == rest;
    if i < j {
      RowsShowLine(i + 1, n, highlight, j);
      assert all[w + RowIndex(i + 1, j, highlight)] == rest[RowIndex(i + 1, j, highlight)];
    }
  }

  /** Where the underline is printed: right after the highlighted line. */
  function UnderlineIndex(i: nat, highlight: Range): nat
    requires i <= highlight.start.line
  {
    highlight.start.line - i + 1
  }

  /** The row after the highlighted line is its underline, and the layout
      only exists when the underline can be built. */
  lemma {:induction false} RowsUnderline(i: nat, n: nat, highlight: Range)
    requires Shows(i, n, highlight)
    requires Rows(i, n, highlight).Ok?
    ensures highlight.end.character + 1 >= highlight.start.character
    ensures UnderlineIndex(i, highlight) < |Rows(i, n, highlight).value|
    ensures Rows(i, n, highlight).value[UnderlineIndex(i, highlight)] == UnderlineRow(highlight.start.line)
    decreases n + 1 - i
  {
    if i < highlight.start.line {
      var all := Rows(i, n, highlight).value;
      var rest := Rows(i + 1, n, highlight).value;
      assert all[1..] == rest;
      RowsUnderline(i + 1, n, highlight);
      assert all[1 + UnderlineIndex(i + 1, highlight)] == rest[UnderlineIndex(i + 1, highlight)];
    }
  }

  /** A row as printed: a source line is its gutter, a bar and its text; the
      underline is blank under the gutter, then `start.character` spaces, then
      one tilde per column up to the end character. */
  function RenderRow(textByLine: seq<string>, pad: nat, highlight: Range, row: Row): string
    requires row.LineRow? ==> row.index < |textByLine|
  {
    match row
    case LineRow(j) => NumberedRow(textByLine, j, pad)
    case UnderlineRow(j) => Underline(|Gutter(j, |textByLine|, pad)|, highlight, Tildes(highlight))
  }

  /** Prints a layout, row by row. */
  function RenderRows(textByLine: seq<string>, pad: nat, highlight: Range, rows: seq<Row>): (r: seq<string>)
    requires forall k :: 0 <= k < |rows| ==> rows[k].LineRow? ==> rows[k].index < |textByLine|
    ensures |r| == |rows|
    ensures forall k :: 0 <= k < |rows| ==> r[k] == RenderRow(textByLine, pad, highlight, rows[k])
  {
    if |rows| == 0 then []
    else [RenderRow(textByLine, pad, highlight, rows[0])] + RenderRows(textByLine, pad, highlight, rows[1..])
  }

  /** The underline's tildes are the ones `new Array(n).join('~')` builds
      whenever that array length is not negative. */
  lemma SquiggleIsTildes(highlight: Range)
    ensures Squiggle(highlight).Some? <==> highlight.end.character + 1 >= highlight.start.character
    ensures Squiggle(highlight).Some? ==> Squiggle(highlight).value == Tildes(highlight)
  {
  }

  /** The excerpt's lines: a blank gutter line, the window's rows, and a
      blank gutter line again (make/builder/error.ts:485-519). The gutter is
      as wide as the digits of the window's 0-based end index. */
  function ExcerptLines(textByLine: seq<string>, highlight: Range): (r: Result<seq<string>, GeometryFault>)
    ensures |textByLine| == 0 ==> r == Err(MissingLine)
  {
    match WindowFor(textByLine, highlight)
    case Err(f) => Err(f)
    case Ok(w) =>
      var pad := |DecimalString(w.endLine)|;
      var blank := Spaces(pad) + " |";
      match Rows(w.startLine, w.endLine, highlight)
      case Err(f) => Err(f)
      case Ok(rows) => Ok([blank] + RenderRows(textByLine, pad, highlight, rows) + [blank])
  }

  /** The excerpt renders whenever there is a line to show and the
      highlight's end is not more than one column left of its start on a
      shown line; it opens and closes with the blank gutter, and holds one
      line per window line plus the underline when the highlight is shown. */
  lemma ExcerptLayout(textByLine: seq<string>, highlight: Range)
    requires |textByLine| > 0
    ensures var w := WindowFor(textByLine, highlight).value;
      var r := ExcerptLines(textByLine, highlight);
      var shown := Shows(w.startLine, w.endLine, highlight);
      && (r.Ok? <==> !shown || highlight.end.character + 1 >= highlight.start.character)
      && (r.Ok? ==>
           var blank := Spaces(|DecimalString(w.endLine)|) + " |";
           && |r.value| == 2 + (if w.startLine <= w.endLine then w.endLine + 1 - w.startLine else 0)
                + (if shown then 1 else 0)
           && r.value[0] == blank && r.value[|r.value| - 1] == blank)
  {
    var w := WindowFor(textByLine, highlight).value;
    RowsOkIff(w.startLine, w.endLine, highlight);
    if Rows(w.startLine, w.endLine, highlight).Ok? {
      RowsCount(w.startLine, w.endLine, highlight);
    }
  }

  /** The printed rows sit between the two blank gutter lines. */
  lemma ExcerptRows(textByLine: seq<string>, highlight: Range)
    requires |textByLine| > 0
    requires ExcerptLines(textByLine, highlight).Ok?
    ensures var w := WindowFor(textByLine, highlight).value;
      var lines := ExcerptLines(textByLine, highlight).value;
      && Rows(w.startLine, w.endLine, highlight).Ok?
      && lines[1..|lines| - 1]
         == RenderRows(textByLine, |DecimalString(w.endLine)|, highlight, Rows(w.startLine, w.endLine, highlight).value)
  {
  }

  /** Every line of the window is printed, in order, as its gutter, a bar
      and its text. */
  lemma ExcerptShowsLine(textByLine: seq<string>, highlight: Range, j: nat)
    requires |textByLine| > 0
    requires ExcerptLines(textByLine, highlight).Ok?
    requires WindowFor(textByLine, highlight).value.startLine <= j <= WindowFor(textByLine, highlight).value.endLine
    ensures var w := WindowFor(textByLine, highlight).value;
      var lines := ExcerptLines(textByLine, highlight).value;
      && 1 + RowIndex(w.startLine, j, highlight) < |lines|
      && lines[1 + RowIndex(w.startLine, j, highlight)] == NumberedRow(textByLine, j, |DecimalString(w.endLine)|)
  {
    var w := WindowFor(textByLine, highlight).value;
    var lines := ExcerptLines(textByLine, highlight).value;
    ExcerptRows(textByLine, highlight);
    RowsShowLine(w.startLine, w.endLine, highlight, j);
    var k := RowIndex(w.startLine, j, highlight);
    assert lines[1 + k] == lines[1..|lines| - 1][k];
  }

  /** The highlighted line, when shown, is followed by its underline. */
  lemma ExcerptShowsUnderline(textByLine: seq<string>, highlight: Range)
    requires |textByLine| > 0
    requires ExcerptLines(textByLine, highlight).Ok?
    requires Shows(WindowFor(textByLine, highlight).value.startLine, WindowFor(textByLine, highlight).value.endLine, highlight)
    ensures var w := WindowFor(textByLine, highlight).value;
      var lines := ExcerptLines(textByLine, highlight).value;
      && 1 + UnderlineIndex(w.startLine, highlight) < |lines|
      && lines[1 + UnderlineIndex(w.startLine, highlight)]
         == Underline(|Gutter(highlight.start.line, |textByLine|, |DecimalString(w.endLine)|)|, highlight, Tildes(highlight))
  {
    var w := WindowFor(textByLine, highlight).value;
    var lines := ExcerptLines(textByLine, highlight).value;
    ExcerptRows(textByLine, highlight);
    RowsUnderline(w.startLine, w.endLine, highlight);
    var k := UnderlineIndex(w.startLine, highlight);
    var pad := |DecimalString(w.endLine)|;
    assert lines[1 + k] == lines[1..|lines| - 1][k];
    assert lines[1 + k] == RenderRow(textByLine, pad, highlight, UnderlineRow(highlight.start.line));
  }

  /** `generateHighlightedError`: the excerpt lines joined by line breaks. */
  function Excerpt(textByLine: seq<string>, highlight: Range): (r: Result<string, GeometryFault>)
    ensures r.Ok? <==> ExcerptLines(textByLine, highlight).Ok?
  {
    match ExcerptLines(textByLine, highlight)
    case Err(f) => Err(f)
    case Ok(lines) => Ok(Join(lines, "\n"))
  }

  /** `text` is the excerpt around `highlight`, and prints the highlighted
      line, when the file has it, with its 1-based number and its underline
      on the next line. */
  predicate PrintsHighlight(textByLine: seq<string>, highlight: Range, text: string) {
    && |textByLine| > 0
    && ExcerptLines(textByLine, highlight).Ok?
    && var lines := ExcerptLines(textByLine, highlight).value;
       var pad := |DecimalString(WindowFor(textByLine, highlight).value.endLine)|;
       && text == Join(lines, "\n")
       && (highlight.start.line < |textByLine| ==>
            exists k :: 0 <= k && k + 1 < |lines|
              && lines[k] == NumberedRow(textByLine, highlight.start.line, pad)
              && lines[k + 1] == Underline(|Gutter(highlight.start.line, |textByLine|, pad)|, highlight, Tildes(highlight)))
  }

  /** An excerpt fails exactly when the file has no lines (`MissingLine`) or
      the highlighted line is shown with its end more than one column left
      of its start (`NegativeArrayLength`); otherwise it prints the
      highlighted line with its number and underline. */
  lemma ExcerptPrintsHighlight(textByLine: seq<string>, highlight: Range)
    ensures |textByLine| == 0 ==> Excerpt(textByLine, highlight) == Err(MissingLine)
    ensures |textByLine| > 0 ==>
      var w := WindowFor(textByLine, highlight).value;
      && (Excerpt(textByLine, highlight).Err? <==>
           Shows(w.startLine, w.endLine, highlight) && highlight.end.character + 1 < highlight.start.character)
      && (Excerpt(textByLine, highlight).Err? ==> Excerpt(textByLine, highlight).error == NegativeArrayLength)
    ensures Excerpt(textByLine, highlight).Ok? ==>
      PrintsHighlight(textByLine, highlight, Excerpt(textByLine, highlight).value)
  {
    if |textByLine| > 0 {
      ExcerptLayout(textByLine, highlight);
      var s := highlight.start.line;
      if Excerpt(textByLine, highlight).Ok? && s < |textByLine| {
        var w := WindowFor(textByLine, highlight).value;
        WindowAroundHighlight(textByLine, highlight);
        ExcerptShowsLine(textByLine, highlight, s);
        ExcerptShowsUnderline(textByLine, highlight);
        var k := 1 + RowIndex(w.startLine, s, highlight);
        assert 1 + UnderlineIndex(w.startLine, highlight) == k + 1;
      }
    }
  }
}
