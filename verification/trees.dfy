/** The parse tree the diagnostics walk, and the cursor ranges they compute
    over it (make/builder/error.ts:350-478). A nest is a list of lines; a line
    is a term or a text with a list of links; a link is a cord of source
    characters, a slot holding a nested nest, or a nested term. Object
    identity (`!==`) between two links is modelled as equality of their
    (line index, link index) positions in the nest. */
module Trees {
  import opened Results
  import Tokenizer

  type Position = Tokenizer.Position

  datatype LineLike = TermLine | TextLine | OtherLine

  datatype Nest = Nest(line: seq<TreeLine>)

  datatype TreeLine = TreeLine(like: LineLike, link: seq<Link>)

  datatype Link =
    | Cord(lineNumber: nat, start: nat, end: nat)
    | Slot(nest: Nest, size: nat)
    | TermLink(nest: Nest)
    | OtherLink

  /** `CursorRangeType`. */
  datatype Range = Range(start: Position, end: Position)

  const Zero: Range := Range(Tokenizer.Position(0, 0), Tokenizer.Position(0, 0))

  /** What building a diagnostic can throw: `new Error('Unhandled')` from
      the term range, a missing line in `assertString`, a RangeError from
      `new Array(n)`, `assertTreeType` finding no term line, and
      `assertString` finding no term name. */
  datatype GeometryFault = Unhandled | MissingLine | NegativeArrayLength | NotATerm | MissingName

  /** The range a cord covers on its own line. */
  function CordRange(c: Link): Range
    requires c.Cord?
  {
    Range(Tokenizer.Position(c.lineNumber, c.start), Tokenizer.Position(c.lineNumber, c.end))
  }

  /** The range before the end is moved: the first link's cord, or zero. */
  function StartRange(first: Link): Range {
    if first.Cord? then CordRange(first) else Zero
  }

  /** `getCursorRangeForTerm` (make/builder/error.ts:350-427). The end link
      is looked up in the LAST line at the index of the FIRST line's last
      link, as at make/builder/error.ts:390. */
  function TermRange(n: Nest): (r: Result<Range, GeometryFault>)
    decreases n
  {
    if |n.line| == 0 || n.line[0].like != TermLine || |n.line[0].link| == 0 then Ok(Zero)
    else
      var r0 := StartRange(n.line[0].link[0]);
      var lastTop := n.line[|n.line| - 1];
      var idx := |n.line[0].link| - 1;
      if lastTop.like != TermLine then Err(Unhandled)
      else if idx >= |lastTop.link| || (|n.line| == 1 && idx == 0) then Ok(r0)
      else
        var last := lastTop.link[idx];
        match last
        case Cord(ln, _, e) => Ok(r0.(end := Tokenizer.Position(ln, e)))
        case Slot(child, size) =>
          if |child.line| > 0 && child.line[|child.line| - 1].like == TermLine then
            (match TermRange(child)
             case Err(f) => Err(f)
             case Ok(cr) => Ok(r0.(end := Tokenizer.Position(cr.end.line, cr.end.character + size))))
          else Err(Unhandled)
        case TermLink(child) =>
          (match TermRange(child)
           case Err(f) => Err(f)
           case Ok(cr) => Ok(r0.(end := cr.end)))
        case OtherLink => Ok(r0)
  }

  /** `getCursorRangeForText` (make/builder/error.ts:429-478). */
  function TextRange(n: Nest): Range {
    if |n.line| != 1 || n.line[0].like != TextLine || |n.line[0].link| == 0 then Zero
    else
      var links := n.line[0].link;
      var r0 := StartRange(links[0]);
      var last := links[|links| - 1];
      if |links| > 1 && last.Cord? then r0.(end := Tokenizer.Position(last.lineNumber, last.end)) else r0
  }

  /** A nest with no first line, a first line that is not a term, or a first
      term with no links gets the zero range. */
  lemma TermRangeZero(n: Nest)
    ensures (|n.line| == 0 || n.line[0].like != TermLine || |n.line[0].link| == 0) ==> TermRange(n) == Ok(Zero)
  {
  }

  /** Once the first line is a term with links, the range fails exactly when
      the last line is not a term; otherwise it starts where the first cord
      starts (at zero when the first link is not a cord). */
  lemma TermRangeStart(n: Nest)
    requires |n.line| > 0 && n.line[0].like == TermLine && |n.line[0].link| > 0
    ensures n.line[|n.line| - 1].like != TermLine ==> TermRange(n) == Err(Unhandled)
    ensures TermRange(n).Ok? ==> TermRange(n).value.start == StartRange(n.line[0].link[0]).start
  {
  }

  /** A single term line of cords spans from its first cord's start to its
      last cord's end. */
  lemma TermRangeOfCords(links: seq<Link>)
    requires |links| > 0 && forall k :: 0 <= k < |links| ==> links[k].Cord?
    ensures TermRange(Nest([TreeLine(TermLine, links)]))
      == Ok(Range(CordRange(links[0]).start, CordRange(links[|links| - 1]).end))
  {
  }

  /** A nest whose first line is a term with links and whose last line is
      a term: the shape the range is computed for without failing at the
      top. */
  predicate TermShaped(n: Nest) {
    && |n.line| > 0 && n.line[0].like == TermLine && |n.line[0].link| > 0
    && n.line[|n.line| - 1].like == TermLine
  }

  /** Where the end link is read: in the LAST line, at the index of the
      FIRST line's last link. */
  function EndIndex(n: Nest): nat
    requires TermShaped(n)
  {
    |n.line[0].link| - 1
  }

  /** The end link exists, and the nest is not a single line of one link. */
  predicate ReadsEnd(n: Nest)
    requires TermShaped(n)
  {
    EndIndex(n) < |n.line[|n.line| - 1].link| && !(|n.line| == 1 && EndIndex(n) == 0)
  }

  function EndLink(n: Nest): Link
    requires TermShaped(n) && ReadsEnd(n)
  {
    n.line[|n.line| - 1].link[EndIndex(n)]
  }

  /** When no end link is read, or it is neither a cord, a slot nor a
      nested term, the range is the first link's own range. */
  lemma TermRangeKeepsStart(n: Nest)
    requires TermShaped(n)
    requires !ReadsEnd(n) || EndLink(n).OtherLink?
    ensures TermRange(n) == Ok(StartRange(n.line[0].link[0]))
  {
  }

  /** A cord at the end position contributes its own end. */
  lemma TermRangeThroughCord(n: Nest)
    requires TermShaped(n) && ReadsEnd(n) && EndLink(n).Cord?
    ensures TermRange(n)
      == Ok(Range(StartRange(n.line[0].link[0]).start, Tokenizer.Position(EndLink(n).lineNumber, EndLink(n).end)))
  {
  }

  /** A slot at the end position contributes its child's end, moved right by
      the slot's size; a child whose last line is not a term is unhandled,
      and a failure inside the child is the parent's failure. */
  lemma TermRangeThroughSlot(n: Nest)
    requires TermShaped(n) && ReadsEnd(n) && EndLink(n).Slot?
    ensures var child := EndLink(n).nest;
      && (!(|child.line| > 0 && child.line[|child.line| - 1].like == TermLine) ==> TermRange(n) == Err(Unhandled))
      && (|child.line| > 0 && child.line[|child.line| - 1].like == TermLine ==>
           && (TermRange(child).Err? ==> TermRange(n) == TermRange(child))
           && (TermRange(child).Ok? ==>
                TermRange(n) == Ok(Range(StartRange(n.line[0].link[0]).start,
                  Tokenizer.Position(TermRange(child).value.end.line,
                    TermRange(child).value.end.character + EndLink(n).size)))))
  {
  }

  /** A nested term at the end position contributes its child's end as is,
      and a failure inside the child is the parent's failure. */
  lemma TermRangeThroughTerm(n: Nest)
    requires TermShaped(n) && ReadsEnd(n) && EndLink(n).TermLink?
    ensures var child := EndLink(n).nest;
      && (TermRange(child).Err? ==> TermRange(n) == TermRange(child))
      && (TermRange(child).Ok? ==>
           TermRange(n) == Ok(Range(StartRange(n.line[0].link[0]).start, TermRange(child).value.end)))
  {
  }

  /** The quirk at make/builder/error.ts:390: with a one-link first line, the
      end is taken from the last line's FIRST link, not its last one. */
  lemma TermRangeEndUsesFirstLineWidth(a: nat, b: nat, c: nat)
    ensures TermRange(Nest([
        TreeLine(TermLine, [Cord(0, 0, a)]),
        TreeLine(TermLine, [Cord(1, 0, b), Cord(1, b + 1, b + 1 + c)])]))
      == Ok(Range(Tokenizer.Position(0, 0), Tokenizer.Position(1, b)))
  {
  }

  /** A text range is not zero only for a nest of exactly one text line
      with links; it starts where the first cord starts. */
  lemma TextRangeZero(n: Nest)
    ensures (|n.line| != 1 || n.line[0].like != TextLine || |n.line[0].link| == 0) ==> TextRange(n) == Zero
    ensures (|n.line| == 1 && n.line[0].like == TextLine && |n.line[0].link| > 0) ==>
      TextRange(n).start == StartRange(n.line[0].link[0]).start
  {
  }

  /** On a single line of cords the text range and the term range agree:
      both span from the first cord's start to the last cord's end. */
  lemma TextRangeAgreesWithTermRange(links: seq<Link>)
    requires |links| > 0 && forall k :: 0 <= k < |links| ==> links[k].Cord?
    ensures TermRange(Nest([TreeLine(TermLine, links)])) == Ok(TextRange(Nest([TreeLine(TextLine, links)])))
  {
    TermRangeOfCords(links);
  }

  /** The text range's end never comes from a link that is not a cord. */
  lemma TextRangeIgnoresNonCordEnd(links: seq<Link>)
    requires |links| > 0 && !links[|links| - 1].Cord?
    ensures TextRange(Nest([TreeLine(TextLine, links)])) == StartRange(links[0])
  {
  }
}
