/** The token kinds of the link-text tokenizer and one hand-written matcher
    per kind, each reproducing what the kind's regular expression matches at
    the start of a line (make/parser/tokenizer/index.ts:206-270). A matcher
    returns the length of `match[0]`; zero means the expression does not
    match. Greedy quantifiers are followed to the first successful path of a
    backtracking engine, which for these expressions is the greedy one. */
module Patterns {
  import opened Strings

  /** The `Text` enum (make/parser/tokenizer/index.ts:3-24). */
  datatype Kind =
    | CloseEvaluation | CloseInterpolation | CloseParenthesis | CloseText
    | Comma | Comment | Decimal | Hashtag | Line
    | OpenEvaluation | OpenIndentation | OpenInterpolation | OpenNesting
    | OpenParenthesis | OpenText | Path | SignedInteger | String
    | TermFragment | UnsignedInteger

  /** Length of the longest run of characters satisfying `p` from `i`. */
  function Run(s: string, i: nat, p: char -> bool): (n: nat)
    requires i <= |s|
    ensures i + n <= |s|
    ensures forall k :: i <= k < i + n ==> p(s[k])
    ensures i + n == |s| || !p(s[i + n])
    decreases |s| - i
  {
    if i < |s| && p(s[i]) then 1 + Run(s, i + 1, p) else 0
  }

  /** One literal character at the start. */
  function Literal(s: string, c: char): (n: nat)
    ensures n <= |s|
    ensures n > 0 <==> |s| > 0 && s[0] == c
  {
    if |s| > 0 && s[0] == c then 1 else 0
  }

  /** Spaces, the bracket `b`, then spaces: the evaluation brackets. */
  function Bracketed(s: string, b: char): (n: nat)
    ensures n <= |s|
  {
    var a := Run(s, 0, c => c == ' ');
    if a < |s| && s[a] == b then a + 1 + Run(s, a + 1, c => c == ' ') else 0
  }

  /** A comma followed by at least one space. */
  function MatchComma(s: string): (n: nat)
    ensures n <= |s|
  {
    if |s| > 0 && s[0] == ',' then
      var r := Run(s, 1, c => c == ' ');
      if r >= 1 then 1 + r else 0
    else 0
  }

  /** A hash, one space, then at least one character up to a line break. */
  function MatchComment(s: string): (n: nat)
    ensures n <= |s|
  {
    if |s| >= 2 && s[0] == '#' && s[1] == ' ' then
      var r := Run(s, 2, c => c != '\n');
      if r >= 1 then 2 + r else 0
    else 0
  }

  /** An optional minus, digits, a dot, digits. */
  function MatchDecimal(s: string): (n: nat)
    ensures n <= |s|
  {
    var m := if |s| > 0 && s[0] == '-' then 1 else 0;
    var d1 := Run(s, m, IsDigit);
    if d1 >= 1 && m + d1 < |s| && s[m + d1] == '.' then
      var d2 := Run(s, m + d1 + 1, IsDigit);
      if d2 >= 1 then m + d1 + 1 + d2 else 0
    else 0
  }

  /** A hash followed by at least one word character. */
  function MatchHashtag(s: string): (n: nat)
    ensures n <= |s|
  {
    if |s| > 0 && s[0] == '#' then
      var r := Run(s, 1, IsWordChar);
      if r >= 1 then 1 + r else 0
    else 0
  }

  /** Exactly two spaces. */
  function MatchIndentation(s: string): (n: nat)
    ensures n <= |s|
  {
    if |s| >= 2 && s[0] == ' ' && s[1] == ' ' then 2 else 0
  }

  predicate NotSpace(c: char) {
    !IsJsSpace(c)
  }

  predicate NotSpaceNotSlash(c: char) {
    !IsJsSpace(c) && c != '/'
  }

  /** Repeated `/` each followed by at least one non-space non-slash character. */
  function SlashSegments(s: string, i: nat): (n: nat)
    requires i <= |s|
    ensures i + n <= |s|
    decreases |s| - i
  {
    if i < |s| && s[i] == '/' then
      var r := Run(s, i + 1, NotSpaceNotSlash);
      if r >= 1 then 1 + r + SlashSegments(s, i + 1 + r) else 0
    else 0
  }

  /** The three path alternatives: `@scope...`, `./...` or `../...`, `/a/b`. */
  function MatchPath(s: string): (n: nat)
    ensures n <= |s|
  {
    if |s| >= 2 && s[0] == '@' && NotSpaceNotSlash(s[1]) then
      1 + Run(s, 1, NotSpace)
    else if |s| >= 1 && s[0] == '.' then
      var d := if |s| >= 2 && s[1] == '.' then 2 else 1;
      if d < |s| && s[d] == '/' then d + Run(s, d, NotSpace) else d
    else
      SlashSegments(s, 0)
  }

  /** A minus and digits ending at a word boundary. */
  function MatchSignedInteger(s: string): (n: nat)
    ensures n <= |s|
  {
    if |s| > 0 && s[0] == '-' then
      var d := Run(s, 1, IsDigit);
      if d >= 1 && (1 + d == |s| || !IsWordChar(s[1 + d])) then 1 + d else 0
    else 0
  }

  /** Digits ending at a word boundary. */
  function MatchUnsignedInteger(s: string): (n: nat)
    ensures n <= |s|
  {
    var d := Run(s, 0, IsDigit);
    if d >= 1 && (d == |s| || !IsWordChar(s[d])) then d else 0
  }

  predicate IsLowerOrDigit(c: char) {
    IsLower(c) || IsDigit(c)
  }

  /** Hyphen groups: `-` followed by at least one lower-case letter or digit. */
  function HyphenGroups(s: string, j: nat): (e: nat)
    requires j <= |s|
    ensures j <= e <= |s|
    decreases |s| - j
  {
    if j < |s| && s[j] == '-' then
      var r := Run(s, j + 1, IsLowerOrDigit);
      if r >= 1 then HyphenGroups(s, j + 1 + r) else j
    else j
  }

  /** One term word from a lower-case letter at `i`: letters and digits,
      hyphen groups, an optional question mark. Returns the end position. */
  function TermWord(s: string, i: nat): (e: nat)
    requires i < |s| && IsLower(s[i])
    ensures i < e <= |s|
  {
    var j0 := i + 1 + Run(s, i + 1, IsLowerOrDigit);
    var j1 := HyphenGroups(s, j0);
    if j1 < |s| && s[j1] == '?' then j1 + 1 else j1
  }

  /** Further words, each introduced by `/` and a lower-case letter. */
  function SlashWords(s: string, j: nat): (e: nat)
    requires j <= |s|
    ensures j <= e <= |s|
    decreases |s| - j
  {
    if j + 1 < |s| && s[j] == '/' && IsLower(s[j + 1]) then SlashWords(s, TermWord(s, j + 1)) else j
  }

  /** An optional minus, an optional `*` or `~`, a term word, slash words,
      and an optional trailing minus. */
  function MatchTermFragment(s: string): (n: nat)
    ensures n <= |s|
  {
    var p := if |s| > 0 && s[0] == '-' then 1 else 0;
    var q := if p < |s| && (s[p] == '*' || s[p] == '~') then p + 1 else p;
    if q < |s| && IsLower(s[q]) then
      var e := SlashWords(s, TermWord(s, q));
      if e < |s| && s[e] == '-' then e + 1 else e
    else 0
  }

  predicate IsEscapable(c: char) {
    c == '<' || c == '>' || c == '{' || c == '}'
  }

  /** Number of backslash-escape pairs at the start of `s[i..]`. */
  function EscapePairs(s: string, i: nat): (k: nat)
    requires i <= |s|
    ensures i + 2 * k <= |s|
    decreases |s| - i
  {
    if i + 1 < |s| && s[i] == '\\' && IsEscapable(s[i + 1]) then 1 + EscapePairs(s, i + 2) else 0
  }

  /** A character the string body's second alternative may contain. */
  predicate IsStringBody(c: char) {
    c != '{' && c != '>' && c != '\\'
  }

  /** Position of the first string-body character at or after `i`, if any. */
  function FirstBody(s: string, i: nat): (p: nat)
    requires i <= |s|
    ensures i <= p <= |s|
    ensures p < |s| ==> IsStringBody(s[p])
    ensures forall k :: i <= k < p ==> !IsStringBody(s[k])
    decreases |s| - i
  {
    if i == |s| || IsStringBody(s[i]) then i else FirstBody(s, i + 1)
  }

  /** The string body pattern. Its first alternative (escape pairs) is
      anchored; its second (a run of body characters) is not, so when the
      line starts with no body character the match is found further right
      and only its length is reported (make/parser/tokenizer/index.ts:267-268). */
  function MatchString(s: string): (n: nat)
    ensures n <= |s|
  {
    var k := EscapePairs(s, 0);
    if k > 0 then 2 * k
    else
      var p := FirstBody(s, 0);
      if p < |s| then Run(s, p, IsStringBody) else 0
  }

  /** `match[0].length` for the kind's pattern applied to `s`, zero when it
      does not match (make/parser/tokenizer/index.ts:206-270). */
  function MatchLength(k: Kind, s: string): (n: nat)
    ensures n <= |s|
  {
    match k
    case CloseEvaluation => Bracketed(s, ']')
    case CloseInterpolation => Run(s, 0, c => c == '}')
    case CloseParenthesis => Literal(s, ')')
    case CloseText => Literal(s, '>')
    case Comma => MatchComma(s)
    case Comment => MatchComment(s)
    case Decimal => MatchDecimal(s)
    case Hashtag => MatchHashtag(s)
    case Line => Literal(s, '\n')
    case OpenEvaluation => Bracketed(s, '[')
    case OpenIndentation => MatchIndentation(s)
    case OpenInterpolation => Run(s, 0, c => c == '{')
    case OpenNesting => Literal(s, ' ')
    case OpenParenthesis => Literal(s, '(')
    case OpenText => Literal(s, '<')
    case Path => MatchPath(s)
    case SignedInteger => MatchSignedInteger(s)
    case String => MatchString(s)
    case TermFragment => MatchTermFragment(s)
    case UnsignedInteger => MatchUnsignedInteger(s)
  }

  /** Every pattern but the unanchored string body matches a prefix that
      starts at column zero; so its match is never longer than the line, and
      the empty line matches nothing. */
  lemma EmptyLineMatchesNothing(k: Kind)
    ensures MatchLength(k, "") == 0
  {
  }

  /** The string body matched further right: when the line starts with a
      brace, a `>` or a lone backslash and a body character follows, the
      match length is the run after it, not a prefix of the line. */
  lemma StringMatchIsUnanchored()
    ensures MatchLength(String, "{ab") == 2
  {
    assert FirstBody("{ab", 0) == 1;
    assert Run("{ab", 1, IsStringBody) == 2;
  }

  // ---------------------------------------------------------------------
  // What each expression accepts, stated over the characters of the line

  /** `/^, +/`: a comma and the longest run of spaces after it, at least one. */
  lemma CommaMatches(s: string)
    ensures MatchComma(s) > 0 <==> |s| >= 2 && s[0] == ',' && s[1] == ' '
    ensures MatchComma(s) > 0 ==>
      && (forall k :: 1 <= k < MatchComma(s) ==> s[k] == ' ')
      && (MatchComma(s) == |s| || s[MatchComma(s)] != ' ')
  {
  }

  /** `/^# [^\n]+/`: a hash, a space, and the rest of the line, at least
      one character. */
  lemma CommentMatches(s: string)
    ensures MatchComment(s) > 0 <==> |s| >= 3 && s[0] == '#' && s[1] == ' ' && s[2] != '\n'
    ensures MatchComment(s) > 0 ==>
      && (forall k :: 2 <= k < MatchComment(s) ==> s[k] != '\n')
      && (MatchComment(s) == |s| || s[MatchComment(s)] == '\n')
  {
  }

  /** `/^#\w+/`: a hash and the longest run of word characters, at least one. */
  lemma HashtagMatches(s: string)
    ensures MatchHashtag(s) > 0 <==> |s| >= 2 && s[0] == '#' && IsWordChar(s[1])
    ensures MatchHashtag(s) > 0 ==>
      && (forall k :: 1 <= k < MatchHashtag(s) ==> IsWordChar(s[k]))
      && (MatchHashtag(s) == |s| || !IsWordChar(s[MatchHashtag(s)]))
  {
  }

  /** The evaluation brackets: a line matches exactly when the bracket
      follows its leading spaces, and the match is those spaces, the bracket
      and every space after it. */
  lemma BracketedMatches(s: string, b: char)
    requires b != ' '
    ensures Bracketed(s, b) > 0 <==>
      exists a :: 0 <= a < |s| && s[a] == b && forall k :: 0 <= k < a ==> s[k] == ' '
    ensures Bracketed(s, b) > 0 ==>
      && (exists j :: 0 <= j < Bracketed(s, b) && s[j] == b
            && forall k :: 0 <= k < Bracketed(s, b) && k != j ==> s[k] == ' ')
      && (Bracketed(s, b) == |s| || s[Bracketed(s, b)] != ' ')
  {
    var r := Run(s, 0, c => c == ' ');
    if Bracketed(s, b) > 0 {
      assert s[r] == b;
    }
  }

  /** Digits are word characters, so a digit never marks a word boundary. */
  lemma DigitIsWordChar(c: char)
    ensures IsDigit(c) ==> IsWordChar(c)
  {
  }

  /** `/^\d+(?=\b)/`: the match is exactly the leading run of digits when a
      word boundary follows it, and nothing otherwise. */
  lemma UnsignedIntegerMatches(s: string)
    ensures MatchUnsignedInteger(s) > 0 ==>
      && (forall k :: 0 <= k < MatchUnsignedInteger(s) ==> IsDigit(s[k]))
      && (MatchUnsignedInteger(s) == |s| || !IsWordChar(s[MatchUnsignedInteger(s)]))
    ensures forall d ::
      (0 < d <= |s| && (forall k :: 0 <= k < d ==> IsDigit(s[k])) && (d == |s| || !IsWordChar(s[d]))) ==>
      MatchUnsignedInteger(s) == d
  {
    forall d | 0 < d <= |s| && (forall k :: 0 <= k < d ==> IsDigit(s[k])) && (d == |s| || !IsWordChar(s[d]))
      ensures MatchUnsignedInteger(s) == d
    {
      var r := Run(s, 0, IsDigit);
      if d < |s| {
        DigitIsWordChar(s[d]);
      }
      if r > d {
        DigitIsWordChar(s[d]);
      }
    }
  }

  /** `/^-\d+(?=\b)/`: a minus and the leading run of digits after it, when a
      word boundary follows, and nothing otherwise. */
  lemma SignedIntegerMatches(s: string)
    ensures MatchSignedInteger(s) > 0 ==>
      && MatchSignedInteger(s) >= 2 && s[0] == '-'
      && (forall k :: 1 <= k < MatchSignedInteger(s) ==> IsDigit(s[k]))
      && (MatchSignedInteger(s) == |s| || !IsWordChar(s[MatchSignedInteger(s)]))
    ensures forall d ::
      (1 < d <= |s| && s[0] == '-' && (forall k :: 1 <= k < d ==> IsDigit(s[k])) && (d == |s| || !IsWordChar(s[d]))) ==>
      MatchSignedInteger(s) == d
  {
    forall d | 1 < d <= |s| && s[0] == '-' && (forall k :: 1 <= k < d ==> IsDigit(s[k])) && (d == |s| || !IsWordChar(s[d]))
      ensures MatchSignedInteger(s) == d
    {
      var r := Run(s, 1, IsDigit);
      if d < |s| {
        DigitIsWordChar(s[d]);
      }
    }
  }

  /** A line whose digits before a dot end at `j` has its match end where
      the digits after that dot end. */
  lemma DecimalFrom(s: string, j: nat)
    requires DigitsToDot(s, j)
    ensures MatchDecimal(s) == j + 1 + Run(s, j + 1, IsDigit)
  {
  }

  /** The line starts with an optional minus, at least one digit, a dot at
      `dot`, and a digit after it: the shape `/^-?\d+\.\d/`. */
  predicate DigitsToDot(s: string, dot: int) {
    && MinusWidth(s) < dot && dot + 1 < |s| && s[dot] == '.' && IsDigit(s[dot + 1])
    && forall k :: MinusWidth(s) <= k < dot ==> IsDigit(s[k])
  }

  /** The width of an optional leading minus. */
  function MinusWidth(s: string): nat {
    if |s| > 0 && s[0] == '-' then 1 else 0
  }

  /** `/^-?\d+\.\d+/`: an optional minus, digits, one dot, and the longest run
      of digits after it. A line matches exactly when it starts that way:
      the digits before the dot are then the whole leading run, so the match
      ends where the digit run after the dot ends. */
  lemma DecimalMatches(s: string)
    ensures MatchDecimal(s) > 0 ==>
      var m := if s[0] == '-' then 1 else 0;
      && (exists j :: m < j < MatchDecimal(s) - 1 && s[j] == '.'
            && forall k :: m <= k < MatchDecimal(s) && k != j ==> IsDigit(s[k]))
      && (MatchDecimal(s) == |s| || !IsDigit(s[MatchDecimal(s)]))
    ensures forall dot :: DigitsToDot(s, dot) ==> MatchDecimal(s) == dot + 1 + Run(s, dot + 1, IsDigit)
  {
    var m := MinusWidth(s);
    var d1 := Run(s, m, IsDigit);
    if MatchDecimal(s) > 0 {
      assert s[m + d1] == '.';
    }
    forall dot | DigitsToDot(s, dot) {
      DecimalFrom(s, dot);
    }
  }
}
