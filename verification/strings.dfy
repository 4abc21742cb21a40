/** JavaScript string behaviour the model relies on: the `\d`, `\w` and `\s`
    character classes, `String.prototype.split` on one character and its
    inverse `Array.prototype.join`, `padStart`, `String(n)` for a natural
    number, `trim()` used as a truth value, and `new Array(n).join(c)`. */
module Strings {
  import opened Results

  /** `\d` without the `u` flag. */
  predicate IsDigit(c: char) {
    '0' <= c <= '9'
  }

  predicate IsLower(c: char) {
    'a' <= c <= 'z'
  }

  /** `\w`: ASCII letters, digits and underscore. */
  predicate IsWordChar(c: char) {
    IsDigit(c) || IsLower(c) || ('A' <= c <= 'Z') || c == '_'
  }

  /** `\s`: the ECMAScript WhiteSpace and LineTerminator code points. */
  predicate IsJsSpace(c: char) {
    c == '\t' || c == '\n' || c == '\U{000B}' || c == '\U{000C}' || c == '\r' || c == ' '
    || c == '\U{00A0}' || c == '\U{1680}' || ('\U{2000}' <= c <= '\U{200A}')
    || c == '\U{2028}' || c == '\U{2029}' || c == '\U{202F}' || c == '\U{205F}'
    || c == '\U{3000}' || c == '\U{FEFF}'
  }

  /** `s.trim()` is truthy exactly when some character is not white space. */
  predicate HasContent(s: string) {
    exists i :: 0 <= i < |s| && !IsJsSpace(s[i])
  }

  /** Index of the first occurrence of `c`, which must occur. */
  function IndexOf(s: string, c: char): (i: nat)
    requires c in s
    ensures i < |s| && s[i] == c
    ensures c !in s[..i]
  {
    if s[0] == c then 0 else
      assert s == [s[0]] + s[1..];
      1 + IndexOf(s[1..], c)
  }

  /** `pieces.join(sep)`. */
  function Join(pieces: seq<string>, sep: string): string
  {
    if |pieces| == 0 then ""
    else if |pieces| == 1 then pieces[0]
    else pieces[0] + sep + Join(pieces[1..], sep)
  }

  /** `s.split(c)` for a one-character separator: the maximal pieces between
      occurrences of `c`; the empty string splits into one empty piece. */
  function Split(s: string, c: char): (pieces: seq<string>)
    ensures |pieces| >= 1
    ensures forall k :: 0 <= k < |pieces| ==> c !in pieces[k]
    decreases |s|
  {
    if c !in s then [s]
    else
      var i := IndexOf(s, c);
      [s[..i]] + Split(s[i + 1..], c)
  }

  /** Joining the pieces of a split with the separator gives back the text. */
  lemma {:induction false} JoinSplit(s: string, c: char)
    ensures Join(Split(s, c), [c]) == s
    decreases |s|
  {
    if c in s {
      var i := IndexOf(s, c);
      var rest := Split(s[i + 1..], c);
      JoinSplit(s[i + 1..], c);
      assert Split(s, c) == [s[..i]] + rest;
      assert ([s[..i]] + rest)[1..] == rest;
      assert s == s[..i] + [c] + s[i + 1..];
    }
  }

  /** The first separator in `p + [c] + t` is the one after `p` when `p` has none. */
  lemma {:induction false} IndexOfAfterPrefix(p: string, c: char, t: string)
    requires c !in p
    ensures c in p + [c] + t
    ensures IndexOf(p + [c] + t, c) == |p|
    decreases |p|
  {
    var s := p + [c] + t;
    assert s[|p|] == c;
    if |p| > 0 {
      assert s[0] == p[0];
      assert s[1..] == p[1..] + [c] + t;
      IndexOfAfterPrefix(p[1..], c, t);
    }
  }

  /** Splitting a join of separator-free pieces gives back the pieces. */
  lemma {:induction false} SplitJoin(pieces: seq<string>, c: char)
    requires |pieces| >= 1
    requires forall k :: 0 <= k < |pieces| ==> c !in pieces[k]
    ensures Split(Join(pieces, [c]), c) == pieces
    decreases |pieces|
  {
    if |pieces| > 1 {
      var p := pieces[0];
      var tail := Join(pieces[1..], [c]);
      var s := p + [c] + tail;
      assert Join(pieces, [c]) == s;
      IndexOfAfterPrefix(p, c, tail);
      assert s[..|p|] == p;
      assert s[|p| + 1..] == tail;
      SplitJoin(pieces[1..], c);
      assert Split(s, c) == [p] + Split(tail, c);
      assert pieces == [p] + pieces[1..];
    } else {
      assert Join(pieces, [c]) == pieces[0];
    }
  }

  /** `n` copies of `c`. */
  function Repeat(c: char, n: nat): (r: string)
    ensures |r| == n
    ensures forall k :: 0 <= k < n ==> r[k] == c
  {
    if n == 0 then "" else [c] + Repeat(c, n - 1)
  }

  function Spaces(n: nat): (r: string)
    ensures |r| == n
    ensures forall k :: 0 <= k < n ==> r[k] == ' '
  {
    Repeat(' ', n)
  }

  /** `new Array(len).join(c)`: `len - 1` copies of `c`, the empty string for
      a zero length, and a RangeError for a negative length. */
  function ArrayJoin(len: int, c: char): (r: Option<string>)
    ensures r.None? <==> len < 0
    ensures r.Some? ==> r.value == Repeat(c, if len == 0 then 0 else len - 1)
  {
    if len < 0 then None
    else if len == 0 then Some("")
    else Some(Repeat(c, len - 1))
  }

  /** `s.padStart(width, ' ')`: never shortens `s`. */
  function PadStart(s: string, width: nat): (r: string)
    ensures |r| == if |s| >= width then |s| else width
    ensures r[|r| - |s|..] == s
    ensures forall k :: 0 <= k < |r| - |s| ==> r[k] == ' '
  {
    if |s| >= width then s else Spaces(width - |s|) + s
  }

  function DigitChar(d: nat): (c: char)
    requires d < 10
    ensures IsDigit(c)
  {
    ['0', '1', '2', '3', '4', '5', '6', '7', '8', '9'][d]
  }

  function DigitValue(c: char): nat
    requires IsDigit(c)
  {
    (c as int - '0' as int) as nat
  }

  /** `String(n)` for a natural number: its decimal digits, most significant
      first, with no leading zero. */
  function DecimalString(n: nat): (r: string)
    ensures |r| >= 1
    ensures forall k :: 0 <= k < |r| ==> IsDigit(r[k])
    ensures n >= 10 ==> r[0] != '0'
  {
    if n < 10 then [DigitChar(n)] else DecimalString(n / 10) + [DigitChar(n % 10)]
  }

  /** Reading a string of decimal digits back as a number. */
  function DecimalValue(s: string): nat
    requires forall k :: 0 <= k < |s| ==> IsDigit(s[k])
  {
    if |s| == 0 then 0 else 10 * DecimalValue(s[..|s| - 1]) + DigitValue(s[|s| - 1])
  }

  /** `String(n)` is read back as `n`. */
  lemma {:induction false} DecimalRoundTrip(n: nat)
    ensures DecimalValue(DecimalString(n)) == n
  {
    var r := DecimalString(n);
    if n < 10 {
      assert r[..0] == "";
    } else {
      DecimalRoundTrip(n / 10);
      assert r[..|r| - 1] == DecimalString(n / 10);
    }
  }

  /** Digit count grows with the number: a larger number never prints shorter. */
  lemma {:induction false} DecimalLengthMonotone(a: nat, b: nat)
    requires a <= b
    ensures |DecimalString(a)| <= |DecimalString(b)|
  {
    if b >= 10 && a >= 10 {
      DecimalLengthMonotone(a / 10, b / 10);
    }
  }
}
