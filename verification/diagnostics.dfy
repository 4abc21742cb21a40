/** The error records the builder raises (make/builder/error.ts): each has a
    fixed code, a note built from a template, and for most of them the
    card's path and a source excerpt highlighting the offending nest. Names
    the generators obtain from unseen resolvers (`resolveStaticTermFromNest`)
    are parameters; `None` stands for a resolver that threw inside a
    `try`, or returned nothing. */
module Diagnostics {
  import opened Results
  import opened Strings
  import Tokenizer
  import opened Trees
  import opened Excerpts
  import opened Terms

  /** `ErrorType`. */
  datatype Diagnostic = Diagnostic(code: string, file: Option<string>, note: string, text: Option<string>)

  /** What a generator is given: the card's path and lines, and the nest
      being reported on. */
  datatype Site = Site(path: string, textByLine: seq<string>, nest: Nest)

  /** JavaScript truthiness of an optional string. */
  predicate Present(s: Option<string>) {
    s.Some? && |s.value| > 0
  }

  /** `generateHighlightedErrorForTerm` (make/builder/error.ts:98-106). */
  function TermExcerpt(site: Site): (r: Result<string, GeometryFault>)
    ensures TermRange(site.nest).Err? ==> r == Err(TermRange(site.nest).error)
    ensures TermRange(site.nest).Ok? ==> r == Excerpt(site.textByLine, TermRange(site.nest).value)
  {
    match TermRange(site.nest)
    case Err(f) => Err(f)
    case Ok(range) => Excerpt(site.textByLine, range)
  }

  /** `generateHighlightedErrorForText` (make/builder/error.ts:108-116). */
  function TextExcerpt(site: Site): Result<string, GeometryFault> {
    Excerpt(site.textByLine, TextRange(site.nest))
  }

  /** The term excerpt fails with the term range's fault, with
      `MissingLine` on a file of no lines, and with `NegativeArrayLength`
      exactly when the highlighted line is shown with its end more than one
      column left of its start; otherwise it prints the nest's highlighted
      line, numbered, with its underline. */
  lemma TermExcerptPrints(site: Site)
    ensures TermRange(site.nest).Err? ==> TermExcerpt(site) == Err(TermRange(site.nest).error)
    ensures TermRange(site.nest).Ok? && |site.textByLine| == 0 ==> TermExcerpt(site) == Err(MissingLine)
    ensures TermRange(site.nest).Ok? && |site.textByLine| > 0 ==>
      var h := TermRange(site.nest).value;
      var w := WindowFor(site.textByLine, h).value;
      && (TermExcerpt(site).Err? <==> Shows(w.startLine, w.endLine, h) && h.end.character + 1 < h.start.character)
      && (TermExcerpt(site).Err? ==> TermExcerpt(site).error == NegativeArrayLength)
    ensures TermExcerpt(site).Ok? ==>
      TermRange(site.nest).Ok? && PrintsHighlight(site.textByLine, TermRange(site.nest).value, TermExcerpt(site).value)
  {
    if TermRange(site.nest).Ok? {
      ExcerptPrintsHighlight(site.textByLine, TermRange(site.nest).value);
    }
  }

  /** A record whose text is the excerpt, failing when the excerpt does. */
  function WithExcerpt(code: string, file: string, note: string, excerpt: Result<string, GeometryFault>): (r: Result<Diagnostic, GeometryFault>)
    ensures r.Ok? <==> excerpt.Ok?
    ensures excerpt.Err? ==> r.error == excerpt.error
    ensures excerpt.Ok? ==> r.value == Diagnostic(code, Some(file), note, Some(excerpt.value))
  {
    match excerpt
    case Err(f) => Err(f)
    case Ok(text) => Ok(Diagnostic(code, Some(file), note, Some(text)))
  }

  /** `generateForkMissingPropertyError` (make/builder/error.ts:58-65). */
  function ForkMissingPropertyError(property: string): (r: Diagnostic)
    ensures r.code == Code(ForkMissingProperty) && r.file.None? && r.text.None?
    ensures r.note == "Scope is missing property '" + property + "'."
  {
    Diagnostic(Code(ForkMissingProperty), None, "Scope is missing property '" + property + "'.", None)
  }

  /** `generateInvalidDeckLink` (make/builder/error.ts:118-126). */
  function InvalidDeckLinkError(link: string): (r: Diagnostic)
    ensures r.code == Code(InvalidDeckLink) && r.file.None? && r.text.None?
    ensures r.note == "Invalid deck link '" + link + "'."
  {
    Diagnostic(Code(InvalidDeckLink), None, "Invalid deck link '" + link + "'.", None)
  }

  /** `generateInvalidNestChildrenLengthError` (make/builder/error.ts:128-136),
      for a non-negative length. */
  function InvalidNestChildrenLengthError(length: nat): (r: Diagnostic)
    ensures r.code == Code(InvalidNestChildrenLength) && r.file.None? && r.text.None?
    ensures r.note == "Term doesn't have " + DecimalString(length) + " children."
  {
    Diagnostic(Code(InvalidNestChildrenLength), None, "Term doesn't have " + DecimalString(length) + " children.", None)
  }

  /** `generateInvalidPatternError` (make/builder/error.ts:138-151): the
      excerpt highlights the nest's text range. */
  function InvalidPatternError(site: Site, pattern: string): (r: Result<Diagnostic, GeometryFault>)
    ensures r.Ok? <==> TextExcerpt(site).Ok?
    ensures r.Ok? ==>
      && r.value.code == Code(InvalidPattern)
      && r.value.file == Some(site.path)
      && r.value.note == "Text does not match pattern " + pattern + "."
      && r.value.text == Some(TextExcerpt(site).value)
  {
    WithExcerpt(Code(InvalidPattern), site.path, "Text does not match pattern " + pattern + ".", TextExcerpt(site))
  }

  /** `generateMissingStringError` (make/builder/error.ts:153-169): the
      nest's first line must be a term, whose name is `name`. */
  function MissingStringError(site: Site, property: string, name: string): (r: Result<Diagnostic, GeometryFault>)
    ensures (|site.nest.line| == 0 || site.nest.line[0].like != TermLine) ==> r == Err(NotATerm)
    ensures r.Ok? ==>
      && TermExcerpt(site).Ok?
      && r.value.code == Code(MissingString)
      && r.value.file == Some(site.path)
      && r.value.note == "String property `" + property + " <...>` missing in `" + name + "`."
      && r.value.text == Some(TermExcerpt(site).value)
  {
    if |site.nest.line| == 0 || site.nest.line[0].like != TermLine then Err(NotATerm)
    else WithExcerpt(Code(MissingString), site.path,
      "String property `" + property + " <...>` missing in `" + name + "`.", TermExcerpt(site))
  }

  /** `generateModuleUnresolvableError` (make/builder/error.ts:171-179). */
  function ModuleUnresolvableError(site: Site): (r: Diagnostic)
    ensures r.code == Code(ModuleUnresolvable) && r.file == Some(site.path) && r.text.None?
  {
    Diagnostic(Code(ModuleUnresolvable), Some(site.path), "Module has unresolvable references", None)
  }

  /** `generateScopeMissingPropertyError` (make/builder/error.ts:200-207). */
  function ScopeMissingPropertyError(property: string): (r: Diagnostic)
    ensures r.code == Code(ScopeMissingProperty) && r.file.None? && r.text.None?
    ensures r.note == "Scope is missing property " + property + "."
  {
    Diagnostic(Code(ScopeMissingProperty), None, "Scope is missing property " + property + ".", None)
  }

  /** The highlight of a syntax-token error (make/builder/error.ts:213-228):
      all zeros, or the last token's lines and end column with the start
      column left at zero. */
  function SyntaxHighlight(lastToken: Option<Tokenizer.Token>): (r: Range)
    ensures r.start.character == 0
    ensures lastToken.None? ==> r == Zero
    ensures lastToken.Some? ==> r.start.line == lastToken.value.start.line && r.end == lastToken.value.end
  {
    match lastToken
    case None => Zero
    case Some(t) => Range(Tokenizer.Position(t.start.line, 0), Tokenizer.Position(t.end.line, t.end.character))
  }

  /** `generateSyntaxTokenError` (make/builder/error.ts:209-240). */
  function SyntaxTokenDiagnostic(e: Tokenizer.SyntaxTokenError): (r: Result<Diagnostic, GeometryFault>)
    ensures r.Ok? <==> Excerpt(e.textInLines, SyntaxHighlight(e.lastToken)).Ok?
    ensures r.Ok? ==>
      && r.value.code == Code(SyntaxToken)
      && r.value.file.None?
      && r.value.note == "Error in the structure of the text tree."
      && r.value.text == Some(Excerpt(e.textInLines, SyntaxHighlight(e.lastToken)).value)
  {
    match Excerpt(e.textInLines, SyntaxHighlight(e.lastToken))
    case Err(f) => Err(f)
    case Ok(text) => Ok(Diagnostic(Code(SyntaxToken), None, "Error in the structure of the text tree.", Some(text)))
  }

  /** A syntax-token error for text that failed to tokenize always renders:
      the text splits into at least one line, and the highlight's start
      column is zero, so the underline length is never negative. The record
      names its generator by its code. The last token produced starts on a
      line of the text, so the record's text always prints that line (the
      first line when no token was produced), numbered and underlined. */
  lemma SyntaxTokenDiagnosticRenders(path: string, text: string)
    requires Tokenizer.Tokenize(path, text).Err?
    ensures var d := SyntaxTokenDiagnostic(Tokenizer.Tokenize(path, text).error);
      && d.Ok?
      && KindOfCode(d.value.code) == Some(SyntaxToken)
      && d.value.text.Some?
    ensures var e := Tokenizer.Tokenize(path, text).error;
      var d := SyntaxTokenDiagnostic(e);
      d.Ok? && d.value.text.Some? && PrintsHighlight(e.textInLines, SyntaxHighlight(e.lastToken), d.value.text.value)
    ensures var e := Tokenizer.Tokenize(path, text).error;
      SyntaxHighlight(e.lastToken).start.line < |e.textInLines|
    ensures var e := Tokenizer.Tokenize(path, text).error;
      e.lastToken.Some? ==> SyntaxHighlight(e.lastToken).start.line == e.lastToken.value.start.line
  {
    Tokenizer.TokenizeFailsOnALine(Tokenizer.SourcePatterns, path, text);
    var e := Tokenizer.Tokenize(path, text).error;
    var h := SyntaxHighlight(e.lastToken);
    assert |e.textInLines| > 0;
    ExcerptLayout(e.textInLines, h);
    ExcerptPrintsHighlight(e.textInLines, h);
    CodeRoundTrip(SyntaxToken, "");
  }

  /** `generateTermMissingError` (make/builder/error.ts:244-256). */
  function TermMissingError(site: Site, termType: string, owner: string): (r: Diagnostic)
    ensures r.code == Code(TermMissing) && r.file == Some(site.path) && r.text == Some("")
    ensures r.note == "Term " + termType + " is missing on " + owner + "."
  {
    Diagnostic(Code(TermMissing), Some(site.path), "Term " + termType + " is missing on " + owner + ".", Some(""))
  }

  /** `generateUnhandledNestCaseBaseError` (make/builder/error.ts:258-269). */
  function UnhandledNestCaseBaseError(site: Site): (r: Result<Diagnostic, GeometryFault>)
    ensures r.Ok? <==> TermExcerpt(site).Ok?
    ensures r.Ok? ==>
      && r.value.code == Code(UnhandledNestCaseBase) && r.value.file == Some(site.path)
      && r.value.text == Some(TermExcerpt(site).value)
  {
    WithExcerpt(Code(UnhandledNestCaseBase), site.path,
      "We haven't implemented handling this type of nest yet.", TermExcerpt(site))
  }

  /** The note of `generateUnhandledNestCaseError`, for a nest type written
      `typeText` (make/builder/error.ts:283-285). */
  function NestCaseNote(typeText: string, scope: Option<string>): (note: string)
    ensures var bare := "We haven't implemented handling \"" + typeText + "s\" yet";
      && |note| > |bare|
      && note[..|bare|] == bare
      && (Present(scope) <==> |note| > |bare| + 1)
      && (Present(scope) ==> note[|bare|..] == " on `" + scope.value + "`.")
      && (!Present(scope) ==> note == bare + ".")
  {
    var bare := "We haven't implemented handling \"" + typeText + "s\" yet";
    if Present(scope) then bare + " on `" + scope.value + "`." else bare + "."
  }

  /** `generateUnhandledNestCaseError` (make/builder/error.ts:271-288): the
      scope comes from resolving the enclosing term, which may throw. */
  function UnhandledNestCaseError(site: Site, typeText: string, scope: Option<string>): (r: Result<Diagnostic, GeometryFault>)
    ensures r.Ok? <==> TermExcerpt(site).Ok?
    ensures r.Ok? ==>
      && r.value.code == Code(UnhandledNestCase)
      && r.value.file == Some(site.path)
      && r.value.note == NestCaseNote(typeText, scope)
      && r.value.text == Some(TermExcerpt(site).value)
  {
    WithExcerpt(Code(UnhandledNestCase), site.path, NestCaseNote(typeText, scope), TermExcerpt(site))
  }

  /** `generateUnhandledTermCaseError` (make/builder/error.ts:290-308): the
      nest's name must be a string, checked before the excerpt is built; the
      note comes from the `0002` template of the error table, which is not
      part of this model and is a parameter. */
  function UnhandledTermCaseError(site: Site, name: Option<string>, scope: Option<string>,
                                  template: (string, Option<string>) -> string): (r: Result<Diagnostic, GeometryFault>)
    ensures name.None? ==> r == Err(MissingName)
    ensures name.Some? ==> (r.Ok? <==> TermExcerpt(site).Ok?)
    ensures r.Ok? ==>
      && r.value.code == Code(UnhandledTermCase)
      && r.value.file == Some(site.path)
      && r.value.note == template(name.value, scope)
      && r.value.text == Some(TermExcerpt(site).value)
  {
    match name
    case None => Err(MissingName)
    case Some(n) => WithExcerpt(Code(UnhandledTermCase), site.path, template(n, scope), TermExcerpt(site))
  }

  /** `generateUnhandledTermInterpolationError` (make/builder/error.ts:310-319). */
  function UnhandledTermInterpolationError(site: Site): (r: Diagnostic)
    ensures r.code == Code(UnhandledTermInterpolation) && r.file == Some(site.path) && r.text == Some("")
  {
    Diagnostic(Code(UnhandledTermInterpolation), Some(site.path),
      "We haven't implemented handling term interpolation yet.", Some(""))
  }

  /** The note of `generateUnknownTermError` (make/builder/error.ts:331-333). */
  function UnknownTermNote(name: string, insideName: Option<string>): (note: string)
    ensures var bare := "Unknown term `" + name + "`";
      && |note| > |bare|
      && note[..|bare|] == bare
      && (Present(insideName) <==> |note| > |bare| + 1)
      && (Present(insideName) ==> note[|bare|..] == " inside `" + insideName.value + "`.")
      && (!Present(insideName) ==> note == bare + ".")
  {
    var bare := "Unknown term `" + name + "`";
    if Present(insideName) then bare + " inside `" + insideName.value + "`." else bare + "."
  }

  /** `generateUnknownTermError` (make/builder/error.ts:321-336). */
  function UnknownTermError(site: Site, name: string, insideName: Option<string>): (r: Result<Diagnostic, GeometryFault>)
    ensures r.Ok? <==> TermExcerpt(site).Ok?
    ensures r.Ok? ==>
      && r.value.code == Code(UnknownTerm)
      && r.value.file == Some(site.path)
      && r.value.note == UnknownTermNote(name, insideName)
      && r.value.text == Some(TermExcerpt(site).value)
  {
    WithExcerpt(Code(UnknownTerm), site.path, UnknownTermNote(name, insideName), TermExcerpt(site))
  }

  /** `generateUnresolvedPathError` (make/builder/error.ts:338-348). */
  function UnresolvedPathError(site: Site, path: string): (r: Diagnostic)
    ensures r.code == Code(UnresolvedPath) && r.file == Some(site.path) && r.text.None?
    ensures r.note == "File not found " + path + "."
  {
    Diagnostic(Code(UnresolvedPath), Some(site.path), "File not found " + path + ".", None)
  }

  /** A JavaScript template's rendering of a possibly missing string. */
  function Interpolated(s: Option<string>): string {
    if s.Some? then s.value else "undefined"
  }

  /** The kinds the nest dispatchers and the leaf validators raise. */
  predicate Dispatched(kind: ErrorKind) {
    kind.UnhandledTermInterpolation? || kind.UnhandledTermCase? || kind.UnknownTerm? || kind.UnhandledNestCase?
  }

  /** What the generator selected by a dispatcher's raise yields for the
      offending nest at `site`: its record, or what it throws first. `name`
      and `scope` are the nest's own term and its enclosing term as the
      term resolver, which is not part of this model, gives them. */
  function Generated(kind: ErrorKind, site: Site, typeText: string, name: Option<string>, scope: Option<string>,
                     template: (string, Option<string>) -> string): Result<Diagnostic, GeometryFault>
    requires Dispatched(kind)
  {
    if kind.UnhandledTermInterpolation? then Ok(UnhandledTermInterpolationError(site))
    else if kind.UnhandledTermCase? then UnhandledTermCaseError(site, name, scope, template)
    else if kind.UnknownTerm? then UnknownTermError(site, Interpolated(name), scope)
    else UnhandledNestCaseError(site, typeText, scope)
  }

  /** A raise of 0001 always yields its record; a raise of 0002 for a nest
      with no name throws the name assertion; otherwise the generator throws
      exactly what the term excerpt throws. A record names its generator by
      its code, passes `isError`, blames the card's path, and (except for
      0001, whose text is empty) prints the nest's highlighted line with
      its number and underline. */
  lemma GeneratedRecord(kind: ErrorKind, site: Site, typeText: string, name: Option<string>, scope: Option<string>,
                        template: (string, Option<string>) -> string)
    requires Dispatched(kind)
    ensures var r := Generated(kind, site, typeText, name, scope, template);
      && (kind.UnhandledTermInterpolation? ==> r.Ok? && r.value.text == Some(""))
      && (kind.UnhandledTermCase? && name.None? ==> r == Err(MissingName))
      && (!kind.UnhandledTermInterpolation? && !(kind.UnhandledTermCase? && name.None?) ==>
           && (r.Ok? <==> TermExcerpt(site).Ok?)
           && (r.Err? ==> r.error == TermExcerpt(site).error))
      && (r.Ok? ==>
           && KindOfCode(r.value.code) == Some(kind)
           && IsError(ToJs(r.value))
           && r.value.file == Some(site.path))
      && (r.Ok? && !kind.UnhandledTermInterpolation? ==>
           && TermRange(site.nest).Ok?
           && r.value.text.Some?
           && PrintsHighlight(site.textByLine, TermRange(site.nest).value, r.value.text.value))
  {
    var r := Generated(kind, site, typeText, name, scope, template);
    TermExcerptPrints(site);
    CodeRoundTrip(kind, "");
    if r.Ok? {
      IsErrorIffCode(r.value);
    }
  }

  /** Every record-only generator's record names that generator: its code
      reads back as the generator's kind. */
  lemma RecordsNameTheirKind(site: Site, words: string, count: nat, owner: string)
    ensures KindOfCode(ForkMissingPropertyError(words).code) == Some(ForkMissingProperty)
    ensures KindOfCode(InvalidDeckLinkError(words).code) == Some(InvalidDeckLink)
    ensures KindOfCode(InvalidNestChildrenLengthError(count).code) == Some(InvalidNestChildrenLength)
    ensures KindOfCode(ModuleUnresolvableError(site).code) == Some(ModuleUnresolvable)
    ensures KindOfCode(ScopeMissingPropertyError(words).code) == Some(ScopeMissingProperty)
    ensures KindOfCode(TermMissingError(site, words, owner).code) == Some(TermMissing)
    ensures KindOfCode(UnhandledTermInterpolationError(site).code) == Some(UnhandledTermInterpolation)
    ensures KindOfCode(UnresolvedPathError(site, words).code) == Some(UnresolvedPath)
  {
    CodeRoundTrip(ForkMissingProperty, "");
    CodeRoundTrip(InvalidDeckLink, "");
    CodeRoundTrip(InvalidNestChildrenLength, "");
    CodeRoundTrip(ModuleUnresolvable, "");
    CodeRoundTrip(ScopeMissingProperty, "");
    CodeRoundTrip(TermMissing, "");
    CodeRoundTrip(UnhandledTermInterpolation, "");
    CodeRoundTrip(UnresolvedPath, "");
  }

  /** Every excerpt generator's record, when the excerpt is built, names
      that generator: its code reads back as the generator's kind. */
  lemma ExcerptRecordsNameTheirKind(site: Site, words: string, typeText: string,
                                    name: Option<string>, scope: Option<string>,
                                    template: (string, Option<string>) -> string)
    ensures InvalidPatternError(site, words).Ok? ==>
      KindOfCode(InvalidPatternError(site, words).value.code) == Some(InvalidPattern)
    ensures MissingStringError(site, words, typeText).Ok? ==>
      KindOfCode(MissingStringError(site, words, typeText).value.code) == Some(MissingString)
    ensures UnhandledNestCaseBaseError(site).Ok? ==>
      KindOfCode(UnhandledNestCaseBaseError(site).value.code) == Some(UnhandledNestCaseBase)
    ensures UnhandledNestCaseError(site, typeText, scope).Ok? ==>
      KindOfCode(UnhandledNestCaseError(site, typeText, scope).value.code) == Some(UnhandledNestCase)
    ensures UnhandledTermCaseError(site, name, scope, template).Ok? ==>
      KindOfCode(UnhandledTermCaseError(site, name, scope, template).value.code) == Some(UnhandledTermCase)
    ensures UnknownTermError(site, words, scope).Ok? ==>
      KindOfCode(UnknownTermError(site, words, scope).value.code) == Some(UnknownTerm)
  {
    CodeRoundTrip(InvalidPattern, "");
    CodeRoundTrip(MissingString, "");
    CodeRoundTrip(UnhandledNestCaseBase, "");
    CodeRoundTrip(UnhandledNestCase, "");
    CodeRoundTrip(UnhandledTermCase, "");
    CodeRoundTrip(UnknownTerm, "");
  }

  /** A JavaScript value, as far as `isError` inspects it. */
  datatype JsValue =
    | JsUndefined
    | JsNull
    | JsBool(b: bool)
    | JsNumber(n: int)
    | JsString(s: string)
    | JsArray(items: seq<JsValue>)
    | JsRecord(fields: map<string, JsValue>)

  /** `Boolean(v)` (integers only: no NaN). */
  predicate Truthy(v: JsValue) {
    match v
    case JsUndefined => false
    case JsNull => false
    case JsBool(b) => b
    case JsNumber(n) => n != 0
    case JsString(s) => |s| > 0
    case JsArray(_) => true
    case JsRecord(_) => true
  }

  /** `isError` (make/builder/error.ts:522-529), taking `isRecord` as "a
      plain object": a missing `code` property reads as `undefined`. */
  predicate IsError(v: JsValue) {
    v.JsRecord? && "code" in v.fields && Truthy(v.fields["code"])
  }

  /** The object literal a generator returns; absent optional fields are
      not set. */
  function ToJs(d: Diagnostic): (v: JsValue)
    ensures v.JsRecord? && "code" in v.fields && v.fields["code"] == JsString(d.code)
  {
    var base := map["code" := JsString(d.code), "note" := JsString(d.note)];
    var withFile := if d.file.Some? then base["file" := JsString(d.file.value)] else base;
    JsRecord(if d.text.Some? then withFile["text" := JsString(d.text.value)] else withFile)
  }

  /** A generated record passes `isError` exactly when its code is not empty;
      every fixed code is, so everything the generators return is an error. */
  lemma IsErrorIffCode(d: Diagnostic)
    ensures IsError(ToJs(d)) <==> |d.code| > 0
    ensures (exists k: ErrorKind :: d.code == Code(k)) ==> IsError(ToJs(d))
  {
    if exists k: ErrorKind :: d.code == Code(k) {
      var k: ErrorKind :| d.code == Code(k);
      CodesDistinct(k, k);
    }
  }
}
