/** The vocabulary shared by the dispatchers: the nest types
    `determineNestType` reports, the ten keywords both code-card dispatchers
    recognise (make/mesh/code/index.ts:106-155,
    make/builder/card/code/index.ts:117-166), and the kinds of diagnostic
    they raise with their fixed codes (make/builder/error.ts). */
module Terms {
  import opened Results

  /** The nest types a dispatcher distinguishes; every other type reported
      by `determineNestType` is carried by name. */
  datatype NestType = DynamicText | DynamicTerm | StaticTerm | StaticText | OtherNestType(name: string)

  datatype Keyword = Bear | Load | Fuse | Tree | Face | Host | Form | Suit | Task | Note

  /** How a keyword is written in a card. */
  function Spelling(k: Keyword): string {
    match k
    case Bear => "bear"
    case Load => "load"
    case Fuse => "fuse"
    case Tree => "tree"
    case Face => "face"
    case Host => "host"
    case Form => "form"
    case Suit => "suit"
    case Task => "task"
    case Note => "note"
  }

  /** The `switch (term)` of both dispatchers: the keyword a term names, if
      any. */
  function LookupKeyword(term: string): (r: Option<Keyword>)
    ensures r.Some? ==> Spelling(r.value) == term
  {
    if term == "bear" then Some(Bear)
    else if term == "load" then Some(Load)
    else if term == "fuse" then Some(Fuse)
    else if term == "tree" then Some(Tree)
    else if term == "face" then Some(Face)
    else if term == "host" then Some(Host)
    else if term == "form" then Some(Form)
    else if term == "suit" then Some(Suit)
    else if term == "task" then Some(Task)
    else if term == "note" then Some(Note)
    else None
  }

  /** Every keyword is found under its own spelling: the lookup and the
      spelling are inverse, so each of the ten reaches its own case. */
  lemma LookupSpelling(k: Keyword)
    ensures LookupKeyword(Spelling(k)) == Some(k)
  {
  }

  /** A term is a keyword exactly when it is the spelling of one. */
  lemma LookupIffSpelled(term: string)
    ensures LookupKeyword(term).Some? <==> exists k: Keyword :: Spelling(k) == term
  {
    if LookupKeyword(term).None? {
      forall k: Keyword
        ensures Spelling(k) != term
      {
        LookupSpelling(k);
      }
    }
  }

  /** The diagnostics the modelled code raises, by generator in
      make/builder/error.ts. */
  datatype ErrorKind =
    | UnhandledTermInterpolation   // 0001
    | UnhandledTermCase            // 0002
    | UnknownTerm                  // 0003
    | UnhandledNestCase            // 0004
    | UnhandledNestCaseBase        // 0005
    | InvalidDeckLink              // 0008
    | InvalidNestChildrenLength    // 0009
    | ForkMissingProperty          // 0010
    | MissingString                // 0011
    | InvalidPattern               // 0012
    | UnresolvedPath               // 0013
    | TermMissing                  // 0018
    | ScopeMissingProperty         // 0019
    | ModuleUnresolvable           // 0020
    | SyntaxToken                  // 0021

  /** The fixed code each generator writes into its error record. */
  function Code(k: ErrorKind): string {
    match k
    case UnhandledTermInterpolation => "0001"
    case UnhandledTermCase => "0002"
    case UnknownTerm => "0003"
    case UnhandledNestCase => "0004"
    case UnhandledNestCaseBase => "0005"
    case InvalidDeckLink => "0008"
    case InvalidNestChildrenLength => "0009"
    case ForkMissingProperty => "0010"
    case MissingString => "0011"
    case InvalidPattern => "0012"
    case UnresolvedPath => "0013"
    case TermMissing => "0018"
    case ScopeMissingProperty => "0019"
    case ModuleUnresolvable => "0020"
    case SyntaxToken => "0021"
  }

  /** Codes are four characters and identify their generator: no two kinds
      share one. */
  lemma CodesDistinct(a: ErrorKind, b: ErrorKind)
    ensures |Code(a)| == 4
    ensures Code(a) == Code(b) ==> a == b
  {
  }

  /** The generator a record's code names, read back from the code. */
  function KindOfCode(code: string): (r: Option<ErrorKind>)
    ensures r.Some? ==> Code(r.value) == code
  {
    if code == "0001" then Some(UnhandledTermInterpolation)
    else if code == "0002" then Some(UnhandledTermCase)
    else if code == "0003" then Some(UnknownTerm)
    else if code == "0004" then Some(UnhandledNestCase)
    else if code == "0005" then Some(UnhandledNestCaseBase)
    else if code == "0008" then Some(InvalidDeckLink)
    else if code == "0009" then Some(InvalidNestChildrenLength)
    else if code == "0010" then Some(ForkMissingProperty)
    else if code == "0011" then Some(MissingString)
    else if code == "0012" then Some(InvalidPattern)
    else if code == "0013" then Some(UnresolvedPath)
    else if code == "0018" then Some(TermMissing)
    else if code == "0019" then Some(ScopeMissingProperty)
    else if code == "0020" then Some(ModuleUnresolvable)
    else if code == "0021" then Some(SyntaxToken)
    else None
  }

  /** Every kind's code reads back as that kind, and a code no kind writes
      reads back as nothing. */
  lemma CodeRoundTrip(k: ErrorKind, code: string)
    ensures KindOfCode(Code(k)) == Some(k)
    ensures KindOfCode(code).None? <==> forall j: ErrorKind :: Code(j) != code
  {
    var r := KindOfCode(Code(k));
    CodesDistinct(r.value, k);
    if KindOfCode(code).None? {
      forall j: ErrorKind
        ensures Code(j) != code
      {
        var back := KindOfCode(Code(j));
        CodesDistinct(back.value, j);
      }
    }
  }

  /** A diagnostic raised while walking the children of a nest: what was
      raised, and the index of the child it was raised for. */
  datatype Raise = Raise(kind: ErrorKind, at: nat)
}
