/** The builder's code-card pass of make/builder/card/code/index.ts: a card
    is seeded with empty meshes and lists and its text split into lines,
    then every top-level nest of its parse tree is dispatched in order, with
    its index. Interpolations fail with 0001, a static term is sent to the
    handler of its keyword (an unknown one fails with 0003), and every other
    nest type is passed over.

    The file reader, `parseTextIntoTree` with `assertNest`,
    `getLinkHost`, `determineNestType`, `resolveStaticTerm` and the ten
    keyword handlers are not part of this model: they are fields of a
    `CardOracle`, a handler being a function from the card seed to the
    updated seed (or failure). */
module CodeCards {
  import opened Results
  import opened Strings
  import opened Trees
  import opened Terms
  import Mesh

  /** The seventeen mesh buckets the seed starts with. */
  const CardMeshes: set<string> := {
    "allSuitMesh", "allTaskMesh", "allTestMesh", "allTreeMesh", "allZoneMesh",
    "faceMesh", "formMesh", "hookMesh", "hostMesh",
    "publicFaceMesh", "publicFormMesh", "publicHostMesh", "publicSuitMesh",
    "publicTaskMesh", "publicTestMesh", "publicTreeMesh", "publicZoneMesh"}

  /** `MeshCodeCardType`: bucket contents are kept as the nests filed under
      each name. */
  datatype CardSeed = CardSeed(
    path: string,
    directory: string,
    textByLine: seq<string>,
    parseTree: seq<Nest>,
    meshes: map<string, map<string, Nest>>,
    dependencyWatchers: map<string, seq<string>>,
    bearList: seq<string>,
    loadList: seq<string>)

  datatype CardOracle = CardOracle(
    parse: string -> Option<seq<Nest>>,
    host: string -> string,
    nestType: Nest -> NestType,
    term: Nest -> string,
    handler: (Keyword, Nest, nat, CardSeed) -> Option<CardSeed>)

  datatype CardFault =
    | Raised(raise: Raise)
    | HandlerFailed(keyword: Keyword, at: nat)
    | NotANest

  /** A keyword handler reached, and the index of the nest it was run for. */
  datatype Visit = Visit(keyword: Keyword, at: nat)

  datatype CardRun = CardRun(seed: CardSeed, visits: seq<Visit>)

  /** The seed `process_codeCard` binds (make/builder/card/code/index.ts:49-76). */
  function FreshSeed(link: string, directory: string, text: string, tree: seq<Nest>): (s: CardSeed)
    ensures s.meshes.Keys == CardMeshes && forall m :: m in s.meshes ==> s.meshes[m] == map[]
    ensures s.bearList == [] && s.loadList == [] && s.dependencyWatchers == map[]
    ensures s.path == link && s.parseTree == tree
    ensures |s.textByLine| >= 1 && Join(s.textByLine, "\n") == text
  {
    JoinSplit(text, '\n');
    CardSeed(link, directory, Split(text, '\n'), tree, map m | m in CardMeshes :: map[], map[], [], [])
  }

  /** A nest the dispatcher refuses outright: an interpolation, or a static
      term that is no keyword. */
  predicate Rejected(o: CardOracle, nest: Nest) {
    || o.nestType(nest) == DynamicText
    || o.nestType(nest) == DynamicTerm
    || (o.nestType(nest) == StaticTerm && LookupKeyword(o.term(nest)).None?)
  }

  /** The keyword of a nest that reaches a handler. */
  function KeywordOf(o: CardOracle, nest: Nest): Option<Keyword> {
    if o.nestType(nest) == StaticTerm then LookupKeyword(o.term(nest)) else None
  }

  /** `process_codeCard_nestedChildren` with its static-term case
      (make/builder/card/code/index.ts:100-166) for the nest at `at`. */
  function Step(o: CardOracle, seed: CardSeed, nest: Nest, at: nat): Result<CardRun, CardFault> {
    match o.nestType(nest)
    case DynamicText => Err(Raised(Raise(UnhandledTermInterpolation, at)))
    case DynamicTerm => Err(Raised(Raise(UnhandledTermInterpolation, at)))
    case StaticTerm =>
      (match LookupKeyword(o.term(nest))
       case None => Err(Raised(Raise(UnknownTerm, at)))
       case Some(k) =>
         match o.handler(k, nest, at, seed)
         case None => Err(HandlerFailed(k, at))
         case Some(seed') => Ok(CardRun(seed', [Visit(k, at)])))
    case _ => Ok(CardRun(seed, []))
  }

  /** Each keyword reaches exactly its own handler, an unknown term fails
      with 0003, interpolations with 0001, and any other nest type leaves
      the seed as it is. */
  lemma StepRoutes(o: CardOracle, seed: CardSeed, nest: Nest, at: nat)
    ensures (o.nestType(nest) == DynamicText || o.nestType(nest) == DynamicTerm) ==>
      Step(o, seed, nest, at) == Err(Raised(Raise(UnhandledTermInterpolation, at)))
    ensures o.nestType(nest) == StaticTerm ==>
      forall k: Keyword :: o.term(nest) == Spelling(k) ==>
        Step(o, seed, nest, at) == (if o.handler(k, nest, at, seed).Some?
          then Ok(CardRun(o.handler(k, nest, at, seed).value, [Visit(k, at)]))
          else Err(HandlerFailed(k, at)))
    ensures o.nestType(nest) == StaticTerm && (forall k: Keyword :: o.term(nest) != Spelling(k)) ==>
      Step(o, seed, nest, at) == Err(Raised(Raise(UnknownTerm, at)))
    ensures o.nestType(nest) !in {DynamicText, DynamicTerm, StaticTerm} ==>
      Step(o, seed, nest, at) == Ok(CardRun(seed, []))
  {
    if o.nestType(nest) == StaticTerm {
      LookupIffSpelled(o.term(nest));
      forall k: Keyword | o.term(nest) == Spelling(k)
        ensures LookupKeyword(o.term(nest)) == Some(k)
      {
        LookupSpelling(k);
      }
    }
  }

  /** The two dispatchers agree on interpolations and on keywords, and
      differ elsewhere: an unknown static term is 0002 in the mesh resolver
      but 0003 here, and a nest of another type is 0004 there but passed
      over here. */
  lemma DispatchersDiffer(mo: Mesh.Oracle, co: CardOracle, seed: CardSeed, nest: Nest, at: nat)
    requires mo.nestType == co.nestType && mo.term == co.term
    ensures Rejected(co, nest) && co.nestType(nest) != StaticTerm ==>
      Mesh.Dispatch(mo, nest, at) == Err(Mesh.Raised(Raise(UnhandledTermInterpolation, at)))
      && Step(co, seed, nest, at) == Err(Raised(Raise(UnhandledTermInterpolation, at)))
    ensures Rejected(co, nest) && co.nestType(nest) == StaticTerm ==>
      Mesh.Dispatch(mo, nest, at) == Err(Mesh.Raised(Raise(UnhandledTermCase, at)))
      && Step(co, seed, nest, at) == Err(Raised(Raise(UnknownTerm, at)))
    ensures co.nestType(nest) !in {DynamicText, DynamicTerm, StaticTerm} ==>
      Mesh.Dispatch(mo, nest, at) == Err(Mesh.Raised(Raise(UnhandledNestCase, at)))
      && Step(co, seed, nest, at) == Ok(CardRun(seed, []))
  {
  }

  /** The top-level nests dispatched in order, each with its index, the
      seed threaded through the handlers; the first failure aborts. */
  function Walk(o: CardOracle, seed: CardSeed, nests: seq<Nest>): (r: Result<CardRun, CardFault>)
    ensures r.Ok? ==> |r.value.visits| <= |nests|
    decreases |nests|
  {
    if |nests| == 0 then Ok(CardRun(seed, []))
    else
      var n := |nests| - 1;
      match Walk(o, seed, nests[..n])
      case Err(f) => Err(f)
      case Ok(run) =>
        match Step(o, run.seed, nests[n], n)
        case Err(f) => Err(f)
        case Ok(step) => Ok(CardRun(step.seed, run.visits + step.visits))
  }

  /** The visit log of a completed walk: no nest was refused, the visits
      are in strictly increasing nest order, each names the keyword of its
      nest, and every keyword nest was visited. */
  predicate VisitsFit(o: CardOracle, nests: seq<Nest>, visits: seq<Visit>) {
    && (forall i :: 0 <= i < |nests| ==> !Rejected(o, nests[i]))
    && (forall k :: 0 <= k < |visits| ==>
         visits[k].at < |nests| && KeywordOf(o, nests[visits[k].at]) == Some(visits[k].keyword))
    && (forall k, l :: 0 <= k < l < |visits| ==> visits[k].at < visits[l].at)
    && (forall i :: 0 <= i < |nests| && KeywordOf(o, nests[i]).Some? ==>
         exists k :: 0 <= k < |visits| && visits[k].at == i)
  }

  lemma FitsExtend(o: CardOracle, nests: seq<Nest>, visits: seq<Visit>, more: seq<Visit>)
    requires |nests| > 0 && VisitsFit(o, nests[..|nests| - 1], visits)
    requires !Rejected(o, nests[|nests| - 1])
    requires more == if KeywordOf(o, nests[|nests| - 1]).Some?
      then [Visit(KeywordOf(o, nests[|nests| - 1]).value, |nests| - 1)] else []
    ensures VisitsFit(o, nests, visits + more)
  {
    var n := |nests| - 1;
    var init := nests[..n];
    var all := visits + more;
    assert forall i :: 0 <= i < n ==> init[i] == nests[i];
    forall i | 0 <= i < |nests| && KeywordOf(o, nests[i]).Some?
      ensures exists k :: 0 <= k < |all| && all[k].at == i
    {
      if i < n {
        assert KeywordOf(o, init[i]).Some?;
        var k :| 0 <= k < |visits| && visits[k].at == i;
        assert all[k].at == i;
      } else {
        assert all[|visits|].at == i;
      }
    }
  }

  /** Where a failed walk stopped: every nest before the fault's index was
      accepted, and the nest at it is the first the walk could not get
      past. Either the dispatcher refused it (0003 exactly when it is a
      static term, 0001 otherwise) or it is a keyword nest whose handler
      failed. */
  predicate FailsFirstAt(o: CardOracle, nests: seq<Nest>, f: CardFault) {
    match f
    case Raised(raise) =>
      && raise.at < |nests|
      && (forall i :: 0 <= i < raise.at ==> !Rejected(o, nests[i]))
      && Rejected(o, nests[raise.at])
      && raise.kind in {UnknownTerm, UnhandledTermInterpolation}
      && (raise.kind == UnknownTerm <==> o.nestType(nests[raise.at]) == StaticTerm)
    case HandlerFailed(k, at) =>
      && at < |nests|
      && (forall i :: 0 <= i < at ==> !Rejected(o, nests[i]))
      && KeywordOf(o, nests[at]) == Some(k)
    case NotANest => false
  }

  /** A completed walk's visit log fits its nests; a failed walk fails at
      the first nest it could not get past. */
  lemma {:induction false} WalkVisits(o: CardOracle, seed: CardSeed, nests: seq<Nest>)
    ensures Walk(o, seed, nests).Ok? ==> VisitsFit(o, nests, Walk(o, seed, nests).value.visits)
    ensures Walk(o, seed, nests).Err? ==> FailsFirstAt(o, nests, Walk(o, seed, nests).error)
    decreases |nests|
  {
    if |nests| > 0 {
      var n := |nests| - 1;
      var init := nests[..n];
      WalkVisits(o, seed, init);
      assert forall i :: 0 <= i < n ==> init[i] == nests[i];
      if Walk(o, seed, init).Ok? {
        var run := Walk(o, seed, init).value;
        if Step(o, run.seed, nests[n], n).Ok? {
          var step := Step(o, run.seed, nests[n], n).value;
          FitsExtend(o, nests, run.visits, step.visits);
        }
      }
    }
  }

  /** `process_codeCard` (make/builder/card/code/index.ts:41-98) on the
      card's text: a tree that is not a nest fails before any nest is
      dispatched; otherwise the nests are walked from the fresh seed, so a
      completed card visited exactly its keyword nests in order, and a card
      refused by the dispatcher failed at a refused nest. */
  function ProcessCodeCard(o: CardOracle, link: string, text: string): (r: Result<CardRun, CardFault>)
    ensures o.parse(text).None? ==> r == Err(NotANest)
    ensures o.parse(text).Some? && |o.parse(text).value| == 0 ==>
      r == Ok(CardRun(FreshSeed(link, o.host(link), text, []), []))
    ensures o.parse(text).Some? && r.Ok? ==> VisitsFit(o, o.parse(text).value, r.value.visits)
    ensures o.parse(text).Some? && r.Err? ==> FailsFirstAt(o, o.parse(text).value, r.error)
  {
    match o.parse(text)
    case None => Err(NotANest)
    case Some(tree) =>
      var seed := FreshSeed(link, o.host(link), text, tree);
      WalkVisits(o, seed, tree);
      Walk(o, seed, tree)
  }

  /** A card whose nests are all of types the dispatcher passes over keeps
      its fresh seed and reaches no handler. */
  lemma {:induction false} PassedOverNestsLeaveSeed(o: CardOracle, seed: CardSeed, nests: seq<Nest>)
    requires forall i :: 0 <= i < |nests| ==> o.nestType(nests[i]) !in {DynamicText, DynamicTerm, StaticTerm}
    ensures Walk(o, seed, nests) == Ok(CardRun(seed, []))
    decreases |nests|
  {
    if |nests| > 0 {
      PassedOverNestsLeaveSeed(o, seed, nests[..|nests| - 1]);
    }
  }
}
