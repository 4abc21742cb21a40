/** The module-mesh resolver of make/mesh/code/index.ts: a code card is
    loaded once per path, its top-level nests are dispatched by nest type
    and keyword, and its collected children are either bucketed into a
    mesh module (declarations by family and name, imports and exports in
    order) whose import and export targets are then handled in turn, or
    scanned for imports to follow. The registry `base.cards` is threaded
    through the calls as a value.

    The collaborators whose code is not part of this model are fields of an
    `Oracle`: the loader (`loadLinkModule`, as a finite table of loadable
    paths), `determineNestType`, the static-term resolver, a nest's child
    list, the per-keyword handlers other than `note` (as the mesh nodes each
    contributes, or failure), `childrenAreMesh`, and the deck-path pattern.
    The `note` handler is modelled (`ProcessNote`). `handle_deckCard` is
    recorded in the request log and otherwise has no effect. */
module Mesh {
  import opened Results
  import opened Strings
  import opened Trees
  import opened Terms
  import Leaves

  type Path = string

  /** `node.like` of the children a code module collects. */
  datatype NodeLike =
    | MeshConstant | MeshClassInterface | MeshFunction | MeshClass | MeshTemplate
    | MeshImport | MeshExport | MeshInject
    | NestImport | NestExport | NestClass | NestFunction | NestTemplate | NestInject
    | OtherLike(name: string)

  datatype MeshNode = MeshNode(like: NodeLike, name: string, hidden: bool, absolutePath: Path)

  /** The five declaration families that have an all- and a public-bucket. */
  datatype Decl = Constant | ClassInterface | Function | Class | Template

  function DeclOf(like: NodeLike): Option<Decl> {
    match like
    case MeshConstant => Some(Constant)
    case MeshClassInterface => Some(ClassInterface)
    case MeshFunction => Some(Function)
    case MeshClass => Some(Class)
    case MeshTemplate => Some(Template)
    case _ => None
  }

  /** What `loadLinkModule` yields for a path. */
  datatype Parse = Parse(text: string, link: seq<Nest>)

  /** The `CodeModule` nest seed a card is bound to when processed. */
  datatype CodeModule = CodeModule(path: Path, text: string, link: seq<Nest>, children: seq<MeshNode>)

  /** The buckets of a mesh module, keyed by (family, name). */
  datatype Buckets = Buckets(
    all: map<(Decl, string), MeshNode>,
    public: map<(Decl, string), MeshNode>,
    importTree: seq<MeshNode>,
    exportList: seq<MeshNode>)

  /** The buckets `resolve_codeCard` creates and never fills. */
  const UnfilledBuckets: set<string> := {
    "allComponentMesh", "allTestMesh", "callbackMesh", "constantMesh",
    "nativeClassInterfaceMesh", "publicComponentMesh",
    "publicNativeClassInterfaceMesh", "publicTestMesh"}

  /** `MeshCodeModuleType`. */
  datatype CodeMesh = CodeMesh(
    path: Path, text: string, link: seq<Nest>,
    buckets: Buckets,
    unfilled: map<string, map<string, MeshNode>>,
    complete: bool)

  datatype Seed = ModuleSeed(code: CodeModule) | MeshSeed(mesh: CodeMesh)

  /** One call of `handle_deckCard` or `handle_codeCard` made while
      resolving the card at `from`. */
  datatype Request = Request(from: Path, to: Path, deck: bool)

  /** The registry: each registered path's bound seed, the paths in the order
      they were processed, and the handling requests in the order made. */
  datatype Base = Base(cards: map<Path, Seed>, processed: seq<Path>, requests: seq<Request>)

  const EmptyBase: Base := Base(map[], [], [])

  datatype Oracle = Oracle(
    files: map<Path, Parse>,
    nestType: Nest -> NestType,
    term: Nest -> string,
    handler: (Keyword, Nest) -> Option<seq<MeshNode>>,
    children: Nest -> seq<Nest>,
    childrenAreMesh: seq<MeshNode> -> bool,
    isDeckPath: Path -> bool)

  datatype MeshFault =
    | Raised(raise: Raise)
    | HandlerFailed(keyword: Keyword, at: nat)
    | NoteChildRaised(at: nat, raise: Raise)
    | NotLoadable(path: Path)
    | NotImplementedYet(like: NodeLike)

  // ---------------------------------------------------------------------
  // Dispatch of the top-level nests

  /** `process_codeCard_note` (make/mesh/code/note/index.ts:4-29) for the
      nest at `at`: it contributes nothing, and fails with 0002 at the first
      child that is not static text. */
  function ProcessNote(o: Oracle, nest: Nest, at: nat): Result<seq<MeshNode>, MeshFault> {
    match Leaves.FirstOffender(o.nestType, o.children(nest), StaticText)
    case None => Ok([])
    case Some(i) => Err(NoteChildRaised(at, Raise(UnhandledTermCase, i)))
  }

  /** `process_codeCard_nestedChildren` and its static-term case
      (make/mesh/code/index.ts:86-155) for the nest at index `at`. The
      `note` handler is `ProcessNote`; the other nine are the oracle's. */
  function Dispatch(o: Oracle, nest: Nest, at: nat): (r: Result<seq<MeshNode>, MeshFault>)
    ensures r.Err? && r.error.Raised? ==> r.error.raise.at == at
    ensures r.Err? && r.error.NoteChildRaised? ==> r.error.at == at
  {
    match o.nestType(nest)
    case DynamicText => Err(Raised(Raise(UnhandledTermInterpolation, at)))
    case DynamicTerm => Err(Raised(Raise(UnhandledTermInterpolation, at)))
    case StaticTerm =>
      (match LookupKeyword(o.term(nest))
       case None => Err(Raised(Raise(UnhandledTermCase, at)))
       case Some(Note) => ProcessNote(o, nest, at)
       case Some(k) =>
         match o.handler(k, nest)
         case None => Err(HandlerFailed(k, at))
         case Some(nodes) => Ok(nodes))
    case _ => Err(Raised(Raise(UnhandledNestCase, at)))
  }

  /** A static term spelled as one of the nine handled keywords reaches
      that keyword's handler, and only it, and `note` reaches `ProcessNote`;
      any other static term fails with 0002; interpolations fail with 0001
      and every other nest type with 0004. */
  lemma DispatchRoutes(o: Oracle, nest: Nest, at: nat)
    ensures (o.nestType(nest) == DynamicText || o.nestType(nest) == DynamicTerm) ==>
      Dispatch(o, nest, at) == Err(Raised(Raise(UnhandledTermInterpolation, at)))
    ensures o.nestType(nest) == StaticTerm ==>
      forall k: Keyword :: o.term(nest) == Spelling(k) && k != Note ==>
        Dispatch(o, nest, at) == (if o.handler(k, nest).Some? then Ok(o.handler(k, nest).value) else Err(HandlerFailed(k, at)))
    ensures o.nestType(nest) == StaticTerm && o.term(nest) == Spelling(Note) ==>
      Dispatch(o, nest, at) == ProcessNote(o, nest, at)
    ensures o.nestType(nest) == StaticTerm && (forall k: Keyword :: o.term(nest) != Spelling(k)) ==>
      Dispatch(o, nest, at) == Err(Raised(Raise(UnhandledTermCase, at)))
    ensures o.nestType(nest) !in {DynamicText, DynamicTerm, StaticTerm} ==>
      Dispatch(o, nest, at) == Err(Raised(Raise(UnhandledNestCase, at)))
  {
    if o.nestType(nest) == StaticTerm {
      LookupIffSpelled(o.term(nest));
      forall k: Keyword | o.term(nest) == Spelling(k)
        ensures LookupKeyword(o.term(nest)) == Some(k)
      {
        LookupSpelling(k);
      }
    }
  }
  /** A `note` term adds no mesh node and passes exactly when every child
      is static text; otherwise it fails with 0002 at its first child of
      another type, as the note validator does. */
  lemma DispatchNote(o: Oracle, nest: Nest, at: nat)
    requires o.nestType(nest) == StaticTerm && o.term(nest) == Spelling(Note)
    ensures Dispatch(o, nest, at).Ok? <==> Leaves.AllOfType(o.nestType, o.children(nest), StaticText)
    ensures Dispatch(o, nest, at).Ok? ==> Dispatch(o, nest, at).value == []
    ensures Dispatch(o, nest, at).Err? ==>
      var f := Dispatch(o, nest, at).error;
      var cs := o.children(nest);
      && f.NoteChildRaised? && f.at == at && f.raise.kind == UnhandledTermCase
      && f.raise.at < |cs| && o.nestType(cs[f.raise.at]) != StaticText
      && Leaves.AllOfType(o.nestType, cs[..f.raise.at], StaticText)
  {
    LookupSpelling(Note);
  }


  /** The top-level nests dispatched in order, each with its index; their
      contributions are collected in order and the first failure aborts. */
  function ProcessChildren(o: Oracle, nests: seq<Nest>): Result<seq<MeshNode>, MeshFault>
    decreases |nests|
  {
    if |nests| == 0 then Ok([])
    else
      match ProcessChildren(o, nests[..|nests| - 1])
      case Err(f) => Err(f)
      case Ok(kids) =>
        match Dispatch(o, nests[|nests| - 1], |nests| - 1)
        case Err(f) => Err(f)
        case Ok(nodes) => Ok(kids + nodes)
  }

  /** Processing succeeds exactly when every nest dispatches; on failure
      the error is that of the first nest that fails. */
  lemma {:induction false} ProcessChildrenFirstFailure(o: Oracle, nests: seq<Nest>)
    ensures ProcessChildren(o, nests).Ok? <==> forall i :: 0 <= i < |nests| ==> Dispatch(o, nests[i], i).Ok?
    ensures ProcessChildren(o, nests).Err? ==>
      exists j :: 0 <= j < |nests| && Dispatch(o, nests[j], j) == Err(ProcessChildren(o, nests).error)
        && forall i :: 0 <= i < j ==> Dispatch(o, nests[i], i).Ok?
    decreases |nests|
  {
    if |nests| > 0 {
      var init := nests[..|nests| - 1];
      ProcessChildrenFirstFailure(o, init);
      assert forall i :: 0 <= i < |init| ==> init[i] == nests[i];
    }
  }

  // ---------------------------------------------------------------------
  // Bucketing a mesh module's children

  /** Whether `node` declares `name` in family `d` (and is visible, when
      only visible declarations count). */
  predicate Declares(node: MeshNode, d: Decl, name: string, visibleOnly: bool) {
    DeclOf(node.like) == Some(d) && node.name == name && (visibleOnly ==> !node.hidden)
  }

  /** Index of the last child declaring `name` in family `d`: the
      reference definition of "the last duplicate wins". */
  function LastDecl(cs: seq<MeshNode>, d: Decl, name: string, visibleOnly: bool): (r: Option<nat>)
    ensures r.Some? ==>
      && r.value < |cs| && Declares(cs[r.value], d, name, visibleOnly)
      && forall j :: r.value < j < |cs| ==> !Declares(cs[j], d, name, visibleOnly)
    ensures r.None? ==> forall j :: 0 <= j < |cs| ==> !Declares(cs[j], d, name, visibleOnly)
    decreases |cs|
  {
    if |cs| == 0 then None
    else if Declares(cs[|cs| - 1], d, name, visibleOnly) then Some(|cs| - 1)
    else LastDecl(cs[..|cs| - 1], d, name, visibleOnly)
  }

  /** The children of one kind, in source order: every child of that kind
      is kept, and nothing else. */
  function OfKind(cs: seq<MeshNode>, like: NodeLike): (r: seq<MeshNode>)
    ensures |r| <= |cs|
    ensures forall k :: 0 <= k < |r| ==> r[k].like == like && r[k] in cs
    ensures forall i :: 0 <= i < |cs| && cs[i].like == like ==> cs[i] in r
    decreases |cs|
  {
    if |cs| == 0 then []
    else OfKind(cs[..|cs| - 1], like) + (if cs[|cs| - 1].like == like then [cs[|cs| - 1]] else [])
  }

  predicate Bucketable(like: NodeLike) {
    DeclOf(like).Some? || like == MeshImport || like == MeshExport
  }

  /** One step of the `forEach` at make/mesh/code/index.ts:194-249. */
  function AddChild(b: Buckets, node: MeshNode): Result<Buckets, MeshFault> {
    match DeclOf(node.like)
    case Some(d) =>
      Ok(b.(all := b.all[(d, node.name) := node],
            public := if node.hidden then b.public else b.public[(d, node.name) := node]))
    case None =>
      if node.like == MeshImport then Ok(b.(importTree := b.importTree + [node]))
      else if node.like == MeshExport then Ok(b.(exportList := b.exportList + [node]))
      else Err(NotImplementedYet(node.like))
  }

  /** All children bucketed in order; the first child of another kind fails. */
  function Bucket(cs: seq<MeshNode>): Result<Buckets, MeshFault>
    decreases |cs|
  {
    if |cs| == 0 then Ok(Buckets(map[], map[], [], []))
    else
      match Bucket(cs[..|cs| - 1])
      case Err(f) => Err(f)
      case Ok(b) => AddChild(b, cs[|cs| - 1])
  }

  /** Bucketing succeeds exactly when every child is a declaration, an
      import or an export; otherwise it fails on the first one that is not. */
  lemma {:induction false} BucketOkIff(cs: seq<MeshNode>)
    ensures Bucket(cs).Ok? <==> forall i :: 0 <= i < |cs| ==> Bucketable(cs[i].like)
    ensures Bucket(cs).Err? ==>
      exists j :: 0 <= j < |cs| && !Bucketable(cs[j].like) && Bucket(cs).error == NotImplementedYet(cs[j].like)
        && forall i :: 0 <= i < j ==> Bucketable(cs[i].like)
    decreases |cs|
  {
    if |cs| > 0 {
      var init := cs[..|cs| - 1];
      BucketOkIff(init);
      assert forall i :: 0 <= i < |init| ==> init[i] == cs[i];
    }
  }

  /** Each family's all-bucket holds every declared name, bound to the
      LAST child declaring it. */
  lemma {:induction false} BucketAll(cs: seq<MeshNode>, d: Decl, name: string)
    requires Bucket(cs).Ok?
    ensures (d, name) in Bucket(cs).value.all <==> LastDecl(cs, d, name, false).Some?
    ensures (d, name) in Bucket(cs).value.all ==>
      Bucket(cs).value.all[(d, name)] == cs[LastDecl(cs, d, name, false).value]
    decreases |cs|
  {
    if |cs| > 0 {
      BucketAll(cs[..|cs| - 1], d, name);
    }
  }

  /** The public-bucket holds exactly the names with a visible declaration,
      bound to the last visible one: a hidden redeclaration does not
      replace an earlier visible entry. */
  lemma {:induction false} BucketPublic(cs: seq<MeshNode>, d: Decl, name: string)
    requires Bucket(cs).Ok?
    ensures (d, name) in Bucket(cs).value.public <==> LastDecl(cs, d, name, true).Some?
    ensures (d, name) in Bucket(cs).value.public ==>
      Bucket(cs).value.public[(d, name)] == cs[LastDecl(cs, d, name, true).value]
    decreases |cs|
  {
    if |cs| > 0 {
      BucketPublic(cs[..|cs| - 1], d, name);
    }
  }

  /** Imports and exports are collected in source order. */
  lemma {:induction false} BucketLists(cs: seq<MeshNode>)
    requires Bucket(cs).Ok?
    ensures Bucket(cs).value.importTree == OfKind(cs, MeshImport)
    ensures Bucket(cs).value.exportList == OfKind(cs, MeshExport)
    decreases |cs|
  {
    if |cs| > 0 {
      BucketLists(cs[..|cs| - 1]);
    }
  }

  /** Consequences: every public entry is also in the all-bucket, a name
      whose every declaration is hidden is never public, and a name whose
      last declaration is visible has the same entry in both. */
  lemma PublicWithinAll(cs: seq<MeshNode>, d: Decl, name: string)
    requires Bucket(cs).Ok?
    ensures var b := Bucket(cs).value;
      && ((d, name) in b.public ==> (d, name) in b.all)
      && ((forall i :: 0 <= i < |cs| && Declares(cs[i], d, name, false) ==> cs[i].hidden) ==> (d, name) !in b.public)
      && ((d, name) in b.all && !b.all[(d, name)].hidden ==> (d, name) in b.public && b.public[(d, name)] == b.all[(d, name)])
  {
    BucketAll(cs, d, name);
    BucketPublic(cs, d, name);
    var b := Bucket(cs).value;
    if (d, name) in b.public {
      var j := LastDecl(cs, d, name, true).value;
      assert Declares(cs[j], d, name, false);
    }
    if (d, name) in b.all && !b.all[(d, name)].hidden {
      var i := LastDecl(cs, d, name, false).value;
      assert Declares(cs[i], d, name, true);
      var j := LastDecl(cs, d, name, true).value;
      assert !(i < j);
      assert !(j < i);
    }
  }

  /** The mesh seed `resolve_codeCard` builds from a code module. */
  function MeshOf(m: CodeModule, b: Buckets): (r: CodeMesh)
    ensures r.unfilled.Keys == UnfilledBuckets && forall k :: k in r.unfilled ==> r.unfilled[k] == map[]
    ensures !r.complete && r.buckets == b && r.path == m.path
  {
    CodeMesh(m.path, m.text, m.link, b, map k | k in UnfilledBuckets :: map[], false)
  }

  // ---------------------------------------------------------------------
  // Handling, processing and resolving code cards

  /** What the non-mesh branch does with a child, and what the mesh branch
      does with an import or export (make/mesh/code/index.ts:261-333). */
  datatype Route = Follow | Skip | Reject

  function RouteOf(like: NodeLike, inMesh: bool): Route {
    if like == MeshImport then Follow
    else if inMesh then (if like == MeshExport then Follow else Reject)
    else if like in {NestImport, NestExport, NestClass, NestFunction, NestTemplate, NestInject,
                     MeshExport, MeshClass, MeshFunction, MeshTemplate, MeshInject} then Skip
    else Reject
  }

  /** Registered paths only grow, registered seeds only change through the
      named path, and every path processed since `b` is new, registered
      and processed once; every new registration was processed. */
  predicate Grows(b: Base, b': Base) {
    && b.cards.Keys <= b'.cards.Keys
    && |b.processed| <= |b'.processed| && b'.processed[..|b.processed|] == b.processed
    && |b.requests| <= |b'.requests| && b'.requests[..|b.requests|] == b.requests
    && (forall i :: |b.processed| <= i < |b'.processed| ==> b'.processed[i] !in b.cards && b'.processed[i] in b'.cards)
    && (forall i, j :: |b.processed| <= i < j < |b'.processed| ==> b'.processed[i] != b'.processed[j])
    && (forall p :: p in b'.cards && p !in b.cards ==> p in b'.processed)
  }

  /** Every seed registered in `b` other than `link`'s is still there. */
  predicate KeepsOthers(b: Base, b': Base, link: Path) {
    forall p :: p in b.cards && p != link ==> p in b'.cards && b'.cards[p] == b.cards[p]
  }

  /** Every seed registered in `b` is still there, unchanged. */
  predicate KeepsAll(b: Base, b': Base) {
    forall p :: p in b.cards ==> p in b'.cards && b'.cards[p] == b.cards[p]
  }

  /** Every request made since `b` was made while resolving `link` or a
      card registered since. */
  predicate RequestsFrom(b: Base, b': Base, link: Path) {
    forall i :: |b.requests| <= i < |b'.requests| ==> b'.requests[i].from == link || b'.requests[i].from !in b.cards
  }

  lemma GrowsRefl(b: Base)
    ensures Grows(b, b)
  {
  }

  lemma GrowsTrans(b0: Base, b1: Base, b2: Base)
    requires Grows(b0, b1) && Grows(b1, b2)
    ensures Grows(b0, b2)
  {
    assert b2.processed[..|b0.processed|] == b2.processed[..|b1.processed|][..|b0.processed|];
    assert b2.requests[..|b0.requests|] == b2.requests[..|b1.requests|][..|b0.requests|];
    ProcessedTrans(b0, b1, b2);
    RegisteredTrans(b0, b1, b2);
  }

  lemma ProcessedTrans(b0: Base, b1: Base, b2: Base)
    requires Grows(b0, b1) && Grows(b1, b2)
    ensures forall i :: |b0.processed| <= i < |b2.processed| ==> b2.processed[i] !in b0.cards && b2.processed[i] in b2.cards
    ensures forall i, j :: |b0.processed| <= i < j < |b2.processed| ==> b2.processed[i] != b2.processed[j]
  {
    var n0, n1 := |b0.processed|, |b1.processed|;
    forall i | n0 <= i < n1
      ensures b2.processed[i] == b1.processed[i]
    {
      assert b2.processed[..n1][i] == b2.processed[i];
    }
    forall i, j | n0 <= i < j < |b2.processed|
      ensures b2.processed[i] != b2.processed[j]
    {
      if i < n1 && n1 <= j {
        assert b1.processed[i] in b1.cards;
      }
    }
  }

  lemma RegisteredTrans(b0: Base, b1: Base, b2: Base)
    requires Grows(b0, b1) && Grows(b1, b2)
    ensures forall p :: p in b2.cards && p !in b0.cards ==> p in b2.processed
  {
    assert forall p :: p in b1.processed ==> p in b2.processed[..|b1.processed|];
  }

  /** Registering a loadable path that was not registered shrinks the set of
      loadable paths not yet registered. */
  lemma MeasureDrops(files: set<Path>, cards: set<Path>, link: Path)
    requires link in files && link !in cards
    ensures |files - (cards + {link})| < |files - cards|
  {
    assert files - (cards + {link}) == (files - cards) - {link};
  }

  lemma MeasureMonotone(files: set<Path>, cards: set<Path>, cards': set<Path>)
    requires cards <= cards'
    ensures |files - cards'| <= |files - cards|
  {
    assert files - cards' <= files - cards;
    SubsetCardinality(files - cards', files - cards);
  }

  lemma {:induction false} SubsetCardinality<T>(a: set<T>, b: set<T>)
    requires a <= b
    ensures |a| <= |b|
    decreases |b|
  {
    if a != {} {
      var x :| x in a;
      SubsetCardinality(a - {x}, b - {x});
    }
  }

  /** `process_codeCard` (make/mesh/code/index.ts:54-84): load the path,
      register and bind a fresh code-module seed, and collect its children
      when the text has content. */
  function Process(o: Oracle, base: Base, link: Path): (r: Result<Base, MeshFault>)
    ensures link !in o.files ==> r == Err(NotLoadable(link))
    ensures r.Ok? ==>
      && link in o.files
      && r.value.cards.Keys == base.cards.Keys + {link}
      && r.value.processed == base.processed + [link]
      && r.value.requests == base.requests
      && KeepsOthers(base, r.value, link)
    ensures r.Ok? && HasContent(o.files[link].text) ==>
      && ProcessChildren(o, o.files[link].link).Ok?
      && r.value.cards[link] == ModuleSeed(CodeModule(link, o.files[link].text, o.files[link].link,
           ProcessChildren(o, o.files[link].link).value))
    ensures r.Ok? && !HasContent(o.files[link].text) ==>
      r.value.cards[link] == ModuleSeed(CodeModule(link, o.files[link].text, o.files[link].link, []))
    ensures link in o.files && HasContent(o.files[link].text) && ProcessChildren(o, o.files[link].link).Err? ==>
      r == Err(ProcessChildren(o, o.files[link].link).error)
  {
    if link !in o.files then Err(NotLoadable(link))
    else
      var parse := o.files[link];
      var seed := CodeModule(link, parse.text, parse.link, []);
      if HasContent(parse.text) then
        match ProcessChildren(o, parse.link)
        case Err(f) => Err(f)
        case Ok(kids) =>
          Ok(base.(cards := base.cards[link := ModuleSeed(seed.(children := kids))], processed := base.processed + [link]))
      else
        Ok(base.(cards := base.cards[link := ModuleSeed(seed)], processed := base.processed + [link]))
  }

  /** What handling a path guarantees about the registry it returns. */
  predicate HandlePost(b: Base, b': Base, link: Path) {
    && link in b'.cards
    && Grows(b, b')
    && KeepsAll(b, b')
    && RequestsFrom(b, b', link)
  }

  /** What walking a list of nodes for the card at `from` guarantees. */
  predicate ListPost(b: Base, b': Base, from: Path) {
    Grows(b, b') && KeepsAll(b, b') && RequestsFrom(b, b', from)
  }

  lemma ListPostRefl(b: Base, from: Path)
    ensures ListPost(b, b, from)
  {
  }

  /** Recording a deck request and then walking the rest. */
  lemma DeckStep(b: Base, b1: Base, b2: Base, from: Path, req: Request)
    requires b1 == b.(requests := b.requests + [req]) && req.from == from
    requires ListPost(b1, b2, from)
    ensures ListPost(b, b2, from)
  {
    GrowsTrans(b, b1, b2);
  }

  /** Recording a code request, handling its target, and walking the rest:
      the requests made while handling the target come from cards that
      were not registered, so none of them is attributed to `from`. */
  lemma FollowStep(b: Base, b1: Base, b2: Base, b3: Base, from: Path, req: Request)
    requires b1 == b.(requests := b.requests + [req]) && req.from == from
    requires req.to in b1.cards ==> b2 == b1
    requires HandlePost(b1, b2, req.to)
    requires ListPost(b2, b3, from)
    ensures ListPost(b, b3, from)
  {
    GrowsTrans(b, b1, b2);
    GrowsTrans(b, b2, b3);
    forall i | |b.requests| <= i < |b3.requests|
      ensures b3.requests[i].from == from || b3.requests[i].from !in b.cards
    {
      if i < |b2.requests| {
        assert b3.requests[i] == b2.requests[i];
        if i >= |b1.requests| {
          assert b2.requests[i].from == req.to || b2.requests[i].from !in b1.cards;
        } else {
          assert b2.requests[i] == b1.requests[i];
        }
      }
    }
  }

  /** Registering and processing a new path, then resolving it. */
  lemma HandleStep(b: Base, b1: Base, b2: Base, link: Path)
    requires link !in b.cards
    requires b1.cards.Keys == b.cards.Keys + {link} && b1.processed == b.processed + [link]
    requires b1.requests == b.requests && KeepsOthers(b, b1, link)
    requires Grows(b1, b2) && KeepsOthers(b1, b2, link) && RequestsFrom(b1, b2, link) && link in b2.cards
    ensures HandlePost(b, b2, link)
    ensures |b2.processed| > |b.processed| && b2.processed[|b.processed|] == link
  {
    assert b1.processed[..|b.processed|] == b.processed;
    assert Grows(b, b1);
    GrowsTrans(b, b1, b2);
    assert b2.processed[..|b1.processed|][|b.processed|] == link;
  }

  /** `handle_codeCard` (make/mesh/code/index.ts:46-52): nothing for a
      registered path; otherwise process, then resolve. */
  function Handle(o: Oracle, base: Base, link: Path): (r: Result<Base, MeshFault>)
    ensures link in base.cards ==> r == Ok(base)
    ensures r.Ok? ==> HandlePost(base, r.value, link)
    ensures r.Ok? && link !in base.cards ==>
      && link in o.files
      && |r.value.processed| > |base.processed|
      && r.value.processed[|base.processed|] == link
    decreases |o.files.Keys - base.cards.Keys|, 0, 0
  {
    if link in base.cards then Ok(base)
    else
      match Process(o, base, link)
      case Err(f) => Err(f)
      case Ok(base1) =>
        MeasureDrops(o.files.Keys, base.cards.Keys, link);
        match Resolve(o, base1, link)
        case Err(f) => Err(f)
        case Ok(base2) => HandleStep(base, base1, base2, link); Ok(base2)
  }

  /** Replacing a registered seed, then walking its targets. */
  lemma PromoteStep(b: Base, b1: Base, b2: Base, link: Path)
    requires link in b.cards && b1.cards.Keys == b.cards.Keys
    requires b1.processed == b.processed && b1.requests == b.requests && KeepsOthers(b, b1, link)
    requires ListPost(b1, b2, link)
    ensures Grows(b, b2) && KeepsOthers(b, b2, link) && RequestsFrom(b, b2, link) && link in b2.cards
  {
    assert Grows(b, b1);
    GrowsTrans(b, b1, b2);
  }

  /** `resolve_codeCard` (make/mesh/code/index.ts:157-336). A path with no
      code-module seed is left as it is. */
  function Resolve(o: Oracle, base: Base, link: Path): (r: Result<Base, MeshFault>)
    ensures r.Ok? ==>
      && Grows(base, r.value)
      && KeepsOthers(base, r.value, link)
      && RequestsFrom(base, r.value, link)
      && (link in base.cards ==> link in r.value.cards)
    ensures link !in base.cards || !base.cards[link].ModuleSeed? ==> r == Ok(base)
    decreases |o.files.Keys - base.cards.Keys|, 2, 0
  {
    if link !in base.cards || !base.cards[link].ModuleSeed? then Ok(base)
    else
      var m := base.cards[link].code;
      if o.childrenAreMesh(m.children) then
        match Bucket(m.children)
        case Err(f) => Err(f)
        case Ok(b) =>
          var base1 := base.(cards := base.cards[link := MeshSeed(MeshOf(m, b))]);
          assert base1.cards.Keys == base.cards.Keys;
          match HandleList(o, base1, link, b.importTree + b.exportList, true)
          case Err(f) => Err(f)
          case Ok(base2) => PromoteStep(base, base1, base2, link); Ok(base2)
      else
        HandleList(o, base, link, m.children, false)
  }

  /** The `forEach` over import then export targets, or over the children
      of a non-mesh module: followed paths matching the deck pattern go to
      `handle_deckCard`, the rest to `handle_codeCard`. */
  function HandleList(o: Oracle, base: Base, from: Path, nodes: seq<MeshNode>, inMesh: bool): (r: Result<Base, MeshFault>)
    ensures r.Ok? ==> ListPost(base, r.value, from)
    decreases |o.files.Keys - base.cards.Keys|, 1, |nodes|
  {
    if |nodes| == 0 then Ok(base)
    else
      var node := nodes[0];
      match RouteOf(node.like, inMesh)
      case Reject => Err(NotImplementedYet(node.like))
      case Skip => HandleList(o, base, from, nodes[1..], inMesh)
      case Follow =>
        var req := Request(from, node.absolutePath, o.isDeckPath(node.absolutePath));
        var base1 := base.(requests := base.requests + [req]);
        if req.deck then
          (match HandleList(o, base1, from, nodes[1..], inMesh)
           case Err(f) => Err(f)
           case Ok(base2) => DeckStep(base, base1, base2, from, req); Ok(base2))
        else
          match Handle(o, base1, req.to)
          case Err(f) => Err(f)
          case Ok(base2) =>
            MeasureMonotone(o.files.Keys, base1.cards.Keys, base2.cards.Keys);
            match HandleList(o, base2, from, nodes[1..], inMesh)
            case Err(f) => Err(f)
            case Ok(base3) => FollowStep(base, base1, base2, base3, from, req); Ok(base3)
  }

  // ---------------------------------------------------------------------
  // Properties of the registry

  /** Every registered path was processed, every processed path is
      registered, and no path was processed twice. */
  predicate Consistent(b: Base) {
    && (forall p :: p in b.cards ==> p in b.processed)
    && (forall k :: 0 <= k < |b.processed| ==> b.processed[k] in b.cards)
    && (forall i, j :: 0 <= i < j < |b.processed| ==> b.processed[i] != b.processed[j])
  }

  /** Handling keeps the registry consistent: however the imports cycle,
      each path is loaded and processed at most once. */
  lemma HandleKeepsConsistent(o: Oracle, b: Base, link: Path)
    requires Consistent(b)
    requires Handle(o, b, link).Ok?
    ensures Consistent(Handle(o, b, link).value)
  {
    var r := Handle(o, b, link).value;
    var n := |b.processed|;
    assert r.processed[..n] == b.processed;
    forall p | p in r.cards
      ensures p in r.processed
    {
      if p in b.cards {
        assert p in r.processed[..n];
      }
    }
    forall k | 0 <= k < |r.processed|
      ensures r.processed[k] in r.cards
    {
      if k < n {
        assert r.processed[..n][k] == r.processed[k];
      }
    }
    forall i, j | 0 <= i < j < |r.processed|
      ensures r.processed[i] != r.processed[j]
    {
      if i < n {
        assert r.processed[..n][i] == r.processed[i];
        if j < n {
          assert r.processed[..n][j] == r.processed[j];
        }
      }
    }
  }

  /** Handling a path from the empty registry processes that path first and
      leaves every reachable path registered exactly once. */
  lemma HandleFromEmpty(o: Oracle, link: Path)
    requires Handle(o, EmptyBase, link).Ok?
    ensures var r := Handle(o, EmptyBase, link).value;
      && link in o.files
      && Consistent(r)
      && |r.processed| > 0 && r.processed[0] == link
      && Handle(o, r, link) == Ok(r)
  {
    HandleKeepsConsistent(o, EmptyBase, link);
  }

  /** The requests attributed to the card at `from`, in order. */
  function Owned(rs: seq<Request>, from: Path): (r: seq<Request>)
    ensures |r| <= |rs|
    ensures forall k :: 0 <= k < |r| ==> r[k].from == from
  {
    if |rs| == 0 then []
    else (if rs[0].from == from then [rs[0]] else []) + Owned(rs[1..], from)
  }

  lemma {:induction false} OwnedAppend(a: seq<Request>, b: seq<Request>, from: Path)
    ensures Owned(a + b, from) == Owned(a, from) + Owned(b, from)
    decreases |a|
  {
    if |a| == 0 {
      assert a + b == b;
    } else {
      assert (a + b)[1..] == a[1..] + b;
      OwnedAppend(a[1..], b, from);
    }
  }

  lemma {:induction false} OwnedNone(rs: seq<Request>, from: Path)
    requires forall k :: 0 <= k < |rs| ==> rs[k].from != from
    ensures Owned(rs, from) == []
    decreases |rs|
  {
    if |rs| > 0 {
      OwnedNone(rs[1..], from);
    }
  }

  /** The reference list of requests walking `nodes` makes for `from`: one
      per followed node, in order, to the node's path, marked as a deck
      request when the path matches the deck pattern. */
  function Targets(o: Oracle, from: Path, nodes: seq<MeshNode>, inMesh: bool): seq<Request> {
    if |nodes| == 0 then []
    else
      (if RouteOf(nodes[0].like, inMesh) == Follow
       then [Request(from, nodes[0].absolutePath, o.isDeckPath(nodes[0].absolutePath))]
       else [])
      + Targets(o, from, nodes[1..], inMesh)
  }

  /** A successful walk rejected no node, and the requests it attributes to
      `from` are exactly the reference targets, in order: requests made
      while handling a target belong to the target's own card. */
  lemma {:induction false} HandleListRequests(o: Oracle, b: Base, from: Path, nodes: seq<MeshNode>, inMesh: bool)
    requires from in b.cards
    requires HandleList(o, b, from, nodes, inMesh).Ok?
    ensures forall k :: 0 <= k < |nodes| ==> RouteOf(nodes[k].like, inMesh) != Reject
    ensures var r := HandleList(o, b, from, nodes, inMesh).value;
      Owned(r.requests[|b.requests|..], from) == Targets(o, from, nodes, inMesh)
    decreases |nodes|
  {
    var r := HandleList(o, b, from, nodes, inMesh).value;
    if |nodes| == 0 {
      assert r.requests[|b.requests|..] == [];
    } else {
      var node := nodes[0];
      var tail := nodes[1..];
      assert forall k :: 1 <= k < |nodes| ==> nodes[k] == tail[k - 1];
      if RouteOf(node.like, inMesh) == Skip {
        HandleListRequests(o, b, from, tail, inMesh);
      } else {
        var req := Request(from, node.absolutePath, o.isDeckPath(node.absolutePath));
        var b1 := b.(requests := b.requests + [req]);
        if req.deck {
          HandleListRequests(o, b1, from, tail, inMesh);
          FollowedRequests(b, b1, b1, r, req);
        } else {
          var b2 := Handle(o, b1, req.to).value;
          HandleListRequests(o, b2, from, tail, inMesh);
          FollowedRequests(b, b1, b2, r, req);
        }
      }
    }
  }

  /** The requests after a followed node: its own, those made handling its
      target (none attributed to `from`), and those of the rest. */
  lemma FollowedRequests(b: Base, b1: Base, b2: Base, b3: Base, req: Request)
    requires req.from in b.cards
    requires b1 == b.(requests := b.requests + [req]) && req.from in b1.cards
    requires b2 == b1 || (Extends(b1.requests, b2.requests) && RequestsFrom(b1, b2, req.to) && req.to !in b1.cards)
    requires Extends(b2.requests, b3.requests)
    ensures Owned(b3.requests[|b.requests|..], req.from)
      == [req] + Owned(b3.requests[|b2.requests|..], req.from)
  {
    var mid := b2.requests[|b1.requests|..];
    var rest := b3.requests[|b2.requests|..];
    SplitRequests(b.requests, b1.requests, b2.requests, b3.requests, req);
    MidNotOwned(b1, b2, req);
    OwnedAppend([req] + mid, rest, req.from);
    OwnedAppend([req], mid, req.from);
  }

  /** `later` continues the log `earlier`. */
  predicate Extends(earlier: seq<Request>, later: seq<Request>) {
    |earlier| <= |later| && later[..|earlier|] == earlier
  }

  lemma SplitRequests(r0: seq<Request>, r1: seq<Request>, r2: seq<Request>, r3: seq<Request>, req: Request)
    requires r1 == r0 + [req]
    requires |r1| <= |r2| && r2[..|r1|] == r1
    requires |r2| <= |r3| && r3[..|r2|] == r2
    ensures r3[|r0|..] == [req] + r2[|r1|..] + r3[|r2|..]
  {
    assert r3 == r2 + r3[|r2|..];
    assert r2 == r1 + r2[|r1|..];
  }

  lemma MidNotOwned(b1: Base, b2: Base, req: Request)
    requires req.from in b1.cards
    requires b2 == b1 || (Extends(b1.requests, b2.requests) && RequestsFrom(b1, b2, req.to) && req.to !in b1.cards)
    ensures Owned(b2.requests[|b1.requests|..], req.from) == []
  {
    var mid := b2.requests[|b1.requests|..];
    if b2 != b1 {
      assert forall k :: 0 <= k < |mid| ==> mid[k] == b2.requests[|b1.requests| + k];
    }
    OwnedNone(mid, req.from);
  }

  /** Resolving a code module whose children form a mesh replaces its seed
      by the bucketed mesh and requests exactly its import targets, then
      its export targets, in source order; otherwise the seed stays and the
      requests are those of its followed children. */
  lemma ResolveRequests(o: Oracle, b: Base, link: Path)
    requires link in b.cards && b.cards[link].ModuleSeed?
    requires Resolve(o, b, link).Ok?
    ensures var m := b.cards[link].code; var r := Resolve(o, b, link).value;
      && (o.childrenAreMesh(m.children) ==>
        && Bucket(m.children).Ok?
        && r.cards[link] == MeshSeed(MeshOf(m, Bucket(m.children).value))
        && Owned(r.requests[|b.requests|..], link)
          == Targets(o, link, OfKind(m.children, MeshImport) + OfKind(m.children, MeshExport), true))
      && (!o.childrenAreMesh(m.children) ==>
        && r.cards[link] == b.cards[link]
        && Owned(r.requests[|b.requests|..], link) == Targets(o, link, m.children, false))
  {
    var m := b.cards[link].code;
    if o.childrenAreMesh(m.children) {
      var bk := Bucket(m.children).value;
      BucketLists(m.children);
      var b1 := b.(cards := b.cards[link := MeshSeed(MeshOf(m, bk))]);
      HandleListRequests(o, b1, link, bk.importTree + bk.exportList, true);
    } else {
      HandleListRequests(o, b, link, m.children, false);
    }
  }
}
