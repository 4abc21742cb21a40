/** The leaf shape validators: each walks the child nests of one construct
    in order and accepts exactly one nest type, failing with 0002
    (`generateUnhandledTermCaseError`) at the first child of another type.
    None of them changes any state. `determineNestType` is a parameter. */
module Leaves {
  import opened Results
  import opened Trees
  import opened Terms

  /** Every child has the accepted type. */
  predicate AllOfType(nestType: Nest -> NestType, children: seq<Nest>, accept: NestType) {
    forall i :: 0 <= i < |children| ==> nestType(children[i]) == accept
  }

  /** The index of the first child of another type, if any: the reference
      for where a validator stops. */
  function FirstOffender(nestType: Nest -> NestType, children: seq<Nest>, accept: NestType): (r: Option<nat>)
    ensures r.None? <==> AllOfType(nestType, children, accept)
    ensures r.Some? ==>
      && r.value < |children|
      && nestType(children[r.value]) != accept
      && AllOfType(nestType, children[..r.value], accept)
    decreases |children|
  {
    if |children| == 0 then None
    else
      var n := |children| - 1;
      match FirstOffender(nestType, children[..n], accept)
      case Some(i) => assert children[..n][..i] == children[..i]; Some(i)
      case None =>
        assert forall i :: 0 <= i < n ==> children[..n][i] == children[i];
        if nestType(children[n]) != accept then Some(n) else None
  }

  /** A child of another type with only accepted children before it is the
      first offender. */
  lemma OffenderIsFirst(nestType: Nest -> NestType, children: seq<Nest>, accept: NestType, j: nat)
    requires j < |children| && nestType(children[j]) != accept
    requires AllOfType(nestType, children[..j], accept)
    ensures FirstOffender(nestType, children, accept) == Some(j)
  {
  }

  /** The shared `forEach` with its `switch`: passes exactly when every child
      has the accepted type, and otherwise fails at the first child that
      does not. */
  method Validate(nestType: Nest -> NestType, children: seq<Nest>, accept: NestType) returns (r: Outcome<Raise>)
    ensures r.Pass? <==> AllOfType(nestType, children, accept)
    ensures r.Fail? ==>
      && r.error.kind == UnhandledTermCase
      && r.error.at < |children|
      && nestType(children[r.error.at]) != accept
      && AllOfType(nestType, children[..r.error.at], accept)
    ensures r.Fail? ==> FirstOffender(nestType, children, accept) == Some(r.error.at)
  {
    var i := 0;
    while i < |children|
      invariant 0 <= i <= |children|
      invariant AllOfType(nestType, children[..i], accept)
    {
      if nestType(children[i]) != accept {
        OffenderIsFirst(nestType, children, accept, i);
        return Fail(Raise(UnhandledTermCase, i));
      }
      assert children[..i + 1] == children[..i] + [children[i]];
      i := i + 1;
    }
    assert children[..i] == children;
    return Pass;
  }

  /** `process_codeCard_risk`: every child of the Tree link is static text. */
  method RiskChildren(nestType: Nest -> NestType, children: seq<Nest>) returns (r: Outcome<Raise>)
    ensures r.Pass? <==> AllOfType(nestType, children, StaticText)
    ensures r.Fail? ==>
      r.error.kind == UnhandledTermCase && r.error.at < |children| && nestType(children[r.error.at]) != StaticText
      && AllOfType(nestType, children[..r.error.at], StaticText)
  {
    r := Validate(nestType, children, StaticText);
  }

  /** `process_codeCard_note`: every child is static text. */
  method NoteChildren(nestType: Nest -> NestType, children: seq<Nest>) returns (r: Outcome<Raise>)
    ensures r.Pass? <==> AllOfType(nestType, children, StaticText)
    ensures r.Fail? ==>
      r.error.kind == UnhandledTermCase && r.error.at < |children| && nestType(children[r.error.at]) != StaticText
      && AllOfType(nestType, children[..r.error.at], StaticText)
    ensures r.Fail? ==> FirstOffender(nestType, children, StaticText) == Some(r.error.at)
  {
    r := Validate(nestType, children, StaticText);
  }

  /** `process_codeCard_walk`: every child is a static term. */
  method WalkChildren(nestType: Nest -> NestType, children: seq<Nest>) returns (r: Outcome<Raise>)
    ensures r.Pass? <==> AllOfType(nestType, children, StaticTerm)
    ensures r.Fail? ==>
      r.error.kind == UnhandledTermCase && r.error.at < |children| && nestType(children[r.error.at]) != StaticTerm
      && AllOfType(nestType, children[..r.error.at], StaticTerm)
  {
    r := Validate(nestType, children, StaticTerm);
  }

  /** `process_codeCard_load_bear`: every child is static text. */
  method LoadBearChildren(nestType: Nest -> NestType, children: seq<Nest>) returns (r: Outcome<Raise>)
    ensures r.Pass? <==> AllOfType(nestType, children, StaticText)
    ensures r.Fail? ==>
      r.error.kind == UnhandledTermCase && r.error.at < |children| && nestType(children[r.error.at]) != StaticText
      && AllOfType(nestType, children[..r.error.at], StaticText)
  {
    r := Validate(nestType, children, StaticText);
  }

  /** `process_codeCard_save`: every child is static text. */
  method SaveChildren(nestType: Nest -> NestType, children: seq<Nest>) returns (r: Outcome<Raise>)
    ensures r.Pass? <==> AllOfType(nestType, children, StaticText)
    ensures r.Fail? ==>
      r.error.kind == UnhandledTermCase && r.error.at < |children| && nestType(children[r.error.at]) != StaticText
      && AllOfType(nestType, children[..r.error.at], StaticText)
  {
    r := Validate(nestType, children, StaticText);
  }

  /** `process_codeCard_load_find_save`: every child is a static term. */
  method LoadFindSaveChildren(nestType: Nest -> NestType, children: seq<Nest>) returns (r: Outcome<Raise>)
    ensures r.Pass? <==> AllOfType(nestType, children, StaticTerm)
    ensures r.Fail? ==>
      r.error.kind == UnhandledTermCase && r.error.at < |children| && nestType(children[r.error.at]) != StaticTerm
      && AllOfType(nestType, children[..r.error.at], StaticTerm)
  {
    r := Validate(nestType, children, StaticTerm);
  }
}
