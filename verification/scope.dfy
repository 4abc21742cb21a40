/** The lexical scope chain of the builder (make/server/builder/scope.ts):
    each scope has a kind, a table of bindings and an optional parent.
    Lookup walks from a scope toward the root; assignment overwrites the
    binding in the nearest scope that owns the key. Scopes are values here,
    so an assignment returns the chain rebuilt up to the owning scope. */
module Scopes {
  import opened Results

  datatype Scope<V> = Scope(like: string, data: map<string, V>, parent: Option<Scope<V>>)

  /** The error thrown when no scope on the chain owns the key. */
  datatype ScopeFault = PropertyNotDefined

  /** `extendScope` (make/server/builder/scope.ts:11-22). */
  function Extend<V>(like: string, data: map<string, V>, parent: Option<Scope<V>>): (s: Scope<V>)
    ensures s.like == like && s.data == data && s.parent == parent
  {
    Scope(like, data, parent)
  }

  /** The scopes from `s` to the root, nearest first. */
  function Chain<V>(s: Scope<V>): (c: seq<Scope<V>>)
    ensures |c| >= 1 && c[0] == s
    decreases s
  {
    match s.parent
    case None => [s]
    case Some(p) => [s] + Chain(p)
  }

  /** Index of the first scope in `c` that owns `k`, if any: the reference
      definition of "nearest owner". */
  function FirstOwner<V>(c: seq<Scope<V>>, k: string): (r: Option<nat>)
    ensures r.Some? ==> r.value < |c| && k in c[r.value].data
    ensures r.Some? ==> forall j :: 0 <= j < r.value ==> k !in c[j].data
    ensures r.None? ==> forall j :: 0 <= j < |c| ==> k !in c[j].data
  {
    if |c| == 0 then None
    else if k in c[0].data then Some(0)
    else match FirstOwner(c[1..], k)
      case None => None
      case Some(i) => Some(i + 1)
  }

  /** `getPropertyValueFromScope` (make/server/builder/scope.ts:24-44): the
      value bound in the nearest scope owning the key, absent when none does. */
  function Get<V>(s: Scope<V>, k: string): Option<V>
    decreases s
  {
    if k in s.data then Some(s.data[k])
    else match s.parent
      case None => None
      case Some(p) => Get(p, k)
  }

  /** `setPropertyValueOnScope` (make/server/builder/scope.ts:46-58): the
      nearest owning scope gets the new value; with no owner it fails. */
  function Set<V>(s: Scope<V>, k: string, v: V): Result<Scope<V>, ScopeFault>
    decreases s
  {
    if k in s.data then Ok(s.(data := s.data[k := v]))
    else match s.parent
      case None => Err(PropertyNotDefined)
      case Some(p) =>
        match Set(p, k, v)
        case Err(e) => Err(e)
        case Ok(p') => Ok(s.(parent := Some(p')))
  }

  /** Lookup checks the scope itself first, then its parent's chain. */
  lemma GetExtended<V>(like: string, data: map<string, V>, p: Scope<V>, k: string)
    ensures Get(Extend(like, data, Some(p)), k) == if k in data then Some(data[k]) else Get(p, k)
  {
  }

  /** Lookup returns the binding of the first owner on the chain. */
  lemma {:induction false} GetIsNearest<V>(s: Scope<V>, k: string)
    ensures var c := Chain(s);
      Get(s, k) == match FirstOwner(c, k) case None => None case Some(i) => Some(c[i].data[k])
    decreases s
  {
    var c := Chain(s);
    if k !in s.data {
      match s.parent
      case None =>
      case Some(p) =>
        GetIsNearest(p, k);
        assert c[1..] == Chain(p);
    }
  }

  /** Assignment succeeds exactly when some scope on the chain owns the key. */
  lemma {:induction false} SetOkIffOwned<V>(s: Scope<V>, k: string, v: V)
    ensures Set(s, k, v).Ok? <==> Get(s, k).Some?
    decreases s
  {
    if k !in s.data && s.parent.Some? {
      SetOkIffOwned(s.parent.value, k, v);
    }
  }

  /** Assignment changes only the nearest owner's binding of the key: the
      chain keeps its length, every scope keeps its kind, the owner's table
      has the key rebound, and every other table (a shadowed binding further
      up included) is unchanged. No key is added anywhere. */
  lemma {:induction false} SetFrame<V>(s: Scope<V>, k: string, v: V)
    requires Set(s, k, v).Ok?
    ensures var c := Chain(s);
      var c' := Chain(Set(s, k, v).value);
      var i := FirstOwner(c, k);
      && i.Some?
      && |c'| == |c|
      && forall j :: 0 <= j < |c| ==>
           c'[j].like == c[j].like && c'[j].data == if j == i.value then c[j].data[k := v] else c[j].data
    decreases s
  {
    var c := Chain(s);
    var s' := Set(s, k, v).value;
    var c' := Chain(s');
    if k in s.data {
      assert FirstOwner(c, k) == Some(0);
      assert s'.parent == s.parent;
      assert c'[1..] == c[1..];
    } else {
      var p := s.parent.value;
      var p' := Set(p, k, v).value;
      SetFrame(p, k, v);
      assert c[1..] == Chain(p);
      assert c'[1..] == Chain(p');
      var i := FirstOwner(Chain(p), k).value;
      assert FirstOwner(c, k) == Some(i + 1);
      forall j | 0 <= j < |c|
        ensures c'[j].like == c[j].like
        ensures c'[j].data == if j == i + 1 then c[j].data[k := v] else c[j].data
      {
        if j > 0 {
          assert c'[j] == Chain(p')[j - 1] && c[j] == Chain(p)[j - 1];
        }
      }
    }
  }

  /** After an assignment the key reads back as the new value. */
  lemma {:induction false} SetThenGet<V>(s: Scope<V>, k: string, v: V)
    requires Set(s, k, v).Ok?
    ensures Get(Set(s, k, v).value, k) == Some(v)
    decreases s
  {
    if k !in s.data {
      SetThenGet(s.parent.value, k, v);
    }
  }

  /** An assignment leaves the lookup of every other key unchanged. */
  lemma {:induction false} SetKeepsOtherKeys<V>(s: Scope<V>, k: string, v: V, other: string)
    requires Set(s, k, v).Ok?
    requires other != k
    ensures Get(Set(s, k, v).value, other) == Get(s, other)
    decreases s
  {
    if k !in s.data && other !in s.data {
      SetKeepsOtherKeys(s.parent.value, k, v, other);
    }
  }
}
