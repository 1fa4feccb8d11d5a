/**
 * The declaration records the source scanners attach to files: a name and
 * a kind, per language, and the four scopes an extension can be given.
 */
module Language {

  /** Kinds of Swift declarations. */
  datatype SwiftTypeType = Class | Struct | Enum | Protocol | Extension

  /** Kinds of Objective-C declarations. */
  datatype ObjcTypeType = Class | Category | Enum | Constant | Protocol

  /** Where the type an extension extends is declared. */
  datatype SwiftExtensionScope = File | ProjectSwift | ProjectObjc | Outer

  const SwiftAll: set<SwiftTypeType> :=
    {SwiftTypeType.Class, SwiftTypeType.Struct, SwiftTypeType.Enum, SwiftTypeType.Protocol, SwiftTypeType.Extension}

  const ObjcAll: set<ObjcTypeType> :=
    {ObjcTypeType.Class, ObjcTypeType.Category, ObjcTypeType.Enum, ObjcTypeType.Constant, ObjcTypeType.Protocol}

  const AllScopes: set<SwiftExtensionScope> := {File, ProjectSwift, ProjectObjc, Outer}

  lemma SwiftAllComplete()
    ensures forall k: SwiftTypeType :: k in SwiftAll
  {
    forall k: SwiftTypeType ensures k in SwiftAll {
      match k
      case Class => case Struct => case Enum => case Protocol => case Extension =>
    }
  }

  lemma ObjcAllComplete()
    ensures forall k: ObjcTypeType :: k in ObjcAll
  {
    forall k: ObjcTypeType ensures k in ObjcAll {
      match k
      case Class => case Category => case Enum => case Constant => case Protocol =>
    }
  }

  lemma AllScopesComplete()
    ensures forall s: SwiftExtensionScope :: s in AllScopes
  {
    forall s: SwiftExtensionScope ensures s in AllScopes {
      match s
      case File => case ProjectSwift => case ProjectObjc => case Outer =>
    }
  }

  datatype SwiftType = SwiftType(name: string, typeIdentifier: SwiftTypeType)

  datatype ObjcType = ObjcType(name: string, typeIdentifier: ObjcTypeType)

  /** The declarations of `ts` whose kind is in `kinds`, in their original order. */
  function SwiftOfKinds(ts: seq<SwiftType>, kinds: set<SwiftTypeType>): (r: seq<SwiftType>)
    ensures forall t :: t in r <==> t in ts && t.typeIdentifier in kinds
    ensures |r| <= |ts|
    decreases |ts|
  {
    if ts == [] then []
    else (if ts[0].typeIdentifier in kinds then [ts[0]] else []) + SwiftOfKinds(ts[1..], kinds)
  }

  function ObjcOfKinds(ts: seq<ObjcType>, kinds: set<ObjcTypeType>): (r: seq<ObjcType>)
    ensures forall t :: t in r <==> t in ts && t.typeIdentifier in kinds
    ensures |r| <= |ts|
    decreases |ts|
  {
    if ts == [] then []
    else (if ts[0].typeIdentifier in kinds then [ts[0]] else []) + ObjcOfKinds(ts[1..], kinds)
  }

  /** `[t.name for t in ts]`. */
  function SwiftNames(ts: seq<SwiftType>): (r: seq<string>)
    ensures |r| == |ts|
    ensures forall n :: n in r <==> exists t :: t in ts && t.name == n
    decreases |ts|
  {
    if ts == [] then [] else [ts[0].name] + SwiftNames(ts[1..])
  }

  function ObjcNames(ts: seq<ObjcType>): (r: seq<string>)
    ensures |r| == |ts|
    ensures forall n :: n in r <==> exists t :: t in ts && t.name == n
    decreases |ts|
  {
    if ts == [] then [] else [ts[0].name] + ObjcNames(ts[1..])
  }

  lemma {:induction false} SwiftOfKindsConcat(a: seq<SwiftType>, b: seq<SwiftType>, kinds: set<SwiftTypeType>)
    ensures SwiftOfKinds(a + b, kinds) == SwiftOfKinds(a, kinds) + SwiftOfKinds(b, kinds)
    decreases |a|
  {
    if a == [] {
      assert a + b == b;
    } else {
      assert (a + b)[1..] == a[1..] + b;
      SwiftOfKindsConcat(a[1..], b, kinds);
    }
  }

  lemma {:induction false} ObjcOfKindsConcat(a: seq<ObjcType>, b: seq<ObjcType>, kinds: set<ObjcTypeType>)
    ensures ObjcOfKinds(a + b, kinds) == ObjcOfKinds(a, kinds) + ObjcOfKinds(b, kinds)
    decreases |a|
  {
    if a == [] {
      assert a + b == b;
    } else {
      assert (a + b)[1..] == a[1..] + b;
      ObjcOfKindsConcat(a[1..], b, kinds);
    }
  }

  /** Appending one declaration to the per-kind lists of `ts[..i]` gives the lists of `ts[..i + 1]`. */
  lemma ObjcByKindStep(before: map<ObjcTypeType, seq<ObjcType>>, after: map<ObjcTypeType, seq<ObjcType>>,
                       ts: seq<ObjcType>, i: int, kinds: set<ObjcTypeType>)
    requires 0 <= i < |ts|
    requires before.Keys == kinds && forall k :: k in before ==> before[k] == ObjcOfKinds(ts[..i], {k})
    requires after == if ts[i].typeIdentifier in kinds
                      then before[ts[i].typeIdentifier := before[ts[i].typeIdentifier] + [ts[i]]]
                      else before
    ensures after.Keys == kinds && forall k :: k in after ==> after[k] == ObjcOfKinds(ts[..i + 1], {k})
  {
    var t := ts[i];
    assert ts[..i + 1] == ts[..i] + [t];
    forall k | k in kinds ensures after[k] == ObjcOfKinds(ts[..i + 1], {k}) {
      ObjcOfKindsConcat(ts[..i], [t], {k});
      assert ObjcOfKinds([t], {k}) == if t.typeIdentifier == k then [t] else [];
    }
  }

  lemma SwiftByKindStep(before: map<SwiftTypeType, seq<SwiftType>>, after: map<SwiftTypeType, seq<SwiftType>>,
                        ts: seq<SwiftType>, i: int, kinds: set<SwiftTypeType>)
    requires 0 <= i < |ts|
    requires before.Keys == kinds && forall k :: k in before ==> before[k] == SwiftOfKinds(ts[..i], {k})
    requires after == if ts[i].typeIdentifier in kinds
                      then before[ts[i].typeIdentifier := before[ts[i].typeIdentifier] + [ts[i]]]
                      else before
    ensures after.Keys == kinds && forall k :: k in after ==> after[k] == SwiftOfKinds(ts[..i + 1], {k})
  {
    var t := ts[i];
    assert ts[..i + 1] == ts[..i] + [t];
    forall k | k in kinds ensures after[k] == SwiftOfKinds(ts[..i + 1], {k}) {
      SwiftOfKindsConcat(ts[..i], [t], {k});
      assert SwiftOfKinds([t], {k}) == if t.typeIdentifier == k then [t] else [];
    }
  }

  /** Filtering by two disjoint kind sets splits the filter by their union. */
  lemma {:induction false} SwiftOfKindsSplit(ts: seq<SwiftType>, a: set<SwiftTypeType>, b: set<SwiftTypeType>)
    requires a !! b
    ensures multiset(SwiftOfKinds(ts, a + b)) == multiset(SwiftOfKinds(ts, a)) + multiset(SwiftOfKinds(ts, b))
    decreases |ts|
  {
    if ts != [] {
      SwiftOfKindsSplit(ts[1..], a, b);
    }
  }

  lemma {:induction false} SwiftOfNoKinds(ts: seq<SwiftType>)
    ensures SwiftOfKinds(ts, {}) == []
    decreases |ts|
  {
    if ts != [] { SwiftOfNoKinds(ts[1..]); }
  }

  /** The per-kind lists for `kindOrder`, one after the other. */
  function ConcatByKinds(ts: seq<SwiftType>, kindOrder: seq<SwiftTypeType>): seq<SwiftType>
    decreases |kindOrder|
  {
    if kindOrder == [] then []
    else
      var n := |kindOrder| - 1;
      ConcatByKinds(ts, kindOrder[..n]) + SwiftOfKinds(ts, {kindOrder[n]})
  }

  /**
   * Concatenating the per-kind lists over an enumeration of `kinds` loses and
   * duplicates nothing: it is a permutation of the declarations of those kinds.
   */
  lemma {:induction false} ConcatByKindsPermutation(ts: seq<SwiftType>, kindOrder: seq<SwiftTypeType>, kinds: set<SwiftTypeType>)
    requires multiset(kindOrder) == multiset(kinds)
    ensures multiset(ConcatByKinds(ts, kindOrder)) == multiset(SwiftOfKinds(ts, kinds))
    decreases |kindOrder|
  {
    if kindOrder == [] {
      assert |multiset(kinds)| == |kinds| == 0;
      assert kinds == {};
      SwiftOfNoKinds(ts);
    } else {
      var n := |kindOrder| - 1;
      var k := kindOrder[n];
      assert kindOrder == kindOrder[..n] + [k];
      var rest := kinds - {k};
      assert k in multiset(kindOrder);
      assert k in kinds;
      assert multiset(rest) == multiset(kinds) - multiset{k};
      assert multiset(kindOrder) == multiset(kindOrder[..n]) + multiset{k};
      assert multiset(kindOrder[..n]) == multiset(kindOrder) - multiset{k};
      ConcatByKindsPermutation(ts, kindOrder[..n], rest);
      SwiftOfKindsSplit(ts, rest, {k});
      assert rest + {k} == kinds;
    }
  }
}
