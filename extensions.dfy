/**
 * The classification of Swift extensions by the scope of the type they
 * extend. An extension is file scoped when its own file declares a
 * non-extension type of that name; otherwise it is scoped to the project's
 * Objective-C types when one has that name, else to the project's Swift
 * types when one has that name, else it is outer scoped.
 */
module Extensions {
  import opened Common
  import opened Language
  import opened Models

  /** The extensions a file declares, each paired with that file, in declaration order. */
  function FileOccurrences(f: XcFile): (r: seq<(XcFile, SwiftType)>)
    ensures |r| == |f.SwiftExtensions()|
    ensures forall i :: 0 <= i < |r| ==> r[i] == (f, f.SwiftExtensions()[i])
  {
    var es := f.SwiftExtensions();
    seq(|es|, i requires 0 <= i < |es| => (f, es[i]))
  }

  /** The extensions of the files `fs`, file after file. */
  function Occurrences(fs: seq<XcFile>): (r: seq<(XcFile, SwiftType)>)
    ensures forall o :: o in r <==> o.0 in fs && o.1 in o.0.SwiftExtensions()
    decreases |fs|
  {
    if fs == [] then []
    else
      var n := |fs| - 1;
      var own := FileOccurrences(fs[n]);
      assert forall o :: o in own <==> o.0 == fs[n] && o.1 in fs[n].SwiftExtensions() by {
        forall o: (XcFile, SwiftType) | o.0 == fs[n] && o.1 in fs[n].SwiftExtensions() ensures o in own {
          var i :| 0 <= i < |fs[n].SwiftExtensions()| && fs[n].SwiftExtensions()[i] == o.1;
          assert own[i] == o;
        }
      }
      assert forall f :: f in fs <==> f in fs[..n] || f == fs[n] by {
        assert fs == fs[..n] + [fs[n]];
      }
      Occurrences(fs[..n]) + own
  }

  function ExtensionsOf(occ: seq<(XcFile, SwiftType)>): (r: seq<SwiftType>)
    ensures |r| == |occ|
    ensures forall i :: 0 <= i < |occ| ==> r[i] == occ[i].1
    decreases |occ|
  {
    if occ == [] then [] else ExtensionsOf(occ[..|occ| - 1]) + [occ[|occ| - 1].1]
  }

  /** Whether the file of an extension declares a non-extension type of the extended name. */
  predicate DeclaredInFile(f: XcFile, e: SwiftType) {
    e.name in SwiftNames(f.SwiftTypesFiltered({Extension}))
  }

  lemma DeclaredInFileMeans(f: XcFile, e: SwiftType)
    ensures DeclaredInFile(f, e) <==> exists t :: t in f.swiftTypes && t.typeIdentifier != Extension && t.name == e.name
  {
    var others := f.SwiftTypesFiltered({Extension});
    assert forall t :: t in others <==> t in f.swiftTypes && t.typeIdentifier != Extension;
  }

  /** The scope of an extension not declared in its own file's terms. */
  function NameScope(e: SwiftType, objcNames: set<string>, swiftNames: set<string>): SwiftExtensionScope {
    if e.name in objcNames then ProjectObjc
    else if e.name in swiftNames then ProjectSwift
    else Outer
  }

  /** The scope of the extension `e` declared in `f`: the reference classification. */
  function Scope(f: XcFile, e: SwiftType, objcNames: set<string>, swiftNames: set<string>): SwiftExtensionScope {
    if DeclaredInFile(f, e) then File else NameScope(e, objcNames, swiftNames)
  }

  /** The extensions of `occ` whose scope is `s`, in their order in `occ`. */
  function WithScope(occ: seq<(XcFile, SwiftType)>, s: SwiftExtensionScope, objcNames: set<string>, swiftNames: set<string>): (r: seq<SwiftType>)
    ensures |r| <= |occ|
    decreases |occ|
  {
    if occ == [] then []
    else
      var n := |occ| - 1;
      WithScope(occ[..n], s, objcNames, swiftNames) + (if Scope(occ[n].0, occ[n].1, objcNames, swiftNames) == s then [occ[n].1] else [])
  }

  /** Every extension in a scope's list comes from an occurrence the classification gives that scope. */
  lemma {:induction false} WithScopeSound(occ: seq<(XcFile, SwiftType)>, s: SwiftExtensionScope, objcNames: set<string>, swiftNames: set<string>)
    ensures forall e :: e in WithScope(occ, s, objcNames, swiftNames) ==>
              exists o :: o in occ && o.1 == e && Scope(o.0, e, objcNames, swiftNames) == s
    decreases |occ|
  {
    if occ != [] {
      var n := |occ| - 1;
      WithScopeSound(occ[..n], s, objcNames, swiftNames);
      forall e | e in WithScope(occ, s, objcNames, swiftNames)
        ensures exists o :: o in occ && o.1 == e && Scope(o.0, e, objcNames, swiftNames) == s
      {
        if e in WithScope(occ[..n], s, objcNames, swiftNames) {
          var o :| o in occ[..n] && o.1 == e && Scope(o.0, e, objcNames, swiftNames) == s;
          assert o in occ;
        } else {
          assert occ[n] in occ;
        }
      }
    }
  }

  // The two passes of the source: first the file-scoped extensions are set
  // apart, then the remaining ones are classified by name.

  function FileScopedOf(occ: seq<(XcFile, SwiftType)>): seq<SwiftType>
    decreases |occ|
  {
    if occ == [] then []
    else
      var n := |occ| - 1;
      FileScopedOf(occ[..n]) + (if DeclaredInFile(occ[n].0, occ[n].1) then [occ[n].1] else [])
  }

  function RemainingOf(occ: seq<(XcFile, SwiftType)>): seq<SwiftType>
    decreases |occ|
  {
    if occ == [] then []
    else
      var n := |occ| - 1;
      RemainingOf(occ[..n]) + (if DeclaredInFile(occ[n].0, occ[n].1) then [] else [occ[n].1])
  }

  function WithNameScope(es: seq<SwiftType>, s: SwiftExtensionScope, objcNames: set<string>, swiftNames: set<string>): seq<SwiftType>
    decreases |es|
  {
    if es == [] then []
    else
      var n := |es| - 1;
      WithNameScope(es[..n], s, objcNames, swiftNames) + (if NameScope(es[n], objcNames, swiftNames) == s then [es[n]] else [])
  }

  lemma OccurrencesStep(files: seq<XcFile>, i: int)
    requires 0 <= i < |files|
    ensures Occurrences(files[..i + 1]) == Occurrences(files[..i]) + FileOccurrences(files[i])
  {
    assert files[..i + 1][..i] == files[..i];
  }

  lemma FirstPassStep(occ: seq<(XcFile, SwiftType)>, o: (XcFile, SwiftType))
    ensures FileScopedOf(occ + [o]) == FileScopedOf(occ) + (if DeclaredInFile(o.0, o.1) then [o.1] else [])
    ensures RemainingOf(occ + [o]) == RemainingOf(occ) + (if DeclaredInFile(o.0, o.1) then [] else [o.1])
  {
    assert (occ + [o])[..|occ|] == occ;
  }

  /**
   * The first pass of `swift_extensions_grouped_by_scope`: file after file,
   * extension after extension, the file-scoped extensions and the others.
   */
  method FileScopePass(files: seq<XcFile>) returns (fileScoped: seq<SwiftType>, remaining: seq<SwiftType>)
    ensures fileScoped == FileScopedOf(Occurrences(files))
    ensures remaining == RemainingOf(Occurrences(files))
  {
    fileScoped := [];
    remaining := [];
    for i := 0 to |files|
      invariant fileScoped == FileScopedOf(Occurrences(files[..i]))
      invariant remaining == RemainingOf(Occurrences(files[..i]))
    {
      OccurrencesStep(files, i);
      fileScoped, remaining := FileScopeScan(files[i], fileScoped, remaining, Occurrences(files[..i]));
    }
    assert files[..|files|] == files;
  }

  /** The first pass over the extensions of one file, appending to the lists built so far. */
  method FileScopeScan(file: XcFile, fileScoped0: seq<SwiftType>, remaining0: seq<SwiftType>,
                       ghost before: seq<(XcFile, SwiftType)>)
    returns (fileScoped: seq<SwiftType>, remaining: seq<SwiftType>)
    requires fileScoped0 == FileScopedOf(before) && remaining0 == RemainingOf(before)
    ensures fileScoped == FileScopedOf(before + FileOccurrences(file))
    ensures remaining == RemainingOf(before + FileOccurrences(file))
  {
    fileScoped, remaining := fileScoped0, remaining0;
    var exts := file.SwiftExtensions();
    ghost var own := FileOccurrences(file);
    ghost var seen := before;
    assert before + own[..0] == seen;
    for j := 0 to |exts|
      invariant seen == before + own[..j]
      invariant fileScoped == FileScopedOf(seen)
      invariant remaining == RemainingOf(seen)
    {
      var ext := exts[j];
      var nonExtensionTypes := file.SwiftTypesFiltered({Extension});
      PrefixStep(before, own, j);
      FirstPassStep(seen, own[j]);
      seen := seen + [own[j]];
      if ext.name in SwiftNames(nonExtensionTypes) {
        fileScoped := fileScoped + [ext];
      } else {
        remaining := remaining + [ext];
      }
    }
    assert own[..|exts|] == own;
  }

  /**
   * The second pass: the remaining extensions, popped in their original
   * order, go to the Objective-C, Swift or outer list by name.
   */
  method NameScopePass(remaining: seq<SwiftType>, objcTypeNames: seq<string>, swiftTypeNames: seq<string>,
                       ghost objcNames: set<string>, ghost swiftNames: set<string>)
    returns (objcScoped: seq<SwiftType>, swiftScoped: seq<SwiftType>, outer: seq<SwiftType>)
    requires forall n :: n in objcTypeNames <==> n in objcNames
    requires forall n :: n in swiftTypeNames <==> n in swiftNames
    ensures objcScoped == WithNameScope(remaining, ProjectObjc, objcNames, swiftNames)
    ensures swiftScoped == WithNameScope(remaining, ProjectSwift, objcNames, swiftNames)
    ensures outer == WithNameScope(remaining, Outer, objcNames, swiftNames)
  {
    objcScoped := [];
    swiftScoped := [];
    outer := [];
    var stack := Reversed(remaining);
    ghost var k := 0;
    while stack != []
      invariant 0 <= k <= |remaining| && |stack| == |remaining| - k
      invariant forall m :: 0 <= m < |stack| ==> stack[m] == remaining[|remaining| - 1 - m]
      invariant objcScoped == WithNameScope(remaining[..k], ProjectObjc, objcNames, swiftNames)
      invariant swiftScoped == WithNameScope(remaining[..k], ProjectSwift, objcNames, swiftNames)
      invariant outer == WithNameScope(remaining[..k], Outer, objcNames, swiftNames)
      decreases |stack|
    {
      var ext := stack[|stack| - 1];
      stack := stack[..|stack| - 1];
      assert ext == remaining[k];
      assert remaining[..k + 1][..k] == remaining[..k];
      if ext.name in objcTypeNames {
        objcScoped := objcScoped + [ext];
      } else if ext.name in swiftTypeNames {
        swiftScoped := swiftScoped + [ext];
      } else {
        outer := outer + [ext];
      }
      k := k + 1;
    }
    assert remaining[..k] == remaining;
  }

  /** The two passes compute exactly the reference classification. */
  lemma TwoPassClassification(occ: seq<(XcFile, SwiftType)>, objcNames: set<string>, swiftNames: set<string>)
    ensures FileScopedOf(occ) == WithScope(occ, File, objcNames, swiftNames)
    ensures forall s :: s != File ==> WithNameScope(RemainingOf(occ), s, objcNames, swiftNames) == WithScope(occ, s, objcNames, swiftNames)
  {
    FirstPassFileScoped(occ, objcNames, swiftNames);
    forall s | s != File
      ensures WithNameScope(RemainingOf(occ), s, objcNames, swiftNames) == WithScope(occ, s, objcNames, swiftNames)
    {
      SecondPassNameScoped(occ, s, objcNames, swiftNames);
    }
  }

  /** The map of the four lists the two passes build is the reference classification. */
  lemma ScopeMap(occ: seq<(XcFile, SwiftType)>, objcNames: set<string>, swiftNames: set<string>, r: map<SwiftExtensionScope, seq<SwiftType>>)
    requires r == map[File := FileScopedOf(occ),
                      ProjectObjc := WithNameScope(RemainingOf(occ), ProjectObjc, objcNames, swiftNames),
                      ProjectSwift := WithNameScope(RemainingOf(occ), ProjectSwift, objcNames, swiftNames),
                      Outer := WithNameScope(RemainingOf(occ), Outer, objcNames, swiftNames)]
    ensures r.Keys == AllScopes
    ensures forall s :: s in r ==> r[s] == WithScope(occ, s, objcNames, swiftNames)
  {
    TwoPassClassification(occ, objcNames, swiftNames);
  }

  lemma {:induction false} FirstPassFileScoped(occ: seq<(XcFile, SwiftType)>, objcNames: set<string>, swiftNames: set<string>)
    ensures FileScopedOf(occ) == WithScope(occ, File, objcNames, swiftNames)
    decreases |occ|
  {
    if occ != [] {
      FirstPassFileScoped(occ[..|occ| - 1], objcNames, swiftNames);
    }
  }

  lemma {:induction false} SecondPassNameScoped(occ: seq<(XcFile, SwiftType)>, s: SwiftExtensionScope, objcNames: set<string>, swiftNames: set<string>)
    requires s != File
    ensures WithNameScope(RemainingOf(occ), s, objcNames, swiftNames) == WithScope(occ, s, objcNames, swiftNames)
    decreases |occ|
  {
    if occ != [] {
      var n := |occ| - 1;
      SecondPassNameScoped(occ[..n], s, objcNames, swiftNames);
      var rem := RemainingOf(occ);
      var e := occ[n].1;
      if !DeclaredInFile(occ[n].0, e) {
        assert rem == RemainingOf(occ[..n]) + [e];
        assert rem[..|rem| - 1] == RemainingOf(occ[..n]);
        assert WithNameScope(rem, s, objcNames, swiftNames)
          == WithNameScope(RemainingOf(occ[..n]), s, objcNames, swiftNames) + (if NameScope(e, objcNames, swiftNames) == s then [e] else []);
      } else {
        assert rem == RemainingOf(occ[..n]);
      }
    }
  }

  /** Every extension lands in exactly one of the four lists: their lengths and contents add up. */
  lemma ScopePartition(occ: seq<(XcFile, SwiftType)>, objcNames: set<string>, swiftNames: set<string>)
    ensures |WithScope(occ, File, objcNames, swiftNames)| + |WithScope(occ, ProjectObjc, objcNames, swiftNames)|
          + |WithScope(occ, ProjectSwift, objcNames, swiftNames)| + |WithScope(occ, Outer, objcNames, swiftNames)| == |occ|
    ensures multiset(WithScope(occ, File, objcNames, swiftNames)) + multiset(WithScope(occ, ProjectObjc, objcNames, swiftNames))
          + multiset(WithScope(occ, ProjectSwift, objcNames, swiftNames)) + multiset(WithScope(occ, Outer, objcNames, swiftNames))
          == multiset(ExtensionsOf(occ))
  {
    ScopeMultisets(occ, objcNames, swiftNames);
    assert |multiset(ExtensionsOf(occ))| == |occ|;
  }

  lemma {:induction false} ScopeMultisets(occ: seq<(XcFile, SwiftType)>, objcNames: set<string>, swiftNames: set<string>)
    ensures multiset(WithScope(occ, File, objcNames, swiftNames)) + multiset(WithScope(occ, ProjectObjc, objcNames, swiftNames))
          + multiset(WithScope(occ, ProjectSwift, objcNames, swiftNames)) + multiset(WithScope(occ, Outer, objcNames, swiftNames))
          == multiset(ExtensionsOf(occ))
    decreases |occ|
  {
    if occ != [] {
      var n := |occ| - 1;
      var e := occ[n].1;
      var here := Scope(occ[n].0, e, objcNames, swiftNames);
      ScopeMultisets(occ[..n], objcNames, swiftNames);
      assert ExtensionsOf(occ) == ExtensionsOf(occ[..n]) + [e];
      var f0, o0, s0, u0 := WithScope(occ[..n], File, objcNames, swiftNames), WithScope(occ[..n], ProjectObjc, objcNames, swiftNames),
                            WithScope(occ[..n], ProjectSwift, objcNames, swiftNames), WithScope(occ[..n], Outer, objcNames, swiftNames);
      var f1, o1, s1, u1 := WithScope(occ, File, objcNames, swiftNames), WithScope(occ, ProjectObjc, objcNames, swiftNames),
                            WithScope(occ, ProjectSwift, objcNames, swiftNames), WithScope(occ, Outer, objcNames, swiftNames);
      assert multiset(ExtensionsOf(occ)) == multiset(ExtensionsOf(occ[..n])) + multiset{e};
      match here
      case File =>
        assert f1 == f0 + [e] && o1 == o0 && s1 == s0 && u1 == u0;
        GrowOne(multiset(f0), multiset(o0), multiset(s0), multiset(u0), multiset(f1), multiset(o1), multiset(s1), multiset(u1), e, 0);
      case ProjectObjc =>
        assert f1 == f0 && o1 == o0 + [e] && s1 == s0 && u1 == u0;
        GrowOne(multiset(f0), multiset(o0), multiset(s0), multiset(u0), multiset(f1), multiset(o1), multiset(s1), multiset(u1), e, 1);
      case ProjectSwift =>
        assert f1 == f0 && o1 == o0 && s1 == s0 + [e] && u1 == u0;
        GrowOne(multiset(f0), multiset(o0), multiset(s0), multiset(u0), multiset(f1), multiset(o1), multiset(s1), multiset(u1), e, 2);
      case Outer =>
        assert f1 == f0 && o1 == o0 && s1 == s0 && u1 == u0 + [e];
        GrowOne(multiset(f0), multiset(o0), multiset(s0), multiset(u0), multiset(f1), multiset(o1), multiset(s1), multiset(u1), e, 3);
    }
  }

  /** Adding one element to one of four multisets adds it to their sum. */
  lemma GrowOne<T>(a0: multiset<T>, b0: multiset<T>, c0: multiset<T>, d0: multiset<T>,
                   a1: multiset<T>, b1: multiset<T>, c1: multiset<T>, d1: multiset<T>, e: T, k: int)
    requires 0 <= k < 4
    requires a1 == (if k == 0 then a0 + multiset{e} else a0)
    requires b1 == (if k == 1 then b0 + multiset{e} else b0)
    requires c1 == (if k == 2 then c0 + multiset{e} else c0)
    requires d1 == (if k == 3 then d0 + multiset{e} else d0)
    ensures a1 + b1 + c1 + d1 == a0 + b0 + c0 + d0 + multiset{e}
  {
  }

  /** Each extension is in the list of its own scope. */
  lemma {:induction false} ScopeMembership(occ: seq<(XcFile, SwiftType)>, objcNames: set<string>, swiftNames: set<string>, i: int)
    requires 0 <= i < |occ|
    ensures occ[i].1 in WithScope(occ, Scope(occ[i].0, occ[i].1, objcNames, swiftNames), objcNames, swiftNames)
    decreases |occ|
  {
    var n := |occ| - 1;
    if i < n {
      ScopeMembership(occ[..n], objcNames, swiftNames, i);
    }
  }

  /** Classification keeps file order: the lists of a concatenation are the concatenated lists. */
  lemma {:induction false} WithScopeAppend(a: seq<(XcFile, SwiftType)>, b: seq<(XcFile, SwiftType)>, s: SwiftExtensionScope, objcNames: set<string>, swiftNames: set<string>)
    ensures WithScope(a + b, s, objcNames, swiftNames) == WithScope(a, s, objcNames, swiftNames) + WithScope(b, s, objcNames, swiftNames)
    decreases |b|
  {
    if b == [] {
      assert a + b == a;
    } else {
      var n := |b| - 1;
      var o := b[n];
      var tail := if Scope(o.0, o.1, objcNames, swiftNames) == s then [o.1] else [];
      assert (a + b)[..|a + b| - 1] == a + b[..n] && (a + b)[|a + b| - 1] == o;
      assert WithScope(a + b, s, objcNames, swiftNames) == WithScope(a + b[..n], s, objcNames, swiftNames) + tail;
      assert WithScope(b, s, objcNames, swiftNames) == WithScope(b[..n], s, objcNames, swiftNames) + tail;
      WithScopeAppend(a, b[..n], s, objcNames, swiftNames);
      AppendAssoc(WithScope(a, s, objcNames, swiftNames), WithScope(b[..n], s, objcNames, swiftNames), tail);
    }
  }

  /** `x` is `y` with some entries left out, the others in their order. */
  predicate Subsequence<T(==)>(x: seq<T>, y: seq<T>)
    decreases |y|
  {
    x == [] ||
    (y != [] &&
     ((x[|x| - 1] == y[|y| - 1] && Subsequence(x[..|x| - 1], y[..|y| - 1])) || Subsequence(x, y[..|y| - 1])))
  }

  /** Within a scope list, extensions keep their relative order. */
  lemma {:induction false} WithScopeSubsequence(occ: seq<(XcFile, SwiftType)>, s: SwiftExtensionScope, objcNames: set<string>, swiftNames: set<string>)
    ensures Subsequence(WithScope(occ, s, objcNames, swiftNames), ExtensionsOf(occ))
    decreases |occ|
  {
    if occ != [] {
      var n := |occ| - 1;
      WithScopeSubsequence(occ[..n], s, objcNames, swiftNames);
      var w := WithScope(occ, s, objcNames, swiftNames);
      var es := ExtensionsOf(occ);
      assert es[..|es| - 1] == ExtensionsOf(occ[..n]);
      var prev := WithScope(occ[..n], s, objcNames, swiftNames);
      if Scope(occ[n].0, occ[n].1, objcNames, swiftNames) == s {
        assert w == prev + [occ[n].1];
        assert w[..|w| - 1] == prev;
        assert w[|w| - 1] == es[|es| - 1];
      } else {
        assert w == prev;
      }
    }
  }

  // Precedence of the classification.

  /** A type of the extension's own file wins over every project-wide name. */
  lemma FileScopeFirst(f: XcFile, e: SwiftType, objcNames: set<string>, swiftNames: set<string>)
    requires exists t :: t in f.swiftTypes && t.typeIdentifier != Extension && t.name == e.name
    ensures Scope(f, e, objcNames, swiftNames) == File
  {
    DeclaredInFileMeans(f, e);
  }

  /** Otherwise an Objective-C name wins over a Swift name; no match at all is outer. */
  lemma ProjectScopeOrder(f: XcFile, e: SwiftType, objcNames: set<string>, swiftNames: set<string>)
    requires forall t :: t in f.swiftTypes && t.typeIdentifier != Extension ==> t.name != e.name
    ensures e.name in objcNames ==> Scope(f, e, objcNames, swiftNames) == ProjectObjc
    ensures e.name !in objcNames && e.name in swiftNames ==> Scope(f, e, objcNames, swiftNames) == ProjectSwift
    ensures e.name !in objcNames && e.name !in swiftNames ==> Scope(f, e, objcNames, swiftNames) == Outer
  {
    DeclaredInFileMeans(f, e);
  }
}
