/**
 * The project: its targets, its group tree and the files at its root, with
 * the queries the reports are built from.
 */
module Project {
  import opened Common
  import opened Strings
  import opened Sorting
  import opened Language
  import opened Models
  import opened GroupTree
  import opened Extensions

  /** The files of the targets `ts`. */
  function FilesOfTargets(ts: seq<XcTarget>): (r: set<XcFile>)
    ensures forall f :: f in r <==> exists t :: t in ts && f in t.Files()
    decreases |ts|
  {
    if ts == [] then {}
    else
      var n := |ts| - 1;
      assert forall t :: t in ts <==> t in ts[..n] || t == ts[n] by {
        assert ts == ts[..n] + [ts[n]];
      }
      FilesOfTargets(ts[..n]) + ts[n].Files()
  }

  /** The Objective-C files of the targets `ts`. */
  function ObjcFilesOfTargets(ts: seq<XcTarget>): (r: set<XcFile>)
    ensures forall f :: f in r <==> exists t :: t in ts && f in t.ObjcFiles()
    decreases |ts|
  {
    if ts == [] then {}
    else
      var n := |ts| - 1;
      assert forall t :: t in ts <==> t in ts[..n] || t == ts[n] by {
        assert ts == ts[..n] + [ts[n]];
      }
      ObjcFilesOfTargets(ts[..n]) + ts[n].ObjcFiles()
  }

  /** The Swift files of the targets `ts`. */
  function SwiftFilesOfTargets(ts: seq<XcTarget>): (r: set<XcFile>)
    ensures forall f :: f in r <==> exists t :: t in ts && f in t.SwiftFiles()
    decreases |ts|
  {
    if ts == [] then {}
    else
      var n := |ts| - 1;
      assert forall t :: t in ts <==> t in ts[..n] || t == ts[n] by {
        assert ts == ts[..n] + [ts[n]];
      }
      SwiftFilesOfTargets(ts[..n]) + ts[n].SwiftFiles()
  }

  /** The loop of `objc_files` over the targets: their Objective-C files, target by target. */
  method UnionObjcFiles(ts: seq<XcTarget>) returns (r: set<XcFile>)
    ensures r == ObjcFilesOfTargets(ts)
  {
    r := {};
    for i := 0 to |ts|
      invariant r == ObjcFilesOfTargets(ts[..i])
    {
      assert ts[..i + 1][..i] == ts[..i];
      r := r + ts[i].ObjcFiles();
    }
    assert ts[..|ts|] == ts;
  }

  /** The loop of `swift_files` over the targets: their Swift files, target by target. */
  method UnionSwiftFiles(ts: seq<XcTarget>) returns (r: set<XcFile>)
    ensures r == SwiftFilesOfTargets(ts)
  {
    r := {};
    for i := 0 to |ts|
      invariant r == SwiftFilesOfTargets(ts[..i])
    {
      assert ts[..i + 1][..i] == ts[..i];
      r := r + ts[i].SwiftFiles();
    }
    assert ts[..|ts|] == ts;
  }

  /** The Objective-C files of the targets depend only on which targets there are, not on their order. */
  lemma ObjcFilesOfSameTargets(a: seq<XcTarget>, b: seq<XcTarget>)
    requires multiset(a) == multiset(b)
    ensures ObjcFilesOfTargets(a) == ObjcFilesOfTargets(b)
  {
    SameElements(a, b);
  }

  /** The Swift files of the targets depend only on which targets there are, not on their order. */
  lemma SwiftFilesOfSameTargets(a: seq<XcTarget>, b: seq<XcTarget>)
    requires multiset(a) == multiset(b)
    ensures SwiftFilesOfTargets(a) == SwiftFilesOfTargets(b)
  {
    SameElements(a, b);
  }

  /** The Objective-C declarations of the files `fs`, file after file. */
  function ObjcTypesOf(fs: seq<XcFile>): (r: seq<ObjcType>)
    ensures forall t :: t in r <==> exists f :: f in fs && t in f.objcTypes
    decreases |fs|
  {
    if fs == [] then []
    else
      var n := |fs| - 1;
      assert forall f :: f in fs <==> f in fs[..n] || f == fs[n] by {
        assert fs == fs[..n] + [fs[n]];
      }
      ObjcTypesOf(fs[..n]) + fs[n].objcTypes
  }

  /** The Swift declarations of the files `fs`, file after file. */
  function SwiftTypesOf(fs: seq<XcFile>): (r: seq<SwiftType>)
    ensures forall t :: t in r <==> exists f :: f in fs && t in f.swiftTypes
    decreases |fs|
  {
    if fs == [] then []
    else
      var n := |fs| - 1;
      assert forall f :: f in fs <==> f in fs[..n] || f == fs[n] by {
        assert fs == fs[..n] + [fs[n]];
      }
      SwiftTypesOf(fs[..n]) + fs[n].swiftTypes
  }

  function TargetsWithType(ts: seq<XcTarget>, tt: TargetType): (r: seq<XcTarget>)
    ensures forall t :: t in r <==> t in ts && t.targetType == tt
    ensures |r| <= |ts|
    decreases |ts|
  {
    if ts == [] then []
    else (if ts[0].targetType == tt then [ts[0]] else []) + TargetsWithType(ts[1..], tt)
  }

  /** The first of `ts` named `name`, if any. */
  function FirstWithName(ts: seq<XcTarget>, name: string): (r: Option<XcTarget>)
    ensures r.None? <==> forall t :: t in ts ==> t.name != name
    ensures r.Some? ==>
      exists i :: 0 <= i < |ts| && ts[i] == r.value && r.value.name == name &&
        forall j :: 0 <= j < i ==> ts[j].name != name
    decreases |ts|
  {
    if ts == [] then None
    else if ts[0].name == name then Some(ts[0])
    else
      var r := FirstWithName(ts[1..], name);
      assert forall t :: t in ts <==> t == ts[0] || t in ts[1..] by {
        assert ts == [ts[0]] + ts[1..];
      }
      if r.Some? then
        var i :| 0 <= i < |ts[1..]| && ts[1..][i] == r.value && r.value.name == name &&
          forall j :: 0 <= j < i ==> ts[1..][j].name != name;
        assert ts[i + 1] == r.value;
        assert forall j :: 1 <= j < i + 1 ==> ts[j].name != name by {
          forall j | 1 <= j < i + 1 ensures ts[j].name != name {
            assert ts[j] == ts[1..][j - 1];
          }
        }
        r
      else r
  }

  /** The names of the Objective-C declarations of `files`. */
  function ObjcDeclNames(files: set<XcFile>): set<string> {
    set f, t | f in files && t in f.objcTypes :: t.name
  }

  /** The names of the non-extension Swift declarations of `files`. */
  function SwiftDeclNames(files: set<XcFile>): set<string> {
    set f, t | f in files && t in f.swiftTypes && t.typeIdentifier != Extension :: t.name
  }

  /** Which kinds `swift_types_filtered` groups by: a non-empty exclusion set takes priority. */
  function SelectedKinds(typeIn: set<SwiftTypeType>, typeNotIn: set<SwiftTypeType>): (r: set<SwiftTypeType>)
    ensures typeNotIn != {} ==> forall k :: k in r <==> k !in typeNotIn
    ensures typeNotIn == {} ==> r == typeIn
  {
    SwiftAllComplete();
    if typeNotIn != {} then SwiftAll - typeNotIn else typeIn
  }

  /** What `swift_types_filtered` returns: lists per kind, or one flat list. */
  datatype SwiftTypesGrouping =
    | ByKind(byKind: map<SwiftTypeType, seq<SwiftType>>)
    | Flat(flat: seq<SwiftType>)

  /** The pairs of `g`'s files, taken in `order`, whose path does not start with the group path. */
  function OffPathPairs(g: XcGroup, order: seq<XcFile>): seq<(XcFile, XcGroup)>
    decreases |order|
  {
    if order == [] then []
    else
      var n := |order| - 1;
      OffPathPairs(g, order[..n]) + (if StartsWith(order[n].filepath, g.groupPath) then [] else [(order[n], g)])
  }

  /** One enumeration of the files of each group of `vs`. */
  ghost predicate FileOrders(vs: seq<XcGroup>, orders: seq<seq<XcFile>>) {
    |orders| == |vs| && forall i :: 0 <= i < |vs| ==> IsEnumeration(orders[i], vs[i].files)
  }

  /** The off-path pairs of the groups `vs`, group after group, each group's files in its order. */
  function PairsAlong(vs: seq<XcGroup>, orders: seq<seq<XcFile>>): seq<(XcFile, XcGroup)>
    requires |orders| == |vs|
    decreases |vs|
  {
    if vs == [] then []
    else
      var n := |vs| - 1;
      PairsAlong(vs[..n], orders[..n]) + OffPathPairs(vs[n], orders[n])
  }

  lemma PairsAlongSnoc(vs: seq<XcGroup>, orders: seq<seq<XcFile>>, g: XcGroup, order: seq<XcFile>)
    requires FileOrders(vs, orders) && IsEnumeration(order, g.files)
    ensures FileOrders(vs + [g], orders + [order])
    ensures PairsAlong(vs + [g], orders + [order]) == PairsAlong(vs, orders) + OffPathPairs(g, order)
  {
    assert (vs + [g])[..|vs|] == vs;
    assert (orders + [order])[..|vs|] == orders;
  }

  /**
   * The off-path pairs of one group, listed in the order of its files, are
   * exactly its nonregular pairs, each once.
   */
  lemma {:induction false} OffPathPairsMeans(g: XcGroup, order: seq<XcFile>)
    ensures forall x :: x in OffPathPairs(g, order) <==>
              x.1 == g && x.0 in order && !StartsWith(x.0.filepath, g.groupPath)
    ensures forall f :: f in order && !StartsWith(f.filepath, g.groupPath) ==>
              multiset(OffPathPairs(g, order))[(f, g)] == multiset(order)[f]
    decreases |order|
  {
    if order != [] {
      var n := |order| - 1;
      OffPathPairsMeans(g, order[..n]);
      assert order == order[..n] + [order[n]];
      forall f | f in order && !StartsWith(f.filepath, g.groupPath)
        ensures multiset(OffPathPairs(g, order))[(f, g)] == multiset(order)[f]
      {
        if f !in order[..n] {
          assert multiset(order[..n])[f] == 0;
        }
      }
    }
  }

  /**
   * The loop of `nonregular_files`: pop the last group, skip it if it is a
   * variant group, otherwise list its off-path files and push its children.
   */
  method NonregularWalk(groups: seq<XcGroup>) returns (r: seq<(XcFile, XcGroup)>, ghost orders: seq<seq<XcFile>>)
    ensures FileOrders(Traversal(groups, true), orders) && r == PairsAlong(Traversal(groups, true), orders)
  {
    r := [];
    ghost var visited: seq<XcGroup> := [];
    orders := [];
    var worklist := groups;
    while worklist != []
      invariant visited + Traversal(worklist, true) == Traversal(groups, true)
      invariant FileOrders(visited, orders) && r == PairsAlong(visited, orders)
      decreases |AllGroups(worklist)|
    {
      var n := |worklist| - 1;
      var group := worklist[n];
      ghost var rest := worklist[..n];
      WalkStep(worklist);
      worklist := worklist[..n];
      if group.isVariant {
        continue;
      }
      var pairs, order := NonregularFilesOfGroup(group);
      PairsAlongSnoc(visited, orders, group, order);
      r := r + pairs;
      AppendAssoc(visited, [group], Traversal(rest + group.groups, true));
      visited := visited + [group];
      orders := orders + [order];
      worklist := PushAll(worklist, group.groups);
    }
    assert visited + [] == visited;
  }

  /** One pop of the variant-skipping walk: what is left to visit, and a smaller worklist. */
  lemma WalkStep(w: seq<XcGroup>)
    requires w != []
    ensures var n := |w| - 1;
      && |AllGroups(w[..n])| < |AllGroups(w)|
      && |AllGroups(w[..n] + w[n].groups)| < |AllGroups(w)|
      && (w[n].isVariant ==> Traversal(w, true) == Traversal(w[..n], true))
      && (!w[n].isVariant ==> Traversal(w, true) == [w[n]] + Traversal(w[..n] + w[n].groups, true))
  {
    NonregularPopStep(w);
    PopStep(w, true);
  }

  /** The listed pairs are exactly the off-path (file, group) pairs of the listed groups. */
  lemma {:induction false} PairsAlongMeans(vs: seq<XcGroup>, orders: seq<seq<XcFile>>)
    requires FileOrders(vs, orders)
    ensures forall x :: x in PairsAlong(vs, orders) <==>
              x.1 in vs && x.0 in x.1.files && !StartsWith(x.0.filepath, x.1.groupPath)
    decreases |vs|
  {
    if vs != [] {
      var n := |vs| - 1;
      assert FileOrders(vs[..n], orders[..n]);
      PairsAlongMeans(vs[..n], orders[..n]);
      OffPathPairsMeans(vs[n], orders[n]);
      assert forall f :: f in orders[n] <==> f in vs[n].files by {
        assert forall f :: f in orders[n] <==> f in multiset(orders[n]);
      }
      assert forall g :: g in vs <==> g in vs[..n] || g == vs[n] by {
        assert vs == vs[..n] + [vs[n]];
      }
    }
  }

  /** The inner loop of `nonregular_files`: the files of one group off its group path. */
  method NonregularFilesOfGroup(group: XcGroup) returns (r: seq<(XcFile, XcGroup)>, ghost order: seq<XcFile>)
    ensures IsEnumeration(order, group.files) && r == OffPathPairs(group, order)
    ensures forall x :: x in r <==> x in NonregularPairsOfGroup(group)
  {
    r := [];
    var files := Enumerate(group.files);
    order := files;
    for j := 0 to |files|
      invariant r == OffPathPairs(group, files[..j])
      invariant forall x :: x in r <==>
        (x.1 == group && !StartsWith(x.0.filepath, group.groupPath) && exists k :: 0 <= k < j && files[k] == x.0)
    {
      assert files[..j + 1][..j] == files[..j];
      if !StartsWith(files[j].filepath, group.groupPath) {
        r := r + [(files[j], group)];
      }
    }
    assert files[..|files|] == files;
    assert forall f :: f in files <==> f in group.files by {
      assert forall f :: f in files <==> f in multiset(files);
    }
  }

  /**
   * The loop of `objc_types_filtered`: one empty list per requested kind,
   * then each declaration appended to the list of its kind, if requested.
   */
  method GroupObjcByKind(all: seq<ObjcType>, kinds: set<ObjcTypeType>) returns (r: map<ObjcTypeType, seq<ObjcType>>)
    ensures r.Keys == kinds
    ensures forall k :: k in r ==> r[k] == ObjcOfKinds(all, {k})
  {
    r := map k | k in kinds :: [];
    for i := 0 to |all|
      invariant r.Keys == kinds
      invariant forall k :: k in r ==> r[k] == ObjcOfKinds(all[..i], {k})
    {
      var t := all[i];
      ghost var before := r;
      if t.typeIdentifier !in kinds {
        ObjcByKindStep(before, r, all, i, kinds);
        continue;
      }
      r := r[t.typeIdentifier := r[t.typeIdentifier] + [t]];
      ObjcByKindStep(before, r, all, i, kinds);
    }
    assert all[..|all|] == all;
  }

  /** The same loop in `swift_types_filtered`. */
  method GroupSwiftByKind(all: seq<SwiftType>, kinds: set<SwiftTypeType>) returns (r: map<SwiftTypeType, seq<SwiftType>>)
    ensures r.Keys == kinds
    ensures forall k :: k in r ==> r[k] == SwiftOfKinds(all, {k})
  {
    r := map k | k in kinds :: [];
    for i := 0 to |all|
      invariant r.Keys == kinds
      invariant forall k :: k in r ==> r[k] == SwiftOfKinds(all[..i], {k})
    {
      var t := all[i];
      ghost var before := r;
      if t.typeIdentifier !in kinds {
        SwiftByKindStep(before, r, all, i, kinds);
        continue;
      }
      r := r[t.typeIdentifier := r[t.typeIdentifier] + [t]];
      SwiftByKindStep(before, r, all, i, kinds);
    }
    assert all[..|all|] == all;
  }

  datatype XcProject = XcProject(
    dirpath: string,
    name: string,
    targets: seq<XcTarget>,
    groups: seq<XcGroup>,
    rootFiles: set<XcFile>)
  {
    /**
     * A well-formed project: targets are distinct by type and name, every
     * group of the tree occurs once and is identified by its group path, and
     * one file value stands for each file path.
     */
    ghost predicate Valid() {
      && (forall i, j :: 0 <= i < j < |targets| ==> targets[i].Key() != targets[j].Key())
      && UniqueGroupPaths(groups)
      && (forall f, g :: f in Files() + OwnedFiles() && g in Files() + OwnedFiles() && f.filepath == g.filepath ==> f == g)
    }

    /** The files of some target (`target_files`). */
    function OwnedFiles(): (r: set<XcFile>)
      ensures forall f :: f in r <==> exists t :: t in targets && f in t.Files()
    {
      FilesOfTargets(targets)
    }

    /** The files at the root and in the group tree (`files`). */
    function Files(): (r: set<XcFile>)
      ensures rootFiles <= r
      ensures forall f :: f in r <==> f in rootFiles || exists g :: g in AllGroups(groups) && f in g.files
    {
      rootFiles + FilesOf(groups)
    }

    /** The project's files that belong to no target. */
    function TargetLessFiles(): (r: set<XcFile>)
      ensures r <= Files()
      ensures forall t :: t in targets ==> r !! t.Files()
      ensures forall f :: f in r <==> f in Files() && forall t :: t in targets ==> f !in t.Files()
    {
      Files() - OwnedFiles()
    }

    function TargetLessHFiles(): (r: set<XcFile>)
      ensures r <= TargetLessFiles()
      ensures forall f :: f in TargetLessFiles() ==> (f in r <==> EndsWith(f.filepath, ".h"))
    {
      set f | f in TargetLessFiles() && EndsWith(f.filepath, ".h")
    }

    /** The targets' Objective-C files and the target-less headers. */
    function ObjcFileSet(): (r: set<XcFile>)
      ensures forall f :: f in r <==> (exists t :: t in targets && f in t.ObjcFiles()) || f in TargetLessHFiles()
    {
      ObjcFilesOfTargets(targets) + TargetLessHFiles()
    }

    /** The targets' Swift files. */
    function SwiftFileSet(): (r: set<XcFile>)
      ensures forall f :: f in r <==> exists t :: t in targets && f in t.SwiftFiles()
    {
      SwiftFilesOfTargets(targets)
    }

    /** The names of the Objective-C declarations of the project. */
    function ObjcTypeNames(): set<string> {
      ObjcDeclNames(ObjcFileSet())
    }

    /** The names of the project's Swift declarations that are not extensions. */
    function SwiftTypeNames(): set<string> {
      SwiftDeclNames(SwiftFileSet())
    }

    /** The targets of type `tt`, in ascending name order. */
    function TargetsOfType(tt: TargetType): (r: seq<XcTarget>)
      ensures SortedBy(r, TargetName)
      ensures forall t :: t in r <==> t in targets && t.targetType == tt
      ensures multiset(r) == multiset(TargetsWithType(targets, tt))
    {
      var matching := TargetsWithType(targets, tt);
      var r := SortBy(matching, TargetName);
      assert forall t :: t in r <==> t in matching by {
        forall t ensures t in r <==> t in matching {
          assert t in r <==> t in multiset(r);
          assert t in matching <==> t in multiset(matching);
        }
      }
      r
    }

    /** The first target named `name`; none when no target has that name. */
    function TargetWithName(name: string): (r: Option<XcTarget>)
      ensures r.None? <==> forall t :: t in targets ==> t.name != name
      ensures r.Some? ==>
        exists i :: 0 <= i < |targets| && targets[i] == r.value && r.value.name == name &&
          forall j :: 0 <= j < i ==> targets[j].name != name
    {
      FirstWithName(targets, name)
    }

    function TargetsSortedByName(): (r: seq<XcTarget>)
      ensures multiset(r) == multiset(targets)
      ensures SortedBy(r, TargetName)
    {
      SortBy(targets, TargetName)
    }

    /** `target_files`: the union of the targets' files, target by target. */
    method TargetFiles() returns (r: set<XcFile>)
      ensures forall f :: f in r <==> exists t :: t in targets && f in t.Files()
      ensures r == OwnedFiles()
    {
      r := {};
      for i := 0 to |targets|
        invariant r == FilesOfTargets(targets[..i])
      {
        assert targets[..i + 1][..i] == targets[..i];
        r := r + targets[i].Files();
      }
      assert targets[..|targets|] == targets;
    }

    /** `group_files`: a worklist walk over the group tree collecting files. */
    method GroupFiles() returns (r: set<XcFile>)
      ensures r == FilesOf(groups)
      ensures forall f :: f in r <==> exists g :: g in AllGroups(groups) && f in g.files
    {
      r := {};
      var worklist := groups;
      while worklist != []
        invariant r + FilesOf(worklist) == FilesOf(groups)
        decreases |AllGroups(worklist)|
      {
        var n := |worklist| - 1;
        var group := worklist[n];
        FilesOfLast(worklist);
        FilesOfAppend(worklist[..n], group.groups);
        AllGroupsAppend(worklist[..n], group.groups);
        worklist := worklist[..n];
        r := r + group.files;
        worklist := worklist + group.groups;
      }
    }

    /**
     * `nonregular_files`: the (file, group) pairs of groups reached without
     * entering a variant group, whose file path does not start with the
     * group path.
     */
    method NonregularFiles() returns (r: seq<(XcFile, XcGroup)>, ghost orders: seq<seq<XcFile>>)
      ensures FileOrders(Traversal(groups, true), orders) && r == PairsAlong(Traversal(groups, true), orders)
      ensures forall x :: x in r <==> x in NonregularPairsOf(groups)
    {
      r, orders := NonregularWalk(groups);
      PairsAlongMeans(Traversal(groups, true), orders);
    }

    /** `file_with_name`: the first project file, in iteration order, with that file name. */
    method FileWithName(name: string) returns (r: Option<XcFile>, ghost order: seq<XcFile>)
      ensures IsEnumeration(order, Files())
      ensures r.None? <==> forall f :: f in Files() ==> f.Filename() != name
      ensures r.Some? ==> r.value in Files() && r.value.Filename() == name
      ensures r.Some? ==>
        exists i :: 0 <= i < |order| && order[i] == r.value && forall j :: 0 <= j < i ==> order[j].Filename() != name
    {
      var groupFiles := GroupFiles();
      var files := Enumerate(rootFiles + groupFiles);
      order := files;
      assert forall f :: f in files <==> f in Files() by {
        assert forall f :: f in files <==> f in multiset(files);
      }
      for i := 0 to |files|
        invariant forall j :: 0 <= j < i ==> files[j].Filename() != name
      {
        if files[i].Filename() == name {
          return Some(files[i]), order;
        }
      }
      return None, order;
    }

    /**
     * `groups_filtered`: the groups in worklist order, kept or dropped by
     * the filter mode.
     */
    method GroupsFiltered(mode: Option<string>) returns (r: seq<XcGroup>)
      ensures r == FilterGroups(mode, Traversal(groups, false))
    {
      r := [];
      var worklist := groups;
      while worklist != []
        invariant r + FilterGroups(mode, Traversal(worklist, false)) == FilterGroups(mode, Traversal(groups, false))
        decreases |AllGroups(worklist)|
      {
        var n := |worklist| - 1;
        var group := worklist[n];
        var rest := worklist[..n];
        FilterPopStep(mode, worklist);
        AppendAssoc(r, if KeepGroup(mode, group) then [group] else [], FilterGroups(mode, Traversal(rest + group.groups, false)));
        ghost var before := r;
        worklist := rest;
        if mode == Some("empty") {
          if group.groups == [] && group.files == {} {
            r := r + [group];
          }
        } else if mode == Some("project_relative") {
          if group.isProjectRelative {
            r := r + [group];
          }
        } else if mode == Some("without_folder") {
          if !group.isVariant && !group.HasFolder() {
            r := r + [group];
          }
        } else if mode == Some("variant") {
          if group.isVariant {
            r := r + [group];
          }
        } else {
          r := r + [group];
        }
        assert r == before + (if KeepGroup(mode, group) then [group] else []);
        worklist := PushAll(worklist, group.groups);
      }
    }

    /** `objc_files`: the targets' Objective-C files, target by target in name order, and the target-less headers. */
    method ObjcFiles() returns (r: set<XcFile>)
      ensures r == ObjcFileSet()
    {
      var sorted := TargetsSortedByName();
      r := UnionObjcFiles(sorted);
      ObjcFilesOfSameTargets(sorted, targets);
      r := r + TargetLessHFiles();
    }

    /** `objc_types`: the declarations of the Objective-C files, file after file. */
    method ObjcTypes() returns (r: seq<ObjcType>, ghost order: seq<XcFile>)
      ensures IsEnumeration(order, ObjcFileSet())
      ensures r == ObjcTypesOf(order)
      ensures forall t :: t in r <==> exists f :: f in ObjcFileSet() && t in f.objcTypes
    {
      var objcFiles := ObjcFiles();
      var files := Enumerate(objcFiles);
      order := files;
      r := [];
      for i := 0 to |files|
        invariant r == ObjcTypesOf(files[..i])
      {
        assert files[..i + 1][..i] == files[..i];
        r := r + files[i].objcTypes;
      }
      assert files[..|files|] == files;
      assert forall f :: f in files <==> f in objcFiles by {
        assert forall f :: f in files <==> f in multiset(files);
      }
    }

    /** `objc_types_filtered`: the Objective-C declarations listed per requested kind. */
    method ObjcTypesFiltered(typeIn: set<ObjcTypeType>)
      returns (r: map<ObjcTypeType, seq<ObjcType>>, ghost types: seq<ObjcType>, ghost order: seq<XcFile>)
      ensures IsEnumeration(order, ObjcFileSet()) && types == ObjcTypesOf(order)
      ensures forall t :: t in types <==> exists f :: f in ObjcFileSet() && t in f.objcTypes
      ensures r.Keys == typeIn
      ensures forall k :: k in r ==> r[k] == ObjcOfKinds(types, {k})
    {
      var all;
      all, order := ObjcTypes();
      types := all;
      r := GroupObjcByKind(all, typeIn);
    }

    /** `swift_files`: the targets' Swift files, target by target in name order. */
    method SwiftFiles() returns (r: set<XcFile>)
      ensures r == SwiftFileSet()
    {
      var sorted := TargetsSortedByName();
      r := UnionSwiftFiles(sorted);
      SwiftFilesOfSameTargets(sorted, targets);
    }

    /** `swift_types`: the declarations of the Swift files, file after file. */
    method SwiftTypes() returns (r: seq<SwiftType>, ghost order: seq<XcFile>)
      ensures IsEnumeration(order, SwiftFileSet())
      ensures r == SwiftTypesOf(order)
      ensures forall t :: t in r <==> exists f :: f in SwiftFileSet() && t in f.swiftTypes
    {
      var swiftFiles := SwiftFiles();
      var files := Enumerate(swiftFiles);
      order := files;
      r := [];
      for i := 0 to |files|
        invariant r == SwiftTypesOf(files[..i])
      {
        assert files[..i + 1][..i] == files[..i];
        r := r + files[i].swiftTypes;
      }
      assert files[..|files|] == files;
      assert forall f :: f in files <==> f in swiftFiles by {
        assert forall f :: f in files <==> f in multiset(files);
      }
    }

    /**
     * `swift_types_filtered`: the Swift declarations listed per selected
     * kind or, with `flat`, those lists one after the other in the order the
     * kinds are iterated.
     */
    method SwiftTypesFiltered(typeIn: set<SwiftTypeType>, typeNotIn: set<SwiftTypeType>, flat: bool)
      returns (r: SwiftTypesGrouping, ghost types: seq<SwiftType>, ghost order: seq<XcFile>, ghost kindOrder: seq<SwiftTypeType>)
      ensures IsEnumeration(order, SwiftFileSet()) && types == SwiftTypesOf(order)
      ensures forall t :: t in types <==> exists f :: f in SwiftFileSet() && t in f.swiftTypes
      ensures r.Flat? <==> flat
      ensures r.ByKind? ==> r.byKind.Keys == SelectedKinds(typeIn, typeNotIn)
      ensures r.ByKind? ==> forall k :: k in r.byKind ==> r.byKind[k] == SwiftOfKinds(types, {k})
      ensures r.Flat? ==> IsEnumeration(kindOrder, SelectedKinds(typeIn, typeNotIn)) && r.flat == ConcatByKinds(types, kindOrder)
      ensures r.Flat? ==> multiset(r.flat) == multiset(SwiftOfKinds(types, SelectedKinds(typeIn, typeNotIn)))
    {
      var kinds := if typeNotIn != {} then SwiftAll - typeNotIn else typeIn;
      var all;
      all, order := SwiftTypes();
      types := all;
      var grouped := GroupSwiftByKind(all, kinds);
      kindOrder := [];
      if flat {
        var keys := Enumerate(grouped.Keys);
        kindOrder := keys;
        var results: seq<SwiftType> := [];
        for j := 0 to |keys|
          invariant results == ConcatByKinds(all, keys[..j])
        {
          assert keys[..j + 1][..j] == keys[..j];
          assert keys[j] in multiset(keys);
          results := results + grouped[keys[j]];
        }
        assert keys[..|keys|] == keys;
        ConcatByKindsPermutation(all, keys, kinds);
        r := Flat(results);
      } else {
        r := ByKind(grouped);
      }
    }

    /**
     * `swift_extensions_grouped_by_scope`: every extension of the Swift
     * files, listed under its scope, file after file in iteration order.
     */
    method SwiftExtensionsGroupedByScope() returns (r: map<SwiftExtensionScope, seq<SwiftType>>, ghost fileOrder: seq<XcFile>)
      ensures IsEnumeration(fileOrder, SwiftFileSet())
      ensures r.Keys == AllScopes
      ensures forall s :: s in r ==> r[s] == WithScope(Occurrences(fileOrder), s, ObjcTypeNames(), SwiftTypeNames())
    {
      var swiftFiles := SwiftFiles();
      var files := Enumerate(swiftFiles);
      fileOrder := files;
      var fileScoped, remaining := FileScopePass(files);

      var objcTypeNames, swiftTypeNames := ProjectTypeNames();
      ghost var objcNames, swiftNames := ObjcTypeNames(), SwiftTypeNames();
      var objcScoped, swiftScoped, outer := NameScopePass(remaining, objcTypeNames, swiftTypeNames, objcNames, swiftNames);
      r := map[File := fileScoped, ProjectObjc := objcScoped, ProjectSwift := swiftScoped, Outer := outer];
      ScopeMap(Occurrences(files), objcNames, swiftNames, r);
    }

    /** The name lists the second pass of the scope classification consults. */
    method ProjectTypeNames() returns (objcTypeNames: seq<string>, swiftTypeNames: seq<string>)
      ensures forall n :: n in objcTypeNames <==> n in ObjcTypeNames()
      ensures forall n :: n in swiftTypeNames <==> n in SwiftTypeNames()
    {
      var objcTypes;
      ghost var objcOrder;
      objcTypes, objcOrder := ObjcTypes();
      objcTypeNames := ObjcNames(objcTypes);
      var swiftNonExtension;
      ghost var swiftTypes, swiftOrder, kindOrder;
      swiftNonExtension, swiftTypes, swiftOrder, kindOrder := SwiftTypesFiltered(SwiftAll, {Extension}, true);
      swiftTypeNames := SwiftNames(swiftNonExtension.flat);
      ObjcNamesAre(ObjcFileSet(), objcTypes, objcTypeNames);
      SwiftNamesAre(SwiftFileSet(), swiftTypes, swiftNonExtension.flat, swiftTypeNames);
    }
  }

  /** The names listed from the Objective-C declarations of `files` are their declaration names. */
  lemma ObjcNamesAre(files: set<XcFile>, objcTypes: seq<ObjcType>, names: seq<string>)
    requires forall t :: t in objcTypes <==> exists f :: f in files && t in f.objcTypes
    requires names == ObjcNames(objcTypes)
    ensures forall n :: n in names <==> n in ObjcDeclNames(files)
  {
    forall n ensures n in names <==> n in ObjcDeclNames(files) {
      if n in names {
        var t :| t in objcTypes && t.name == n;
        var f :| f in files && t in f.objcTypes;
      }
      if n in ObjcDeclNames(files) {
        var f, t :| f in files && t in f.objcTypes && t.name == n;
        assert t in objcTypes;
      }
    }
  }

  /** The names listed from the flat non-extension Swift declarations of `files` are their declaration names. */
  lemma SwiftNamesAre(files: set<XcFile>, types: seq<SwiftType>, flat: seq<SwiftType>, names: seq<string>)
    requires forall t :: t in types <==> exists f :: f in files && t in f.swiftTypes
    requires multiset(flat) == multiset(SwiftOfKinds(types, SelectedKinds(SwiftAll, {Extension})))
    requires names == SwiftNames(flat)
    ensures forall n :: n in names <==> n in SwiftDeclNames(files)
  {
    var kinds := SelectedKinds(SwiftAll, {Extension});
    SameElements(flat, SwiftOfKinds(types, kinds));
    forall n ensures n in names <==> n in SwiftDeclNames(files) {
      if n in names {
        var t :| t in flat && t.name == n;
        var f :| f in files && t in f.swiftTypes;
      }
      if n in SwiftDeclNames(files) {
        var f, t :| f in files && t in f.swiftTypes && t.typeIdentifier != Extension && t.name == n;
        assert t in types;
        assert t in SwiftOfKinds(types, kinds);
      }
    }
  }

  /** In a valid project, two groups are equal in the source's sense (same group path) exactly when they are the same group. */
  lemma GroupEqualityIsPath(p: XcProject, g: XcGroup, h: XcGroup)
    requires p.Valid() && g in AllGroups(p.groups) && h in AllGroups(p.groups)
    ensures g.SameGroup(h) <==> g == h
  {
  }

  /** In a valid project, two entries of the target list have the same (type, name) key exactly when they are the same entry. */
  lemma TargetEqualityIsKey(p: XcProject, i: int, j: int)
    requires p.Valid() && 0 <= i < |p.targets| && 0 <= j < |p.targets|
    ensures p.targets[i].Key() == p.targets[j].Key() <==> i == j
  {
    if i < j {
      assert p.targets[i].Key() != p.targets[j].Key();
    } else if j < i {
      assert p.targets[j].Key() != p.targets[i].Key();
    }
  }

  /**
   * With unique group paths, the unfiltered group listing of a project holds
   * each of its groups exactly once.
   */
  lemma GroupsListedOnce(p: XcProject)
    requires p.Valid()
    ensures multiset(FilterGroups(None, Traversal(p.groups, false))) == AllGroups(p.groups)
    ensures DistinctGroups(FilterGroups(None, Traversal(p.groups, false)))
  {
    UnfilteredListsEveryGroupOnce(p.groups);
  }
}
