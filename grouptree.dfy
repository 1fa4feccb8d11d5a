/**
 * The group tree of a project: its nodes, the order in which the project's
 * last-in-first-out worklists visit it, the files it holds, and the filters
 * applied to the visited groups.
 */
module GroupTree {
  import opened Common
  import opened Strings
  import opened Models

  /** Every node of the forest `gs`, counted once per occurrence. */
  function AllGroups(gs: seq<XcGroup>): multiset<XcGroup>
    decreases gs
  {
    if gs == [] then multiset{}
    else
      var n := |gs| - 1;
      AllGroups(gs[..n]) + multiset{gs[n]} + AllGroups(gs[n].groups)
  }

  /**
   * The order in which a worklist seeded with `gs` visits groups when it pops
   * the last entry and pushes that group's children. With `skipVariants`, a
   * variant group is popped but neither visited nor expanded.
   */
  function Traversal(gs: seq<XcGroup>, skipVariants: bool): seq<XcGroup>
    decreases gs
  {
    if gs == [] then []
    else
      var n := |gs| - 1;
      var g := gs[n];
      (if skipVariants && g.isVariant then [] else [g] + Traversal(g.groups, skipVariants))
        + Traversal(gs[..n], skipVariants)
  }

  /** The files held by any group of the forest. */
  function FilesOf(gs: seq<XcGroup>): set<XcFile> {
    set g, f | g in AllGroups(gs) && f in g.files :: f
  }

  /**
   * The (file, group) pairs of groups visited without entering variant
   * groups, whose file path does not start with the group path.
   */
  function NonregularPairsOf(gs: seq<XcGroup>): set<(XcFile, XcGroup)> {
    set g, f | g in Traversal(gs, true) && f in g.files && !StartsWith(f.filepath, g.groupPath) :: (f, g)
  }

  lemma {:induction false} AllGroupsAppend(a: seq<XcGroup>, b: seq<XcGroup>)
    ensures AllGroups(a + b) == AllGroups(a) + AllGroups(b)
    decreases |b|
  {
    if b == [] {
      assert a + b == a;
    } else {
      var n := |b| - 1;
      assert (a + b)[..|a + b| - 1] == a + b[..n];
      assert (a + b)[|a + b| - 1] == b[n];
      AllGroupsAppend(a, b[..n]);
    }
  }

  lemma {:induction false} TraversalAppend(a: seq<XcGroup>, b: seq<XcGroup>, skipVariants: bool)
    ensures Traversal(a + b, skipVariants) == Traversal(b, skipVariants) + Traversal(a, skipVariants)
    decreases |b|
  {
    if b == [] {
      assert a + b == a;
    } else {
      var n := |b| - 1;
      assert (a + b)[..|a + b| - 1] == a + b[..n];
      assert (a + b)[|a + b| - 1] == b[n];
      TraversalAppend(a, b[..n], skipVariants);
    }
  }

  /** Without skipping, the traversal visits every node of the forest exactly once. */
  lemma {:induction false} TraversalVisitsAllGroups(gs: seq<XcGroup>)
    ensures multiset(Traversal(gs, false)) == AllGroups(gs)
    decreases gs
  {
    if gs != [] {
      var n := |gs| - 1;
      TraversalVisitsAllGroups(gs[n].groups);
      TraversalVisitsAllGroups(gs[..n]);
    }
  }

  lemma {:induction false} FilesOfAppend(a: seq<XcGroup>, b: seq<XcGroup>)
    ensures FilesOf(a + b) == FilesOf(a) + FilesOf(b)
  {
    AllGroupsAppend(a, b);
  }

  lemma FilesOfLast(gs: seq<XcGroup>)
    requires gs != []
    ensures FilesOf(gs) == FilesOf(gs[..|gs| - 1]) + gs[|gs| - 1].files + FilesOf(gs[|gs| - 1].groups)
  {
  }

  lemma {:induction false} NonregularPairsAppend(a: seq<XcGroup>, b: seq<XcGroup>)
    ensures NonregularPairsOf(a + b) == NonregularPairsOf(a) + NonregularPairsOf(b)
  {
    TraversalAppend(a, b, true);
  }

  /** The nonregular pairs contributed by one visited group. */
  function NonregularPairsOfGroup(g: XcGroup): set<(XcFile, XcGroup)> {
    set f | f in g.files && !StartsWith(f.filepath, g.groupPath) :: (f, g)
  }

  lemma NonregularPairsLast(gs: seq<XcGroup>)
    requires gs != []
    ensures var g := gs[|gs| - 1];
      NonregularPairsOf(gs) ==
        NonregularPairsOf(gs[..|gs| - 1])
        + (if g.isVariant then {} else NonregularPairsOfGroup(g) + NonregularPairsOf(g.groups))
  {
    var g := gs[|gs| - 1];
    var rest := gs[..|gs| - 1];
    if !g.isVariant {
      assert Traversal(gs, true) == [g] + Traversal(g.groups, true) + Traversal(rest, true);
      assert forall h :: h in Traversal(gs, true) <==> h == g || h in Traversal(g.groups, true) || h in Traversal(rest, true);
    }
  }

  /**
   * Popping the last group of a worklist and pushing its children: the
   * popped group is visited first, then what the new worklist visits, and
   * the new worklist holds one node fewer.
   */
  lemma PopStep(w: seq<XcGroup>, skipVariants: bool)
    requires w != []
    ensures var n := |w| - 1;
      && AllGroups(w[..n] + w[n].groups) + multiset{w[n]} == AllGroups(w)
      && (!(skipVariants && w[n].isVariant) ==>
           Traversal(w, skipVariants) == [w[n]] + Traversal(w[..n] + w[n].groups, skipVariants))
  {
    var n := |w| - 1;
    var g := w[n];
    AllGroupsAppend(w[..n], g.groups);
    if !(skipVariants && g.isVariant) {
      TraversalAppend(w[..n], g.groups, skipVariants);
      AppendAssoc([g], Traversal(g.groups, skipVariants), Traversal(w[..n], skipVariants));
    }
  }

  /** One step of the variant-skipping walk, in terms of the pairs it reports. */
  lemma NonregularPopStep(w: seq<XcGroup>)
    requires w != []
    ensures var n := |w| - 1;
      && |AllGroups(w[..n])| < |AllGroups(w)|
      && |AllGroups(w[..n] + w[n].groups)| < |AllGroups(w)|
      && (w[n].isVariant ==> NonregularPairsOf(w) == NonregularPairsOf(w[..n]))
      && (!w[n].isVariant ==>
            NonregularPairsOf(w) == NonregularPairsOfGroup(w[n]) + NonregularPairsOf(w[..n] + w[n].groups))
  {
    var n := |w| - 1;
    var g := w[n];
    PopStep(w, true);
    AllGroupsAppend(w[..n], g.groups);
    NonregularPairsLast(w);
    if !g.isVariant {
      NonregularPairsAppend(w[..n], g.groups);
      UnionShuffle(NonregularPairsOf(w[..n]), NonregularPairsOfGroup(g), NonregularPairsOf(g.groups));
    }
  }

  // Characterisation of the groups the variant-skipping traversal visits:
  // the least set that holds every non-variant root and every non-variant
  // child of a member.

  /** Every visited group is a non-variant node of the forest. */
  lemma {:induction false} SkippingVisitsNonVariantNodes(gs: seq<XcGroup>, g: XcGroup)
    requires g in Traversal(gs, true)
    ensures g in AllGroups(gs) && !g.isVariant
    decreases gs
  {
    var n := |gs| - 1;
    var h := gs[n];
    if g in Traversal(gs[..n], true) {
      SkippingVisitsNonVariantNodes(gs[..n], g);
    } else if g != h {
      SkippingVisitsNonVariantNodes(h.groups, g);
    }
  }

  /** Every non-variant root is visited. */
  lemma {:induction false} SkippingVisitsNonVariantRoots(gs: seq<XcGroup>, g: XcGroup)
    requires g in gs && !g.isVariant
    ensures g in Traversal(gs, true)
    decreases |gs|
  {
    var n := |gs| - 1;
    if g != gs[n] {
      assert g in gs[..n] by {
        var i :| 0 <= i < |gs| && gs[i] == g;
        assert gs[..n][i] == g;
      }
      SkippingVisitsNonVariantRoots(gs[..n], g);
    }
  }

  /** Below a visited group, everything its own traversal visits is visited. */
  lemma {:induction false} SkippingVisitsBelowVisited(gs: seq<XcGroup>, g: XcGroup, c: XcGroup)
    requires g in Traversal(gs, true) && c in Traversal(g.groups, true)
    ensures c in Traversal(gs, true)
    decreases gs
  {
    var n := |gs| - 1;
    var h := gs[n];
    if g in Traversal(gs[..n], true) {
      SkippingVisitsBelowVisited(gs[..n], g, c);
    } else if g != h {
      SkippingVisitsBelowVisited(h.groups, g, c);
    }
  }

  /** Every non-variant child of a visited group is visited. */
  lemma SkippingVisitsNonVariantChildren(gs: seq<XcGroup>, g: XcGroup, c: XcGroup)
    requires g in Traversal(gs, true) && c in g.groups && !c.isVariant
    ensures c in Traversal(gs, true)
  {
    SkippingVisitsNonVariantRoots(g.groups, c);
    SkippingVisitsBelowVisited(gs, g, c);
  }

  /** Nothing else is visited: a visited group is a root or a child of a visited group. */
  lemma {:induction false} SkippingVisitsOnlyReachable(gs: seq<XcGroup>, g: XcGroup)
    requires g in Traversal(gs, true)
    ensures g in gs || exists p :: p in Traversal(gs, true) && g in p.groups
    decreases gs
  {
    var n := |gs| - 1;
    var h := gs[n];
    assert gs == gs[..n] + [h];
    TraversalAppend(gs[..n], [h], true);
    if g in Traversal(gs[..n], true) {
      SkippingVisitsOnlyReachable(gs[..n], g);
    } else if g != h {
      assert g in Traversal(h.groups, true);
      SkippingVisitsOnlyReachable(h.groups, g);
      if g !in h.groups {
        var p :| p in Traversal(h.groups, true) && g in p.groups;
        assert p in Traversal(gs, true);
      }
    }
  }

  // Filters of groups_filtered.

  /**
   * Whether a visited group is kept under `mode`; no mode, or a mode that is
   * not one of the four names, keeps every group.
   */
  predicate KeepGroup(mode: Option<string>, g: XcGroup) {
    if mode == Some("empty") then g.groups == [] && g.files == {}
    else if mode == Some("project_relative") then g.isProjectRelative
    else if mode == Some("without_folder") then !g.isVariant && !g.HasFolder()
    else if mode == Some("variant") then g.isVariant
    else true
  }

  function FilterGroups(mode: Option<string>, s: seq<XcGroup>): (r: seq<XcGroup>)
    ensures forall g :: g in r <==> g in s && KeepGroup(mode, g)
    ensures |r| <= |s|
    decreases |s|
  {
    if s == [] then []
    else (if KeepGroup(mode, s[0]) then [s[0]] else []) + FilterGroups(mode, s[1..])
  }

  lemma {:induction false} FilterGroupsKeepsAll(mode: Option<string>, s: seq<XcGroup>)
    requires forall g :: KeepGroup(mode, g)
    ensures FilterGroups(mode, s) == s
    decreases |s|
  {
    if s != [] {
      FilterGroupsKeepsAll(mode, s[1..]);
      assert s == [s[0]] + s[1..];
    }
  }

  lemma {:induction false} FilterGroupsAppend(mode: Option<string>, a: seq<XcGroup>, b: seq<XcGroup>)
    ensures FilterGroups(mode, a + b) == FilterGroups(mode, a) + FilterGroups(mode, b)
    decreases |a|
  {
    if a == [] {
      assert a + b == b;
    } else {
      assert (a + b)[1..] == a[1..] + b;
      FilterGroupsAppend(mode, a[1..], b);
    }
  }

  /** One step of the filtered listing: the popped group's verdict, then the rest. */
  lemma FilterPopStep(mode: Option<string>, w: seq<XcGroup>)
    requires w != []
    ensures var n := |w| - 1;
      && |AllGroups(w[..n] + w[n].groups)| < |AllGroups(w)|
      && FilterGroups(mode, Traversal(w, false))
           == (if KeepGroup(mode, w[n]) then [w[n]] else []) + FilterGroups(mode, Traversal(w[..n] + w[n].groups, false))
  {
    var n := |w| - 1;
    PopStep(w, false);
    FilterGroupsAppend(mode, [w[n]], Traversal(w[..n] + w[n].groups, false));
    assert [w[n]][1..] == [];
  }

  // Identity of groups.

  /** Within the forest, each node occurs once and the group path identifies it. */
  ghost predicate UniqueGroupPaths(gs: seq<XcGroup>) {
    && (forall g :: g in AllGroups(gs) ==> AllGroups(gs)[g] == 1)
    && (forall g, h :: g in AllGroups(gs) && h in AllGroups(gs) && g.groupPath == h.groupPath ==> g == h)
  }

  /** No two entries are the same group in the source's sense (equal group paths). */
  predicate DistinctGroups(s: seq<XcGroup>) {
    forall i, j :: 0 <= i < j < |s| ==> !s[i].SameGroup(s[j])
  }

  lemma RepeatedEntry<T>(s: seq<T>, i: int, j: int)
    requires 0 <= i < j < |s| && s[i] == s[j]
    ensures multiset(s)[s[i]] >= 2
  {
    assert s == s[..j] + [s[j]] + s[j + 1..];
    assert s[..j][i] == s[i];
    assert s[i] in multiset(s[..j]);
  }

  /** With unique group paths, the full traversal never visits the same group twice. */
  lemma TraversalDistinct(gs: seq<XcGroup>)
    requires UniqueGroupPaths(gs)
    ensures DistinctGroups(Traversal(gs, false))
  {
    var t := Traversal(gs, false);
    TraversalVisitsAllGroups(gs);
    forall i, j | 0 <= i < j < |t| ensures !t[i].SameGroup(t[j]) {
      assert t[i] in AllGroups(gs) && t[j] in AllGroups(gs);
      if t[i] == t[j] {
        RepeatedEntry(t, i, j);
        assert false;
      }
    }
  }

  /**
   * With no filter, the listing holds every group of the tree once, and no
   * two of its entries share a group path.
   */
  lemma UnfilteredListsEveryGroupOnce(gs: seq<XcGroup>)
    requires UniqueGroupPaths(gs)
    ensures multiset(FilterGroups(None, Traversal(gs, false))) == AllGroups(gs)
    ensures DistinctGroups(FilterGroups(None, Traversal(gs, false)))
  {
    FilterGroupsKeepsAll(None, Traversal(gs, false));
    TraversalVisitsAllGroups(gs);
    TraversalDistinct(gs);
  }

  lemma {:induction false} FilterGroupsDistinct(mode: Option<string>, s: seq<XcGroup>)
    requires DistinctGroups(s)
    ensures DistinctGroups(FilterGroups(mode, s))
    decreases |s|
  {
    if s != [] {
      var tail := s[1..];
      assert DistinctGroups(tail) by {
        forall i, j | 0 <= i < j < |tail| ensures !tail[i].SameGroup(tail[j]) {
          assert tail[i] == s[i + 1] && tail[j] == s[j + 1];
        }
      }
      FilterGroupsDistinct(mode, tail);
      var ft := FilterGroups(mode, tail);
      var r := FilterGroups(mode, s);
      if KeepGroup(mode, s[0]) {
        forall i, j | 0 <= i < j < |r| ensures !r[i].SameGroup(r[j]) {
          if i == 0 {
            assert r[j] == ft[j - 1] && ft[j - 1] in tail;
            var k :| 0 <= k < |tail| && tail[k] == ft[j - 1];
            assert s[k + 1] == ft[j - 1];
          } else {
            assert r[i] == ft[i - 1] && r[j] == ft[j - 1];
          }
        }
      }
    }
  }

  // Counting, for the group summary.

  function VariantCount(s: seq<XcGroup>): (r: nat)
    ensures r <= |s|
    decreases |s|
  {
    if s == [] then 0 else (if s[0].isVariant then 1 else 0) + VariantCount(s[1..])
  }

  lemma {:induction false} VariantCountAppend(a: seq<XcGroup>, b: seq<XcGroup>)
    ensures VariantCount(a + b) == VariantCount(a) + VariantCount(b)
    decreases |a|
  {
    if a == [] {
      assert a + b == b;
    } else {
      assert (a + b)[1..] == a[1..] + b;
      VariantCountAppend(a[1..], b);
    }
  }

  /** The groups strictly below the roots `gs`, in traversal order. */
  function Descendants(gs: seq<XcGroup>): seq<XcGroup>
    decreases |gs|
  {
    if gs == [] then []
    else
      var n := |gs| - 1;
      Traversal(gs[n].groups, false) + Descendants(gs[..n])
  }

  /** The full traversal is the roots together with the descendants. */
  lemma {:induction false} TraversalRootsAndDescendants(gs: seq<XcGroup>)
    ensures |Traversal(gs, false)| == |gs| + |Descendants(gs)|
    ensures VariantCount(Traversal(gs, false)) == VariantCount(gs) + VariantCount(Descendants(gs))
    decreases |gs|
  {
    if gs != [] {
      var n := |gs| - 1;
      var g := gs[n];
      var below := Traversal(g.groups, false);
      TraversalRootsAndDescendants(gs[..n]);
      assert Traversal(gs, false) == [g] + (below + Traversal(gs[..n], false));
      VariantCountAppend([g], below + Traversal(gs[..n], false));
      VariantCountAppend(below, Traversal(gs[..n], false));
      assert gs == gs[..n] + [g];
      VariantCountAppend(gs[..n], [g]);
      VariantCountAppend(below, Descendants(gs[..n]));
    }
  }
}
