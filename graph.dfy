/**
 * The targets dependency graph: argument validation, the choice of nodes
 * and edges and the style of each node. The graph is returned as data; the
 * drawing library that renders it is not modelled.
 */
module DependencyGraph {
  import opened Common
  import opened Strings
  import opened Sorting
  import opened Models

  /** How a node is drawn. */
  datatype NodeStyle = Dotted | Dashed | Diagonals | Solid

  /** The style of a target's node, decided by its type alone. */
  function StyleOf(tt: TargetType): (r: NodeStyle)
    ensures r == Dotted <==> tt == Test || tt == UiTest
    ensures r == Dashed <==> tt == AppExtension || tt == WatchExtension
    ensures r == Diagonals <==> tt == Application || tt == WatchApplication
    ensures r == Solid <==> tt == Framework || tt == Other
  {
    match tt
    case Test | UiTest => Dotted
    case AppExtension | WatchExtension => Dashed
    case Application | WatchApplication => Diagonals
    case Framework | Other => Solid
  }

  /** An argument the host language treats as false when absent or empty. */
  predicate Given(s: Option<string>) {
    s.Some? && s.value != ""
  }

  /** How an optional argument is shown in a message. */
  function Show(s: Option<string>): string {
    if s.Some? then s.value else "None"
  }

  /**
   * The first argument error, in the order the generator checks them: no
   * output path, no title, an output format other than pdf and png, a
   * dependency type other than build, linked and embed.
   */
  function ArgumentError(filepath: Option<string>, title: Option<string>, outputFormat: string, dependencyType: Option<string>)
    : (r: Option<string>)
    ensures r.None? <==>
              Given(filepath) && Given(title) && outputFormat in {"pdf", "png"}
              && dependencyType in {Some("build"), Some("linked"), Some("embed")}
    ensures !Given(filepath) ==> r == Some("Missing filepath.")
    ensures Given(filepath) && !Given(title) ==> r == Some("Missing title.")
  {
    if !Given(filepath) then Some("Missing filepath.")
    else if !Given(title) then Some("Missing title.")
    else if outputFormat !in {"pdf", "png"} then
      Some("Bad output_format '" + outputFormat + "'. Only 'pdf' and 'png' are supported.")
    else if dependencyType !in {Some("build"), Some("linked"), Some("embed")} then
      Some("Bad dependency_type '" + Show(dependencyType) + "'. Only 'build', 'linked' and 'embed' are supported.")
    else None
  }

  /** The dependency set a dependency type selects. */
  function DependenciesOf(t: XcTarget, dependencyType: string): set<TargetKey> {
    if dependencyType == "build" then t.dependencies
    else if dependencyType == "linked" then t.linkedFrameworks
    else t.embedFrameworks
  }

  /** Whether the type filter admits a type: an empty filter admits all. */
  predicate Included(includingTypes: set<TargetType>, tt: TargetType) {
    includingTypes == {} || tt in includingTypes
  }

  /** The graph as data: its label, its nodes in order and its edges in order. */
  datatype Graph = Graph(graphLabel: string, nodes: seq<(string, NodeStyle)>, edges: seq<(string, string)>)

  function NodeName(n: (string, NodeStyle)): string { n.0 }

  /**
   * The targets drawn: those of an admitted type, sorted by name. With a
   * filter, targets are collected into a set first.
   */
  method SelectTargets(targets: seq<XcTarget>, includingTypes: set<TargetType>) returns (r: seq<XcTarget>)
    ensures forall t :: t in r <==> t in targets && Included(includingTypes, t.targetType)
    ensures includingTypes == {} ==> multiset(r) == multiset(targets)
    ensures includingTypes != {} ==> IsEnumeration(r, set t | t in targets && t.targetType in includingTypes)
    ensures SortedBy(r, TargetName)
  {
    if includingTypes != {} {
      var selected := Enumerate(set t | t in targets && t.targetType in includingTypes);
      r := SortBy(selected, TargetName);
      SameElements(r, selected);
      assert forall t :: t in selected <==> t in multiset(selected);
    } else {
      r := SortBy(targets, TargetName);
      SameElements(r, targets);
    }
  }

  /** One node per drawn target, in order, styled by its type. */
  method Nodes(targets: seq<XcTarget>) returns (nodes: seq<(string, NodeStyle)>)
    ensures |nodes| == |targets|
    ensures forall i :: 0 <= i < |targets| ==> nodes[i] == (targets[i].name, StyleOf(targets[i].targetType))
  {
    nodes := [];
    for i := 0 to |targets|
      invariant |nodes| == i
      invariant forall j :: 0 <= j < i ==> nodes[j] == (targets[j].name, StyleOf(targets[j].targetType))
    {
      var style: NodeStyle;
      if targets[i].targetType in {Test, UiTest} {
        style := Dotted;
      } else if targets[i].targetType in {AppExtension, WatchExtension} {
        style := Dashed;
      } else if targets[i].targetType in {Application, WatchApplication} {
        style := Diagonals;
      } else {
        style := Solid;
      }
      nodes := nodes + [(targets[i].name, style)];
    }
  }

  /** The edges from `from` to the entries of `ds` of an admitted type, in the order of `ds`. */
  function EdgesTo(from: string, ds: seq<TargetKey>, includingTypes: set<TargetType>): seq<(string, string)>
    decreases |ds|
  {
    if ds == [] then []
    else
      var n := |ds| - 1;
      EdgesTo(from, ds[..n], includingTypes) + (if Included(includingTypes, ds[n].targetType) then [(from, ds[n].name)] else [])
  }

  /** The dependencies of each target of `ts`, listed in name order. */
  ghost predicate DependencyOrders(ts: seq<XcTarget>, dependencyType: string, dss: seq<seq<TargetKey>>) {
    |dss| == |ts|
    && forall i :: 0 <= i < |ts| ==> IsEnumeration(dss[i], DependenciesOf(ts[i], dependencyType)) && SortedBy(dss[i], KeyName)
  }

  /** The edges from each target of `ts` in turn, each target's dependencies in its listed order. */
  function EdgesAlong(ts: seq<XcTarget>, dss: seq<seq<TargetKey>>, includingTypes: set<TargetType>): seq<(string, string)>
    requires |dss| == |ts|
    decreases |ts|
  {
    if ts == [] then []
    else
      var n := |ts| - 1;
      EdgesAlong(ts[..n], dss[..n], includingTypes) + EdgesTo(ts[n].name, dss[n], includingTypes)
  }

  /** The edges from one target: its chosen dependencies by name, those of an admitted type. */
  method EdgesFrom(t: XcTarget, dependencyType: string, includingTypes: set<TargetType>)
    returns (edges: seq<(string, string)>, ghost dependenciesTarget: seq<TargetKey>)
    ensures IsEnumeration(dependenciesTarget, DependenciesOf(t, dependencyType)) && SortedBy(dependenciesTarget, KeyName)
    ensures edges == EdgesTo(t.name, dependenciesTarget, includingTypes)
    ensures forall e :: e in edges <==>
              exists k :: k in DependenciesOf(t, dependencyType) && Included(includingTypes, k.targetType) && e == (t.name, k.name)
  {
    var dependencies: set<TargetKey>;
    if dependencyType == "build" {
      dependencies := t.dependencies;
    } else if dependencyType == "linked" {
      dependencies := t.linkedFrameworks;
    } else {
      dependencies := t.embedFrameworks;
    }
    assert dependencies == DependenciesOf(t, dependencyType);
    var listed := Enumerate(dependencies);
    var sorted := SortBy(listed, KeyName);
    dependenciesTarget := sorted;
    edges := [];
    for j := 0 to |sorted|
      invariant edges == EdgesTo(t.name, sorted[..j], includingTypes)
    {
      var dependencyTarget := sorted[j];
      assert sorted[..j + 1][..j] == sorted[..j];
      if includingTypes != {} && dependencyTarget.targetType !in includingTypes {
        continue;
      }
      edges := edges + [(t.name, dependencyTarget.name)];
    }
    assert sorted[..|sorted|] == sorted;
    SameElements(sorted, listed);
    ListedEdges(t.name, sorted, dependencies, includingTypes);
  }

  /** The edges listed along `ds` are the edges to its entries of an admitted type. */
  lemma {:induction false} EdgesToMeans(from: string, ds: seq<TargetKey>, includingTypes: set<TargetType>)
    ensures forall e :: e in EdgesTo(from, ds, includingTypes) <==>
              exists l :: 0 <= l < |ds| && Included(includingTypes, ds[l].targetType) && e == (from, ds[l].name)
    decreases |ds|
  {
    if ds != [] {
      var n := |ds| - 1;
      EdgesToMeans(from, ds[..n], includingTypes);
      assert forall l :: 0 <= l < n ==> ds[..n][l] == ds[l];
      EdgeStep(from, ds, n, includingTypes, EdgesTo(from, ds[..n], includingTypes));
    }
  }

  /** One entry of the dependency list: an edge to it when its type is admitted. */
  lemma EdgeStep(from: string, ds: seq<TargetKey>, j: int, includingTypes: set<TargetType>, edges: seq<(string, string)>)
    requires 0 <= j < |ds|
    requires forall e :: e in edges <==>
               exists l :: 0 <= l < j && Included(includingTypes, ds[l].targetType) && e == (from, ds[l].name)
    ensures var edges' := if Included(includingTypes, ds[j].targetType) then edges + [(from, ds[j].name)] else edges;
      forall e :: e in edges' <==>
        exists l :: 0 <= l < j + 1 && Included(includingTypes, ds[l].targetType) && e == (from, ds[l].name)
  {
  }

  /** Edges listed entry by entry are the edges to the admitted members of the set listed. */
  lemma ListedEdges(from: string, ds: seq<TargetKey>, deps: set<TargetKey>, includingTypes: set<TargetType>)
    requires IsEnumeration(ds, deps)
    ensures forall e :: e in EdgesTo(from, ds, includingTypes) <==>
              exists k :: k in deps && Included(includingTypes, k.targetType) && e == (from, k.name)
  {
    EdgesToMeans(from, ds, includingTypes);
    var edges := EdgesTo(from, ds, includingTypes);
    assert forall k :: k in ds <==> k in deps by {
      assert forall k :: k in ds <==> k in multiset(ds);
    }
    forall e ensures e in edges <==> exists k :: k in deps && Included(includingTypes, k.targetType) && e == (from, k.name) {
      if exists k :: k in deps && Included(includingTypes, k.targetType) && e == (from, k.name) {
        var k :| k in deps && Included(includingTypes, k.targetType) && e == (from, k.name);
        var l :| 0 <= l < |ds| && ds[l] == k;
      }
      if e in edges {
        var l :| 0 <= l < |ds| && Included(includingTypes, ds[l].targetType) && e == (from, ds[l].name);
        assert ds[l] in deps;
      }
    }
  }

  /** Edges for each drawn target in turn. */
  method Edges(targets: seq<XcTarget>, dependencyType: string, includingTypes: set<TargetType>)
    returns (edges: seq<(string, string)>, ghost dss: seq<seq<TargetKey>>)
    ensures DependencyOrders(targets, dependencyType, dss) && edges == EdgesAlong(targets, dss, includingTypes)
    ensures forall e :: e in edges <==>
              exists t, k :: t in targets && k in DependenciesOf(t, dependencyType) && Included(includingTypes, k.targetType)
                             && e == (t.name, k.name)
  {
    edges := [];
    dss := [];
    for i := 0 to |targets|
      invariant DependencyOrders(targets[..i], dependencyType, dss) && edges == EdgesAlong(targets[..i], dss, includingTypes)
    {
      var fromTarget, ds := EdgesFrom(targets[i], dependencyType, includingTypes);
      EdgesAlongSnoc(targets, i, dependencyType, dss, ds, includingTypes);
      edges := edges + fromTarget;
      dss := dss + [ds];
    }
    assert targets[..|targets|] == targets;
    EdgesAlongMeans(targets, dependencyType, dss, includingTypes);
  }

  lemma EdgesAlongSnoc(targets: seq<XcTarget>, i: int, dependencyType: string, dss: seq<seq<TargetKey>>, ds: seq<TargetKey>,
                       includingTypes: set<TargetType>)
    requires 0 <= i < |targets| && DependencyOrders(targets[..i], dependencyType, dss)
    requires IsEnumeration(ds, DependenciesOf(targets[i], dependencyType)) && SortedBy(ds, KeyName)
    ensures DependencyOrders(targets[..i + 1], dependencyType, dss + [ds])
    ensures EdgesAlong(targets[..i + 1], dss + [ds], includingTypes)
            == EdgesAlong(targets[..i], dss, includingTypes) + EdgesTo(targets[i].name, ds, includingTypes)
  {
    assert targets[..i + 1][..i] == targets[..i];
    assert (dss + [ds])[..i] == dss;
  }

  /** An edge is drawn iff it goes from a listed target to one of its admitted dependencies. */
  lemma {:induction false} EdgesAlongMeans(ts: seq<XcTarget>, dependencyType: string, dss: seq<seq<TargetKey>>, includingTypes: set<TargetType>)
    requires DependencyOrders(ts, dependencyType, dss)
    ensures forall e :: e in EdgesAlong(ts, dss, includingTypes) <==>
              exists t, k :: t in ts && k in DependenciesOf(t, dependencyType) && Included(includingTypes, k.targetType)
                             && e == (t.name, k.name)
    decreases |ts|
  {
    if ts != [] {
      var n := |ts| - 1;
      assert DependencyOrders(ts[..n], dependencyType, dss[..n]);
      EdgesAlongMeans(ts[..n], dependencyType, dss[..n], includingTypes);
      ListedEdges(ts[n].name, dss[n], DependenciesOf(ts[n], dependencyType), includingTypes);
      assert forall t :: t in ts <==> t in ts[..n] || t == ts[n] by {
        assert ts == ts[..n] + [ts[n]];
      }
    }
  }

  /**
   * `generate_targets_dependencies_graph` without the drawing: the first
   * argument error, or the label, one node per drawn target in name order,
   * and for each drawn target in turn the edges to its admitted
   * dependencies in name order.
   */
  method TargetsDependenciesGraph(
    projectName: string,
    targets: seq<XcTarget>,
    outputFormat: string,
    dependencyType: Option<string>,
    filepath: Option<string>,
    title: Option<string>,
    includingTypes: set<TargetType>)
    returns (r: Result<Graph, string>, ghost drawn: seq<XcTarget>, ghost dss: seq<seq<TargetKey>>)
    ensures r.Err? <==> ArgumentError(filepath, title, outputFormat, dependencyType).Some?
    ensures r.Err? ==> r.error == ArgumentError(filepath, title, outputFormat, dependencyType).value
    ensures r.Ok? ==> r.value.graphLabel == projectName + " - " + title.value + "\n\n"
    ensures r.Ok? && includingTypes == {} ==> multiset(drawn) == multiset(targets)
    ensures r.Ok? && includingTypes != {} ==> IsEnumeration(drawn, set t | t in targets && t.targetType in includingTypes)
    ensures r.Ok? ==> SortedBy(drawn, TargetName)
    ensures r.Ok? ==> |r.value.nodes| == |drawn|
    ensures r.Ok? ==> forall i :: 0 <= i < |drawn| ==> r.value.nodes[i] == (drawn[i].name, StyleOf(drawn[i].targetType))
    ensures r.Ok? ==> DependencyOrders(drawn, dependencyType.value, dss)
    ensures r.Ok? ==> r.value.edges == EdgesAlong(drawn, dss, includingTypes)
    ensures r.Ok? ==> SortedBy(r.value.nodes, NodeName)
    ensures r.Ok? ==> forall n :: n in r.value.nodes <==>
              exists t :: t in targets && Included(includingTypes, t.targetType) && n == (t.name, StyleOf(t.targetType))
    ensures r.Ok? ==> forall e :: e in r.value.edges <==>
              exists t, k :: t in targets && Included(includingTypes, t.targetType)
                             && k in DependenciesOf(t, dependencyType.value) && Included(includingTypes, k.targetType)
                             && e == (t.name, k.name)
  {
    drawn, dss := [], [];
    var error := ArgumentError(filepath, title, outputFormat, dependencyType);
    if error.Some? {
      return Err(error.value), drawn, dss;
    }
    var graphLabel := projectName + " - " + title.value + "\n\n";
    var selected := SelectTargets(targets, includingTypes);
    drawn := selected;
    var nodes := Nodes(selected);
    var edges;
    edges, dss := Edges(selected, dependencyType.value, includingTypes);
    NodesSorted(selected, nodes);
    NodesMeans(targets, includingTypes, selected, nodes);
    EdgesAlongMeans(selected, dependencyType.value, dss, includingTypes);
    r := Ok(Graph(graphLabel, nodes, edges));
  }

  /** The nodes of the drawn targets are the nodes of the targets of an admitted type. */
  lemma NodesMeans(targets: seq<XcTarget>, includingTypes: set<TargetType>, drawn: seq<XcTarget>, nodes: seq<(string, NodeStyle)>)
    requires forall t :: t in drawn <==> t in targets && Included(includingTypes, t.targetType)
    requires |nodes| == |drawn| && forall i :: 0 <= i < |drawn| ==> nodes[i] == (drawn[i].name, StyleOf(drawn[i].targetType))
    ensures forall n :: n in nodes <==>
              exists t :: t in targets && Included(includingTypes, t.targetType) && n == (t.name, StyleOf(t.targetType))
  {
    forall n ensures n in nodes <==>
        exists t :: t in targets && Included(includingTypes, t.targetType) && n == (t.name, StyleOf(t.targetType))
    {
      if n in nodes {
        var i :| 0 <= i < |nodes| && nodes[i] == n;
        assert drawn[i] in drawn;
      }
      if exists t :: t in targets && Included(includingTypes, t.targetType) && n == (t.name, StyleOf(t.targetType)) {
        var t :| t in targets && Included(includingTypes, t.targetType) && n == (t.name, StyleOf(t.targetType));
        var i :| 0 <= i < |drawn| && drawn[i] == t;
        assert nodes[i] == n;
      }
    }
  }

  lemma NodesSorted(drawn: seq<XcTarget>, nodes: seq<(string, NodeStyle)>)
    requires SortedBy(drawn, TargetName)
    requires |nodes| == |drawn| && forall i :: 0 <= i < |drawn| ==> nodes[i].0 == drawn[i].name
    ensures SortedBy(nodes, NodeName)
  {
    forall i, j | 0 <= i < j < |nodes| ensures StrLe(NodeName(nodes[i]), NodeName(nodes[j])) {
      assert StrLe(TargetName(drawn[i]), TargetName(drawn[j]));
    }
  }
}
