/**
 * The sidebar's order: a tree written flat, a name followed by an array of its
 * children. What its walk collects, and which tree the level table builds.
 */
module StorySort {
  import opened Text

  datatype Node = Name(name: string) | Children(nodes: seq<Node>)

  /** What the flat form stands for. */
  datatype Tree = Tree(name: string, children: seq<Tree>)

  // ----- The flat form and the tree it stands for -----

  function WithChildren(tree: Tree, more: seq<Tree>): Tree {
    Tree(tree.name, tree.children + more)
  }

  /** An array holds children of the name before it; an array before any name holds nothing. */
  function Decode(nodes: seq<Node>): seq<Tree>
    decreases nodes
  {
    if nodes == [] then []
    else
      match nodes[|nodes| - 1]
      case Name(name) => Decode(nodes[..|nodes| - 1]) + [Tree(name, [])]
      case Children(children) => Adopt(Decode(nodes[..|nodes| - 1]), Decode(children))
  }

  /** The last tree takes the children. */
  function Adopt(forest: seq<Tree>, children: seq<Tree>): seq<Tree> {
    if forest == [] then [] else forest[..|forest| - 1] + [WithChildren(forest[|forest| - 1], children)]
  }

  lemma AdoptAppend(a: seq<Tree>, b: seq<Tree>, children: seq<Tree>)
    requires b != []
    ensures Adopt(a + b, children) == a + Adopt(b, children)
  {
    assert (a + b)[..|a + b| - 1] == a + b[..|b| - 1];
  }

  function Encode(forest: seq<Tree>): seq<Node>
    decreases forest
  {
    if forest == [] then []
    else
      var last := forest[|forest| - 1];
      Encode(forest[..|forest| - 1]) + [Name(last.name)]
      + if last.children == [] then [] else [Children(Encode(last.children))]
  }

  lemma AdoptLast(front: seq<Tree>, last: Tree)
    ensures Adopt(front + [Tree(last.name, [])], last.children) == front + [last]
  {
    assert (front + [Tree(last.name, [])])[..|front|] == front;
    assert [] + last.children == last.children;
  }

  lemma DecodeOneTree(before: seq<Node>, children: seq<Node>, front: seq<Tree>, last: Tree)
    requires Decode(before) == front && Decode(children) == last.children
    ensures Decode(before + [Name(last.name)] + if last.children == [] then [] else [Children(children)])
      == front + [last]
  {
    var named := before + [Name(last.name)];
    DecodeLast(before, Name(last.name));
    if last.children == [] {
      assert named + [] == named;
    } else {
      DecodeLast(named, Children(children));
      AdoptLast(front, last);
    }
  }

  /** The flat form loses nothing. */
  lemma {:induction false} DecodeEncode(forest: seq<Tree>)
    ensures Decode(Encode(forest)) == forest
    decreases forest
  {
    if forest != [] {
      var front, last := forest[..|forest| - 1], forest[|forest| - 1];
      DecodeEncode(front);
      DecodeEncode(last.children);
      DecodeOneTree(Encode(front), Encode(last.children), front, last);
      assert front + [last] == forest;
    }
  }

  /** A root-to-node path. */
  predicate IsPath(forest: seq<Tree>, path: seq<string>)
    decreases |path|, 1
  {
    exists tree :: tree in forest && Leads(tree, path)
  }

  /** A path from this tree's root. */
  predicate Leads(tree: Tree, path: seq<string>)
    decreases |path|, 0
  {
    path != [] && path[0] == tree.name && (|path| == 1 || IsPath(tree.children, path[1..]))
  }

  lemma IsPathAppend(a: seq<Tree>, b: seq<Tree>, path: seq<string>)
    ensures IsPath(a + b, path) <==> IsPath(a, path) || IsPath(b, path)
  {
    assert forall tree :: tree in a + b <==> tree in a || tree in b;
  }

  lemma IsPathOne(tree: Tree, path: seq<string>)
    ensures IsPath([tree], path) <==> Leads(tree, path)
  {
    assert tree in [tree];
  }

  // ----- The walk -----

  function LastName(nodes: seq<Node>): seq<string> {
    if nodes == [] then []
    else
      match nodes[|nodes| - 1]
      case Name(name) => [name]
      case Children(_) => LastName(nodes[..|nodes| - 1])
  }

  /** The paths the walk adds, `prefix` in front of each. */
  function Collected(nodes: seq<Node>, prefix: seq<string>): set<seq<string>>
    decreases nodes
  {
    if nodes == [] then {}
    else
      var front := nodes[..|nodes| - 1];
      Collected(front, prefix)
      + match nodes[|nodes| - 1]
        case Name(name) => {prefix + [name]}
        case Children(children) => if LastName(front) == [] then {} else Collected(children, prefix + LastName(front))
  }

  /** What one more node adds. */
  lemma CollectedLast(nodes: seq<Node>, last: Node, prefix: seq<string>)
    ensures LastName(nodes + [last]) == if last.Name? then [last.name] else LastName(nodes)
    ensures last.Name? ==> Collected(nodes + [last], prefix) == Collected(nodes, prefix) + {prefix + [last.name]}
    ensures last.Children? ==>
      (Collected(nodes + [last], prefix)
       == Collected(nodes, prefix)
          + if LastName(nodes) == [] then {} else Collected(last.nodes, prefix + LastName(nodes)))
  {
    assert (nodes + [last])[..|nodes|] == nodes;
  }

  method Collect(nodes: seq<Node>, prefix: seq<string>, before: set<seq<string>>) returns (paths: set<seq<string>>)
    ensures paths == before + Collected(nodes, prefix)
    decreases nodes
  {
    paths := before;
    var last: seq<string> := [];
    for i := 0 to |nodes|
      invariant paths == before + Collected(nodes[..i], prefix)
      invariant last == if LastName(nodes[..i]) == [] then [] else prefix + LastName(nodes[..i])
    {
      CollectedLast(nodes[..i], nodes[i], prefix);
      assert nodes[..i + 1] == nodes[..i] + [nodes[i]];
      match nodes[i] {
        case Name(name) =>
          last := prefix + [name];
          paths := paths + {last};
        case Children(children) =>
          if last != [] {
            paths := Collect(children, last, paths);
          }
      }
    }
    assert nodes[..|nodes|] == nodes;
  }

  lemma {:induction false} LastNameIsLastTree(nodes: seq<Node>)
    ensures Decode(nodes) == [] <==> LastName(nodes) == []
    ensures Decode(nodes) != [] ==> LastName(nodes) == [Decode(nodes)[|Decode(nodes)| - 1].name]
    decreases |nodes|
  {
    if nodes != [] {
      LastNameIsLastTree(nodes[..|nodes| - 1]);
    }
  }

  /** For any node list the walk collects the root-to-node paths of the tree it stands for. */
  lemma {:induction false} CollectsThePaths(nodes: seq<Node>, prefix: seq<string>, path: seq<string>)
    ensures path in Collected(nodes, prefix) <==> prefix <= path && IsPath(Decode(nodes), path[|prefix|..])
    decreases nodes
  {
    if nodes == [] {
      assert prefix <= path ==> !IsPath([], path[|prefix|..]);
    } else {
      var front := nodes[..|nodes| - 1];
      CollectsThePaths(front, prefix, path);
      match nodes[|nodes| - 1] {
        case Name(name) => NameCollected(Decode(front), name, prefix, path);
        case Children(children) =>
          LastNameIsLastTree(front);
          if Decode(front) != [] {
            CollectsThePaths(children, prefix + LastName(front), path);
            ChildrenCollected(Decode(front), Decode(children), prefix, path);
          }
      }
    }
  }

  lemma NameCollected(forest: seq<Tree>, name: string, prefix: seq<string>, path: seq<string>)
    ensures prefix <= path && IsPath(forest + [Tree(name, [])], path[|prefix|..]) <==>
            (prefix <= path && IsPath(forest, path[|prefix|..])) || path == prefix + [name]
  {
    if prefix <= path {
      var rest := path[|prefix|..];
      IsPathAppend(forest, [Tree(name, [])], rest);
      IsPathOne(Tree(name, []), rest);
      assert path == prefix + rest;
      assert rest == [name] <==> path == prefix + [name];
    }
  }

  lemma ChildrenCollected(forest: seq<Tree>, more: seq<Tree>, prefix: seq<string>, path: seq<string>)
    requires forest != []
    ensures
      var n := |forest| - 1;
      var under := prefix + [forest[n].name];
      prefix <= path && IsPath(forest[..n] + [WithChildren(forest[n], more)], path[|prefix|..]) <==>
      (prefix <= path && IsPath(forest, path[|prefix|..])) || (under <= path && IsPath(more, path[|under|..]))
  {
    var n := |forest| - 1;
    var last := forest[n];
    var under := prefix + [last.name];
    if prefix <= path {
      var rest := path[|prefix|..];
      assert path == prefix + rest;
      IsPathAppend(forest[..n], [WithChildren(last, more)], rest);
      IsPathAppend(forest[..n], [last], rest);
      assert forest == forest[..n] + [last];
      IsPathOne(last, rest);
      IsPathOne(WithChildren(last, more), rest);
      if rest != [] {
        IsPathAppend(last.children, more, rest[1..]);
        assert rest[1..] == path[|prefix| + 1..];
        assert under <= path <==> rest[0] == last.name;
      }
    }
  }

  /** Every path in an order, as strings with `/` between the names. */
  method StorySortOrderPaths(order: seq<Node>) returns (paths: set<string>)
    ensures paths == set path | path in Collected(order, []) :: Join(path, '/')
  {
    var collected := Collect(order, [], {});
    assert collected == Collected(order, []);
    paths := set path | path in collected :: Join(path, '/');
  }

  ghost predicate NamesHaveNoSlash(path: seq<string>) {
    forall name :: name in path ==> '/' !in name
  }

  predicate Slashless(forest: seq<Tree>)
    decreases forest
  {
    forall tree :: tree in forest ==> '/' !in tree.name && Slashless(tree.children)
  }

  lemma {:induction false} PathsAreSlashless(forest: seq<Tree>, path: seq<string>)
    requires Slashless(forest) && IsPath(forest, path)
    ensures NamesHaveNoSlash(path)
    decreases |path|
  {
    var tree :| tree in forest && Leads(tree, path);
    if |path| > 1 {
      PathsAreSlashless(tree.children, path[1..]);
    }
    assert path == [path[0]] + path[1..];
  }

  /**
   * Walking the flat form of any forest whose names have no `/` yields exactly the
   * root-to-node paths, different paths as different strings.
   */
  lemma WalkOfAForest(forest: seq<Tree>, path: seq<string>)
    requires Slashless(forest) && path != [] && NamesHaveNoSlash(path)
    ensures var paths := set p | p in Collected(Encode(forest), []) :: Join(p, '/');
      Join(path, '/') in paths <==> IsPath(forest, path)
  {
    DecodeEncode(forest);
    var collected := Collected(Encode(forest), []);
    CollectsThePaths(Encode(forest), [], path);
    assert path[0..] == path;
    SplitJoin(path, '/');
    forall p | p in collected && Join(p, '/') == Join(path, '/') ensures p == path {
      CollectsThePaths(Encode(forest), [], p);
      assert p[0..] == p;
      PathsAreSlashless(forest, p);
      SplitJoin(p, '/');
    }
  }

  // ----- The sidebar -----

  datatype Group = Group(name: string, subgroups: seq<string>)

  datatype Level = Level(name: string, groups: seq<Group>)

  /** The hand-written orders and which levels have a current release. */
  datatype Sidebar = Sidebar(
    startHere: seq<Group>,
    versioned: set<string>,
    pageTree: set<string>,
    patterns: seq<Node>,
    surfaces: seq<Node>,
    composites: seq<Node>)

  function BaselineRoot(level: string): string {
    level + " v1.0"
  }

  function Names(names: seq<string>): (r: seq<Node>)
    ensures |r| == |names| && forall i :: 0 <= i < |names| ==> r[i] == Name(names[i])
  {
    if names == [] then [] else Names(names[..|names| - 1]) + [Name(names[|names| - 1])]
  }

  function GroupNames(groups: seq<Group>): (r: seq<string>)
    ensures |r| == |groups| && forall i :: 0 <= i < |groups| ==> r[i] == groups[i].name
  {
    if groups == [] then [] else GroupNames(groups[..|groups| - 1]) + [groups[|groups| - 1].name]
  }

  /** A name, and its children behind it if it has any. */
  function Named(name: string, children: seq<Node>): seq<Node> {
    if children == [] then [Name(name)] else [Name(name), Children(children)]
  }

  function GroupNodes(groups: seq<Group>): (r: seq<Node>)
    ensures groups != [] ==> r != []
  {
    if groups == [] then []
    else
      var last := groups[|groups| - 1];
      GroupNodes(groups[..|groups| - 1]) + Named(last.name, Names(last.subgroups))
  }

  function Under(name: string, children: seq<Node>): seq<Node> {
    [Name(name), Children(children)]
  }

  function SurfacesNodes(sidebar: Sidebar): seq<Node> {
    Under("Patterns", sidebar.patterns) + Under("Surfaces", sidebar.surfaces)
  }

  function NextOfLevel(level: Level, sidebar: Sidebar): seq<Node> {
    (if level.name == "Surfaces" then SurfacesNodes(sidebar) else [])
    + if level.groups != [] && level.name in sidebar.versioned
      then Under(level.name, if level.name in sidebar.pageTree then sidebar.composites else GroupNodes(level.groups))
      else []
  }

  function NextNodes(levels: seq<Level>, sidebar: Sidebar): seq<Node> {
    if levels == [] then []
    else NextNodes(levels[..|levels| - 1], sidebar) + NextOfLevel(levels[|levels| - 1], sidebar)
  }

  function BaselineNodes(levels: seq<Level>): seq<Node> {
    if levels == [] then []
    else
      var last := levels[|levels| - 1];
      BaselineNodes(levels[..|levels| - 1]) + Named(BaselineRoot(last.name), GroupNodes(last.groups))
  }

  /** Both lists, built up to a level. */
  predicate BuiltTo(levels: seq<Level>, i: nat, sidebar: Sidebar, nextVersion: seq<Node>, baseline: seq<Node>)
    requires i <= |levels|
  {
    nextVersion == NextNodes(levels[..i], sidebar) && baseline == BaselineNodes(levels[..i])
  }

  lemma OneMoreLevel(levels: seq<Level>, i: nat, sidebar: Sidebar, nextVersion: seq<Node>, baseline: seq<Node>)
    requires i < |levels| && BuiltTo(levels, i, sidebar, nextVersion, baseline)
    ensures BuiltTo(levels, i + 1, sidebar, nextVersion + NextOfLevel(levels[i], sidebar),
                    baseline + Named(BaselineRoot(levels[i].name), GroupNodes(levels[i].groups)))
  {
    assert levels[..i + 1][..i] == levels[..i];
  }

  method BuildStorySortOrder(levels: seq<Level>, sidebar: Sidebar) returns (order: seq<Node>)
    ensures order == Under("Start Here", Names(GroupNames(sidebar.startHere)))
                     + NextNodes(levels, sidebar) + BaselineNodes(levels)
  {
    var nextVersion: seq<Node>, baseline: seq<Node> := [], [];
    for i := 0 to |levels|
      invariant BuiltTo(levels, i, sidebar, nextVersion, baseline)
    {
      var level := levels[i];
      OneMoreLevel(levels, i, sidebar, nextVersion, baseline);
      nextVersion, baseline := PushLevel(level, sidebar, nextVersion, baseline);
    }
    assert levels[..|levels|] == levels;
    order := Under("Start Here", Names(GroupNames(sidebar.startHere))) + nextVersion + baseline;
  }

  /** One turn of the loop. */
  method PushLevel(level: Level, sidebar: Sidebar, nextVersion0: seq<Node>, baseline0: seq<Node>)
    returns (nextVersion: seq<Node>, baseline: seq<Node>)
    ensures nextVersion == nextVersion0 + NextOfLevel(level, sidebar)
    ensures baseline == baseline0 + Named(BaselineRoot(level.name), GroupNodes(level.groups))
  {
    nextVersion, baseline := nextVersion0, baseline0;
    if level.name == "Surfaces" {
      nextVersion := nextVersion + SurfacesNodes(sidebar);
    }
    if level.groups == [] {
      baseline := baseline + [Name(BaselineRoot(level.name))];
      return;
    }
    var children := ChildrenOf(level.groups);
    if level.name in sidebar.versioned {
      nextVersion := nextVersion
        + Under(level.name, if level.name in sidebar.pageTree then sidebar.composites else children);
    }
    baseline := baseline + Under(BaselineRoot(level.name), children);
  }

  method ChildrenOf(groups: seq<Group>) returns (children: seq<Node>)
    ensures children == GroupNodes(groups)
  {
    children := [];
    for i := 0 to |groups|
      invariant children == GroupNodes(groups[..i])
    {
      var group := groups[i];
      assert groups[..i + 1][..i] == groups[..i];
      children := children + [Name(group.name)];
      if group.subgroups != [] {
        children := children + [Children(Names(group.subgroups))];
      }
    }
    assert groups[..|groups|] == groups;
  }

  // ----- The tree of the sidebar -----

  function Leaves(names: seq<string>): (r: seq<Tree>)
    ensures |r| == |names| && forall i :: 0 <= i < |names| ==> r[i] == Tree(names[i], [])
  {
    if names == [] then [] else Leaves(names[..|names| - 1]) + [Tree(names[|names| - 1], [])]
  }

  function GroupTrees(groups: seq<Group>): (r: seq<Tree>)
    ensures |r| == |groups|
    ensures forall i :: 0 <= i < |groups| ==> r[i] == Tree(groups[i].name, Leaves(groups[i].subgroups))
  {
    if groups == [] then []
    else
      var last := groups[|groups| - 1];
      GroupTrees(groups[..|groups| - 1]) + [Tree(last.name, Leaves(last.subgroups))]
  }

  /** The current release: Patterns and Surfaces at the Surfaces level, and every versioned level that has groups. */
  function NextTreesOfLevel(level: Level, sidebar: Sidebar): seq<Tree> {
    (if level.name == "Surfaces"
     then [Tree("Patterns", Decode(sidebar.patterns)), Tree("Surfaces", Decode(sidebar.surfaces))] else [])
    + if level.groups != [] && level.name in sidebar.versioned
      then [Tree(level.name, if level.name in sidebar.pageTree then Decode(sidebar.composites)
                             else GroupTrees(level.groups))]
      else []
  }

  function NextTrees(levels: seq<Level>, sidebar: Sidebar): seq<Tree> {
    if levels == [] then []
    else NextTrees(levels[..|levels| - 1], sidebar) + NextTreesOfLevel(levels[|levels| - 1], sidebar)
  }

  /** The baseline: one root a level, with its groups and their subgroups. */
  function BaselineTrees(levels: seq<Level>): (r: seq<Tree>)
    ensures |r| == |levels|
    ensures forall i :: 0 <= i < |levels| ==> r[i] == Tree(BaselineRoot(levels[i].name), GroupTrees(levels[i].groups))
  {
    if levels == [] then []
    else
      var last := levels[|levels| - 1];
      BaselineTrees(levels[..|levels| - 1]) + [Tree(BaselineRoot(last.name), GroupTrees(last.groups))]
  }

  lemma DecodeLast(nodes: seq<Node>, last: Node)
    ensures last.Name? ==> Decode(nodes + [last]) == Decode(nodes) + [Tree(last.name, [])]
    ensures last.Children? ==> Decode(nodes + [last]) == Adopt(Decode(nodes), Decode(last.nodes))
  {
    assert (nodes + [last])[..|nodes|] == nodes;
  }

  lemma DecodeOneMore(a: seq<Node>, b: seq<Node>, last: Node)
    requires Decode(a + b) == Decode(a) + Decode(b) && (last.Name? || Decode(b) != [])
    ensures Decode((a + b) + [last]) == Decode(a) + Decode(b + [last])
  {
    var da, db := Decode(a), Decode(b);
    DecodeLast(b, last);
    DecodeLast(a + b, last);
    if last.Children? {
      AdoptAppend(da, db, Decode(last.nodes));
    } else {
      assert (da + db) + [Tree(last.name, [])] == da + (db + [Tree(last.name, [])]);
    }
  }

  /** A list that starts with a name continues another without touching it. */
  lemma {:induction false} DecodeAppend(a: seq<Node>, b: seq<Node>)
    requires b == [] || b[0].Name?
    ensures Decode(a + b) == Decode(a) + Decode(b)
    decreases |b|
  {
    if b == [] {
      assert a + b == a;
    } else {
      var front, last := b[..|b| - 1], b[|b| - 1];
      assert front + [last] == b && (a + front) + [last] == a + b;
      assert front == [] ==> last == b[0];
      assert front != [] ==> front[0] == b[0];
      LastNameOfNamed(front);
      DecodeAppend(a, front);
      DecodeOneMore(a, front, last);
    }
  }

  lemma {:induction false} LastNameOfNamed(nodes: seq<Node>)
    ensures nodes != [] && nodes[0].Name? ==> Decode(nodes) != []
    decreases |nodes|
  {
    if |nodes| > 1 {
      LastNameOfNamed(nodes[..|nodes| - 1]);
    }
  }

  lemma DecodeNamed(name: string, children: seq<Node>)
    ensures Decode(Under(name, children)) == [Tree(name, Decode(children))]
    ensures Decode(Named(name, children)) == [Tree(name, Decode(children))]
  {
    assert Decode([]) == [];
    assert [Name(name)][..0] == [];
    assert Decode([Name(name)]) == [Tree(name, [])];
    assert [Name(name), Children(children)][..1] == [Name(name)];
    assert [] + Decode(children) == Decode(children);
  }

  lemma {:induction false} DecodeNames(names: seq<string>)
    ensures Decode(Names(names)) == Leaves(names)
    decreases |names|
  {
    if names != [] {
      DecodeNames(names[..|names| - 1]);
      assert Names(names)[..|names| - 1] == Names(names[..|names| - 1]);
    }
  }

  lemma {:induction false} DecodeGroups(groups: seq<Group>)
    ensures Decode(GroupNodes(groups)) == GroupTrees(groups)
    decreases |groups|
  {
    if groups != [] {
      var front, last := groups[..|groups| - 1], groups[|groups| - 1];
      DecodeGroups(front);
      DecodeNames(last.subgroups);
      DecodeNamed(last.name, Names(last.subgroups));
      DecodeAppend(GroupNodes(front), Named(last.name, Names(last.subgroups)));
    }
  }

  lemma {:induction false} DecodeBaseline(levels: seq<Level>)
    ensures Decode(BaselineNodes(levels)) == BaselineTrees(levels)
    ensures BaselineNodes(levels) == [] || BaselineNodes(levels)[0].Name?
    decreases |levels|
  {
    if levels != [] {
      var front, last := levels[..|levels| - 1], levels[|levels| - 1];
      DecodeBaseline(front);
      DecodeGroups(last.groups);
      DecodeNamed(BaselineRoot(last.name), GroupNodes(last.groups));
      DecodeAppend(BaselineNodes(front), Named(BaselineRoot(last.name), GroupNodes(last.groups)));
    }
  }

  lemma EncodeLast(front: seq<Tree>, name: string, children: seq<Tree>)
    ensures Encode(front + [Tree(name, children)]) == Encode(front) + Named(name, Encode(children))
  {
    var forest := front + [Tree(name, children)];
    assert forest[..|forest| - 1] == front;
    if children == [] {
      assert Encode(front) + [Name(name)] + [] == Encode(front) + [Name(name)];
    } else {
      assert Encode(children) != [];
      assert Encode(front) + [Name(name)] + [Children(Encode(children))]
          == Encode(front) + [Name(name), Children(Encode(children))];
    }
  }

  lemma {:induction false} NamesAreEncoded(names: seq<string>)
    ensures Names(names) == Encode(Leaves(names))
  {
    if names != [] {
      var front, last := names[..|names| - 1], names[|names| - 1];
      NamesAreEncoded(front);
      EncodeLast(Leaves(front), last, []);
    }
  }

  lemma {:induction false} GroupsAreEncoded(groups: seq<Group>)
    ensures GroupNodes(groups) == Encode(GroupTrees(groups))
  {
    if groups != [] {
      var front, last := groups[..|groups| - 1], groups[|groups| - 1];
      GroupsAreEncoded(front);
      NamesAreEncoded(last.subgroups);
      EncodeLast(GroupTrees(front), last.name, Leaves(last.subgroups));
    }
  }

  /** The baseline is its trees in flat form, a name without children having no array behind it. */
  lemma {:induction false} BaselineIsEncoded(levels: seq<Level>)
    ensures BaselineNodes(levels) == Encode(BaselineTrees(levels))
  {
    if levels != [] {
      var front, last := levels[..|levels| - 1], levels[|levels| - 1];
      BaselineIsEncoded(front);
      GroupsAreEncoded(last.groups);
      EncodeLast(BaselineTrees(front), BaselineRoot(last.name), GroupTrees(last.groups));
    }
  }

  predicate NoEmptyArray(nodes: seq<Node>)
    decreases nodes
  {
    forall node :: node in nodes && node.Children? ==> node.nodes != [] && NoEmptyArray(node.nodes)
  }

  lemma {:induction false} EncodeHasNoEmptyArray(forest: seq<Tree>)
    ensures NoEmptyArray(Encode(forest)) && (Encode(forest) == [] <==> forest == [])
    decreases forest
  {
    if forest != [] {
      var front, last := forest[..|forest| - 1], forest[|forest| - 1];
      EncodeHasNoEmptyArray(front);
      EncodeHasNoEmptyArray(last.children);
    }
  }

  /** So the baseline has no empty array at any depth. */
  lemma BaselineHasNoEmptyArray(levels: seq<Level>)
    ensures NoEmptyArray(BaselineNodes(levels))
  {
    BaselineIsEncoded(levels);
    EncodeHasNoEmptyArray(BaselineTrees(levels));
  }

  lemma DecodeSurfaces(sidebar: Sidebar)
    ensures Decode(SurfacesNodes(sidebar))
            == [Tree("Patterns", Decode(sidebar.patterns)), Tree("Surfaces", Decode(sidebar.surfaces))]
  {
    DecodeNamed("Patterns", sidebar.patterns);
    DecodeNamed("Surfaces", sidebar.surfaces);
    DecodeAppend(Under("Patterns", sidebar.patterns), Under("Surfaces", sidebar.surfaces));
  }

  lemma DecodeNextOfLevel(level: Level, sidebar: Sidebar)
    ensures Decode(NextOfLevel(level, sidebar)) == NextTreesOfLevel(level, sidebar)
  {
    var children := if level.name in sidebar.pageTree then sidebar.composites else GroupNodes(level.groups);
    var own := if level.groups != [] && level.name in sidebar.versioned then Under(level.name, children) else [];
    DecodeSurfaces(sidebar);
    DecodeGroups(level.groups);
    DecodeNamed(level.name, children);
    DecodeAppend(if level.name == "Surfaces" then SurfacesNodes(sidebar) else [], own);
  }

  lemma {:induction false} DecodeNext(levels: seq<Level>, sidebar: Sidebar)
    ensures Decode(NextNodes(levels, sidebar)) == NextTrees(levels, sidebar)
    ensures NextNodes(levels, sidebar) == [] || NextNodes(levels, sidebar)[0].Name?
    decreases |levels|
  {
    if levels != [] {
      var front, last := levels[..|levels| - 1], levels[|levels| - 1];
      DecodeNext(front, sidebar);
      DecodeNextOfLevel(last, sidebar);
      DecodeAppend(NextNodes(front, sidebar), NextOfLevel(last, sidebar));
    }
  }

  /**
   * For any level table the order stands for: Start Here, then the current
   * release, then the baseline with one root for every level, each holding exactly
   * its groups and subgroups. So every current root comes before every baseline
   * root, and the collected paths under the baseline are those of its trees.
   */
  lemma SidebarTree(levels: seq<Level>, sidebar: Sidebar, order: seq<Node>, path: seq<string>)
    requires order == Under("Start Here", Names(GroupNames(sidebar.startHere)))
                      + NextNodes(levels, sidebar) + BaselineNodes(levels)
    ensures Decode(order) == [Tree("Start Here", Leaves(GroupNames(sidebar.startHere)))]
                             + NextTrees(levels, sidebar) + BaselineTrees(levels)
    ensures path in Collected(order, []) <==> IsPath(Decode(order), path)
  {
    var start := Under("Start Here", Names(GroupNames(sidebar.startHere)));
    DecodeNamed("Start Here", Names(GroupNames(sidebar.startHere)));
    DecodeNames(GroupNames(sidebar.startHere));
    DecodeNext(levels, sidebar);
    DecodeBaseline(levels);
    DecodeAppend(start, NextNodes(levels, sidebar));
    DecodeAppend(start + NextNodes(levels, sidebar), BaselineNodes(levels));
    CollectsThePaths(order, [], path);
    assert path[0..] == path;
  }

  /** The paths under a baseline root: the root, its groups, and their subgroups, and no others. */
  lemma BaselinePaths(levels: seq<Level>, path: seq<string>)
    ensures IsPath(BaselineTrees(levels), path) <==> exists level :: level in levels && IsBaselinePath(level, path)
  {
    var trees := BaselineTrees(levels);
    forall i | 0 <= i < |levels| ensures Leads(trees[i], path) <==> IsBaselinePath(levels[i], path) {
      if |path| > 1 {
        GroupPaths(levels[i].groups, path[1..]);
      }
    }
    if IsPath(trees, path) {
      var i :| 0 <= i < |trees| && Leads(trees[i], path);
      assert levels[i] in levels;
    }
    if level :| level in levels && IsBaselinePath(level, path) {
      var i :| 0 <= i < |levels| && levels[i] == level;
      assert trees[i] in trees;
    }
  }

  predicate IsBaselinePath(level: Level, path: seq<string>) {
    path != [] && path[0] == level.name + " v1.0" && (|path| == 1 || IsGroupPath(level.groups, path[1..]))
  }

  /** A group of the level, or one of its subgroups. */
  predicate IsGroupPath(groups: seq<Group>, path: seq<string>) {
    exists group :: group in groups && NamesGroup(group, path)
  }

  predicate NamesGroup(group: Group, path: seq<string>) {
    path != [] && path[0] == group.name && (|path| == 1 || (|path| == 2 && path[1] in group.subgroups))
  }

  lemma GroupPaths(groups: seq<Group>, path: seq<string>)
    ensures IsPath(GroupTrees(groups), path) <==> IsGroupPath(groups, path)
  {
    var trees := GroupTrees(groups);
    forall j | 0 <= j < |groups| ensures Leads(trees[j], path) <==> NamesGroup(groups[j], path) {
      if |path| > 1 {
        LeafPaths(groups[j].subgroups, path[1..]);
      }
    }
    if IsPath(trees, path) {
      var j :| 0 <= j < |trees| && Leads(trees[j], path);
      assert groups[j] in groups;
    }
    if group :| group in groups && NamesGroup(group, path) {
      var j :| 0 <= j < |groups| && groups[j] == group;
      assert trees[j] in trees;
    }
  }

  lemma LeafPaths(names: seq<string>, path: seq<string>)
    ensures IsPath(Leaves(names), path) <==> |path| == 1 && path[0] in names
  {
    var leaves := Leaves(names);
    forall i | 0 <= i < |names| ensures Leads(leaves[i], path) <==> path == [names[i]] {
      assert |path| > 1 ==> !IsPath([], path[1..]);
    }
    if IsPath(leaves, path) {
      var i :| 0 <= i < |leaves| && Leads(leaves[i], path);
      assert path == [names[i]];
    }
    if |path| == 1 && path[0] in names {
      var i :| 0 <= i < |names| && names[i] == path[0];
      assert path == [names[i]];
      assert leaves[i] in leaves;
    }
  }
}
