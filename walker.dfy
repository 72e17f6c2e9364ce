/**
 * `travel` and `parse`: the walk over the syntax tree that collects, in
 * source order, a test case for every test method of every class it reaches.
 */
module Walker {
  import opened Wrappers
  import opened Seqs
  import opened Ast
  import opened Classifier
  import opened TestCases

  /** The namespace in scope inside `n`: a namespace node rebinds it for its own subtree. */
  function Scope(n: Node, namespace: Option<Name>): Option<Name>
  {
    if n.Namespace? then Some(n.name) else namespace
  }

  /** The test cases of one class: its test members, in body order, each made a `TestCase`. */
  function ClassCases(filename: string, body: seq<Declaration>, clazz: Name, namespace: Option<Name>): seq<TestCase>
  {
    Map(Filter(body, IsTest), (d: Declaration) => NewTestCase(filename, d, clazz, namespace))
  }

  /**
   * `travel`: `None` (the source's `undefined`) for a use group and for a
   * node without children; the class's test cases for a class, without
   * descending further; and for a node with children the concatenation of
   * what its children yield.
   */
  function Travel(n: Node, filename: string, namespace: Option<Name>): (r: Option<seq<TestCase>>)
    decreases n, 1, 0
    ensures r.None? <==> n.UseGroup? || n.Leaf?
  {
    if n.UseGroup? then None
    else
      var scope := Scope(n, namespace);
      match n
      case Class(name, body, _) => Some(ClassCases(filename, body, name, scope))
      case Namespace(_, _) => Some(TravelChildren(n, 0, [], filename, scope))
      case Block(_) => Some(TravelChildren(n, 0, [], filename, scope))
      case Leaf => None
  }

  /** The `reduce` over a node's children from index `i` on: `acc.concat(travel(child) ?? [])`. */
  function TravelChildren(parent: Node, i: nat, acc: seq<TestCase>, filename: string, namespace: Option<Name>): seq<TestCase>
    requires parent.Namespace? || parent.Block?
    requires i <= |parent.children|
    decreases parent, 0, |parent.children| - i
  {
    if i == |parent.children| then acc
    else TravelChildren(parent, i + 1, acc + Travel(parent.children[i], filename, namespace).GetOr([]), filename, namespace)
  }

  /** `parse`, given the tree php-parser builds for the file: the walk from the root, outside any namespace. */
  function Parse(program: Node, filename: string): (r: Option<seq<TestCase>>)
    ensures r.None? <==> program.UseGroup? || program.Leaf?
  {
    Travel(program, filename, None)
  }

  /** What a sequence of sibling nodes yields: the concatenation, in order, of what each yields. */
  function Yield(nodes: seq<Node>, filename: string, namespace: Option<Name>): seq<TestCase>
  {
    if nodes == [] then []
    else Travel(nodes[0], filename, namespace).GetOr([]) + Yield(nodes[1..], filename, namespace)
  }

  /** The left fold over the children appends what the remaining children yield. */
  lemma {:induction false} TravelChildrenYields(parent: Node, i: nat, acc: seq<TestCase>, filename: string, namespace: Option<Name>)
    requires parent.Namespace? || parent.Block?
    requires i <= |parent.children|
    ensures TravelChildren(parent, i, acc, filename, namespace) == acc + Yield(parent.children[i..], filename, namespace)
    decreases |parent.children| - i
  {
    var cs := parent.children;
    if i < |cs| {
      var x := Travel(cs[i], filename, namespace).GetOr([]);
      var later := Yield(cs[i + 1..], filename, namespace);
      TravelChildrenYields(parent, i + 1, acc + x, filename, namespace);
      assert cs[i..][1..] == cs[i + 1..];
      assert Yield(cs[i..], filename, namespace) == x + later;
      assert (acc + x) + later == acc + (x + later);
    } else {
      assert cs[i..] == [];
      assert acc + [] == acc;
    }
  }

  /** A node with children yields the concatenation of its children's results, in child order. */
  lemma TravelContainer(n: Node, filename: string, namespace: Option<Name>)
    requires n.Namespace? || n.Block?
    ensures Travel(n, filename, namespace) == Some(Yield(n.children, filename, Scope(n, namespace)))
  {
    var scope := Scope(n, namespace);
    assert Travel(n, filename, namespace) == Some(TravelChildren(n, 0, [], filename, scope));
    TravelChildrenYields(n, 0, [], filename, scope);
    assert n.children[0..] == n.children;
    var y := Yield(n.children, filename, scope);
    assert [] + y == y;
  }

  /**
   * Siblings do not see each other's namespace: the nodes after the first
   * yield what they would yield without it, under the outer namespace.
   */
  lemma SiblingsIndependent(first: Node, rest: seq<Node>, filename: string, namespace: Option<Name>)
    ensures Travel(Block([first] + rest), filename, namespace).value
      == Travel(first, filename, namespace).GetOr([]) + Travel(Block(rest), filename, namespace).value
  {
    TravelContainer(Block([first] + rest), filename, namespace);
    TravelContainer(Block(rest), filename, namespace);
    assert ([first] + rest)[1..] == rest;
  }

  /**
   * A class yields one test case per test member, in body order, under the
   * namespace in scope; whether the class is abstract makes no difference.
   */
  lemma ClassYieldsItsTests(name: Name, body: seq<Declaration>, isAbstract: bool, filename: string, namespace: Option<Name>)
    ensures var tests := Filter(body, IsTest);
      var r := Travel(Class(name, body, isAbstract), filename, namespace);
      && r == Travel(Class(name, body, !isAbstract), filename, namespace)
      && r.Some? && |r.value| == |tests|
      && forall i :: 0 <= i < |tests| ==> r.value[i] == NewTestCase(filename, tests[i], name, namespace)
  {
  }

  /** A test case is in what the siblings yield exactly when one of them yields it. */
  lemma {:induction false} InYield(nodes: seq<Node>, filename: string, namespace: Option<Name>, t: TestCase)
    ensures t in Yield(nodes, filename, namespace)
      <==> exists j :: 0 <= j < |nodes| && t in Travel(nodes[j], filename, namespace).GetOr([])
  {
    if nodes != [] {
      InYield(nodes[1..], filename, namespace, t);
      assert forall j :: 1 <= j < |nodes| ==> nodes[j] == nodes[1..][j - 1];
    }
  }

  /** A node reached in the tree, with the namespace in scope there. */
  datatype Site = Site(node: Node, namespace: Option<Name>)

  /**
   * Follows `path` (child indices) down from `n`, entering only nodes with
   * children, and tracks the innermost namespace; `None` when the path leaves
   * the tree or tries to enter a use group, a class or a leaf.
   */
  function Locate(n: Node, path: seq<nat>, namespace: Option<Name>): Option<Site>
    decreases |path|
  {
    if path == [] then Some(Site(n, namespace))
    else if (n.Namespace? || n.Block?) && path[0] < |n.children| then
      Locate(n.children[path[0]], path[1..], Scope(n, namespace))
    else None
  }

  /**
   * `t` is what the walk should make of member `k` of the class at `path`:
   * a test member, built with the class's name and the namespace in scope.
   */
  ghost predicate ProducedAt(root: Node, path: seq<nat>, namespace: Option<Name>, k: nat, filename: string, t: TestCase)
  {
    match Locate(root, path, namespace)
    case None => false
    case Some(site) =>
      && site.node.Class?
      && k < |site.node.body|
      && IsTest(site.node.body[k])
      && t == NewTestCase(filename, site.node.body[k], site.node.name, site.namespace)
  }

  /** A class yields exactly the test cases of its own test members. */
  lemma InClassCases(filename: string, body: seq<Declaration>, clazz: Name, namespace: Option<Name>, t: TestCase)
    ensures t in ClassCases(filename, body, clazz, namespace)
      <==> exists k :: 0 <= k < |body| && IsTest(body[k]) && t == NewTestCase(filename, body[k], clazz, namespace)
  {
    InMapFilter(body, IsTest, (d: Declaration) => NewTestCase(filename, d, clazz, namespace), t);
  }

  /** Locating through a first step goes to that child, under the rebound namespace. */
  lemma LocateStep(n: Node, j: nat, rest: seq<nat>, namespace: Option<Name>)
    requires (n.Namespace? || n.Block?) && j < |n.children|
    ensures Locate(n, [j] + rest, namespace) == Locate(n.children[j], rest, Scope(n, namespace))
  {
    assert ([j] + rest)[1..] == rest;
  }

  /** Every test case the walk yields comes from a test member of a class reached in the tree. */
  lemma {:induction false} TravelSound(n: Node, filename: string, namespace: Option<Name>, t: TestCase)
    requires Travel(n, filename, namespace).Some? && t in Travel(n, filename, namespace).value
    ensures exists path, k :: ProducedAt(n, path, namespace, k, filename, t)
    decreases n
  {
    match n
    case Class(name, body, _) =>
      InClassCases(filename, body, name, namespace, t);
      var k :| 0 <= k < |body| && IsTest(body[k]) && t == NewTestCase(filename, body[k], name, namespace);
      assert ProducedAt(n, [], namespace, k, filename, t);
    case Namespace(_, cs) =>
      TravelContainerSound(n, filename, namespace, t);
    case Block(cs) =>
      TravelContainerSound(n, filename, namespace, t);
  }

  /** The container case of `TravelSound`: the test case comes from one child, one level down. */
  lemma {:induction false} TravelContainerSound(n: Node, filename: string, namespace: Option<Name>, t: TestCase)
    requires n.Namespace? || n.Block?
    requires t in Travel(n, filename, namespace).value
    ensures exists path, k :: ProducedAt(n, path, namespace, k, filename, t)
    decreases n, 0
  {
    var scope := Scope(n, namespace);
    TravelContainer(n, filename, namespace);
    InYield(n.children, filename, scope, t);
    var j :| 0 <= j < |n.children| && t in Travel(n.children[j], filename, scope).GetOr([]);
    TravelSound(n.children[j], filename, scope, t);
    var path, k :| ProducedAt(n.children[j], path, scope, k, filename, t);
    LocateStep(n, j, path, namespace);
    assert ProducedAt(n, [j] + path, namespace, k, filename, t);
  }

  /** Every test member of every class reached in the tree yields its test case. */
  lemma {:induction false} TravelComplete(n: Node, path: seq<nat>, namespace: Option<Name>, k: nat, filename: string, t: TestCase)
    requires ProducedAt(n, path, namespace, k, filename, t)
    ensures Travel(n, filename, namespace).Some? && t in Travel(n, filename, namespace).value
    decreases |path|
  {
    if path == [] {
      InClassCases(filename, n.body, n.name, namespace, t);
    } else {
      var j := path[0];
      var scope := Scope(n, namespace);
      LocateStep(n, j, path[1..], namespace);
      assert [j] + path[1..] == path;
      TravelComplete(n.children[j], path[1..], scope, k, filename, t);
      TravelContainer(n, filename, namespace);
      InYield(n.children, filename, scope, t);
    }
  }

  /**
   * The walk's specification: from a node with children (a program, a
   * namespace, a block) it yields a sequence, and a test case is in it
   * exactly when it is made from a test member of a class reached without
   * passing through a use group or another class, with the namespace of the
   * innermost enclosing namespace node.
   */
  lemma TravelSpec(n: Node, filename: string, namespace: Option<Name>)
    requires !n.UseGroup? && !n.Leaf?
    ensures Travel(n, filename, namespace).Some?
    ensures forall t :: (t in Travel(n, filename, namespace).value
      <==> exists path, k :: ProducedAt(n, path, namespace, k, filename, t))
  {
    forall t | t in Travel(n, filename, namespace).value
      ensures exists path, k :: ProducedAt(n, path, namespace, k, filename, t)
    {
      TravelSound(n, filename, namespace, t);
    }
    forall t | exists path, k :: ProducedAt(n, path, namespace, k, filename, t)
      ensures t in Travel(n, filename, namespace).value
    {
      var path, k :| ProducedAt(n, path, namespace, k, filename, t);
      TravelComplete(n, path, namespace, k, filename, t);
    }
  }

  /** Every test case the walk yields is well formed: its id and qualified class agree with its parts. */
  lemma TravelWellFormed(n: Node, filename: string, namespace: Option<Name>)
    requires Travel(n, filename, namespace).Some?
    ensures forall t :: t in Travel(n, filename, namespace).value ==> WellFormed(t) && t.filename == filename
  {
    forall t | t in Travel(n, filename, namespace).value
      ensures WellFormed(t) && t.filename == filename
    {
      TravelSound(n, filename, namespace, t);
    }
  }

  /**
   * `parse` on a program: a sequence holding exactly the test cases made from
   * the test members of the classes reached from the root, each under its
   * innermost enclosing namespace (none outside every namespace), all for the
   * given file.
   */
  lemma ParseSpec(program: Node, filename: string)
    requires program.Block?
    ensures Parse(program, filename).Some?
    ensures forall t :: (t in Parse(program, filename).value
      <==> exists path, k :: ProducedAt(program, path, None, k, filename, t))
    ensures forall t :: t in Parse(program, filename).value ==> WellFormed(t) && t.filename == filename
  {
    TravelSpec(program, filename, None);
    TravelWellFormed(program, filename, None);
  }

  /** A program whose classes have no test members yields the empty sequence, not `None`. */
  lemma NoTestsYieldsEmpty(program: Node, filename: string)
    requires program.Block?
    requires forall path, k, t :: !ProducedAt(program, path, None, k, filename, t)
    ensures Parse(program, filename) == Some([])
  {
    TravelSpec(program, filename, None);
    var r := Parse(program, filename).value;
    FirstIsMember(r);
  }
}
