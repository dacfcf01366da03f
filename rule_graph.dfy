// The node map of a rule, its root nodes and the validation of the rule's shape
// (rule.utils.ts, lines 298-366).
module RuleGraph {
  import opened Results
  import opened JsStrings
  import opened JsArrays
  import opened RuleEditorModel
  import opened RuleEditorTypings
  import opened RuleTree

  type NodeMap = map<string, RuleOperatorNode>

  /** The ids of the defined inputs in a list of node inputs. */
  function InputIdSet(inputs: seq<Option<string>>): (s: set<string>)
    ensures forall id :: id in s <==> Some(id) in inputs
    decreases |inputs|
  {
    if inputs == [] then {}
    else
      var last := inputs[|inputs| - 1];
      assert inputs == inputs[..|inputs| - 1] + [last];
      InputIdSet(inputs[..|inputs| - 1]) + (if last.Some? then {last.value} else {})
  }

  /** The `hasParent` set: every id some node names as an input. */
  function ParentedIds(nodes: seq<RuleOperatorNode>): set<string>
    decreases |nodes|
  {
    if nodes == [] then {}
    else ParentedIds(nodes[..|nodes| - 1]) + InputIdSet(nodes[|nodes| - 1].inputs)
  }

  /** An id has a parent exactly when some node names it as a defined input. */
  lemma {:induction false} ParentedIdsMembers(nodes: seq<RuleOperatorNode>)
    ensures forall id :: id in ParentedIds(nodes) <==> exists i :: 0 <= i < |nodes| && Some(id) in nodes[i].inputs
    decreases |nodes|
  {
    if nodes != [] {
      var init := nodes[..|nodes| - 1];
      ParentedIdsMembers(init);
      assert forall i :: 0 <= i < |init| ==> init[i] == nodes[i];
    }
  }

  /** `new Map(nodes.map(node => [node.nodeId, node]))`: a later node with the same id wins. */
  function NodeMapOf(nodes: seq<RuleOperatorNode>): NodeMap
    decreases |nodes|
  {
    if nodes == [] then map[]
    else
      var last := nodes[|nodes| - 1];
      NodeMapOf(nodes[..|nodes| - 1])[last.nodeId := last]
  }

  /** The map's keys are the listed ids, and each is sent to a listed node with that id. */
  lemma {:induction false} NodeMapOfMembers(nodes: seq<RuleOperatorNode>)
    ensures forall k :: k in NodeMapOf(nodes) <==> exists i :: 0 <= i < |nodes| && nodes[i].nodeId == k
    ensures forall k :: k in NodeMapOf(nodes) ==> NodeMapOf(nodes)[k].nodeId == k && NodeMapOf(nodes)[k] in nodes
    decreases |nodes|
  {
    if nodes != [] {
      var init := nodes[..|nodes| - 1];
      NodeMapOfMembers(init);
      assert forall i :: 0 <= i < |init| ==> init[i] == nodes[i];
      assert nodes == init + [nodes[|nodes| - 1]];
    }
  }

  /** Nodes of `nodes` whose id is not in `parented`, in their order. */
  function Unparented(nodes: seq<RuleOperatorNode>, parented: set<string>): seq<RuleOperatorNode>
    decreases |nodes|
  {
    if nodes == [] then []
    else
      var init := nodes[..|nodes| - 1];
      var last := nodes[|nodes| - 1];
      Unparented(init, parented) + (if last.nodeId !in parented then [last] else [])
  }

  /** The kept nodes are exactly the listed nodes whose id is not in `parented`. */
  lemma {:induction false} UnparentedMembers(nodes: seq<RuleOperatorNode>, parented: set<string>)
    ensures |Unparented(nodes, parented)| <= |nodes|
    ensures forall n :: n in Unparented(nodes, parented) <==> n in nodes && n.nodeId !in parented
    decreases |nodes|
  {
    if nodes != [] {
      var init := nodes[..|nodes| - 1];
      UnparentedMembers(init, parented);
      assert nodes == init + [nodes[|nodes| - 1]];
    }
  }

  lemma UnparentedSnoc(nodes: seq<RuleOperatorNode>, n: RuleOperatorNode, parented: set<string>)
    ensures Unparented(nodes + [n], parented) == Unparented(nodes, parented) + (if n.nodeId !in parented then [n] else [])
  {
    assert (nodes + [n])[..|nodes|] == nodes;
  }

  /** The root nodes: nodes that no node names as a defined input, in input order. */
  function RootNodes(nodes: seq<RuleOperatorNode>): seq<RuleOperatorNode>
  {
    Unparented(nodes, ParentedIds(nodes))
  }

  /** A node is a root exactly when it is listed and no listed node has it as an input. */
  lemma RootNodesSpec(nodes: seq<RuleOperatorNode>, n: RuleOperatorNode)
    ensures n in RootNodes(nodes) <==>
      n in nodes && forall i :: 0 <= i < |nodes| ==> Some(n.nodeId) !in nodes[i].inputs
  {
    UnparentedMembers(nodes, ParentedIds(nodes));
    ParentedIdsMembers(nodes);
  }

  /** With distinct node ids, the map sends each id to that very node. */
  predicate DistinctIds(nodes: seq<RuleOperatorNode>)
  {
    forall i, j :: 0 <= i < j < |nodes| ==> nodes[i].nodeId != nodes[j].nodeId
  }

  lemma {:induction false} NodeMapOfDistinct(nodes: seq<RuleOperatorNode>)
    requires DistinctIds(nodes)
    ensures forall i :: 0 <= i < |nodes| ==> nodes[i].nodeId in NodeMapOf(nodes) && NodeMapOf(nodes)[nodes[i].nodeId] == nodes[i]
    ensures |NodeMapOf(nodes)| == |nodes|
    decreases |nodes|
  {
    if nodes != [] {
      var init := nodes[..|nodes| - 1];
      var last := nodes[|nodes| - 1];
      assert DistinctIds(init) by {
        forall i, j | 0 <= i < j < |init| ensures init[i].nodeId != init[j].nodeId {
          assert init[i] == nodes[i] && init[j] == nodes[j];
        }
      }
      NodeMapOfDistinct(init);
      NodeMapOfMembers(init);
      forall i | 0 <= i < |init| ensures init[i].nodeId != last.nodeId {
        assert init[i] == nodes[i];
      }
      assert last.nodeId !in NodeMapOf(init);
      forall i | 0 <= i < |nodes|
        ensures nodes[i].nodeId in NodeMapOf(nodes) && NodeMapOf(nodes)[nodes[i].nodeId] == nodes[i]
      {
        if i < |init| {
          assert nodes[i] == init[i];
        }
      }
    }
  }

  // ---------------------------------------------------------------------------------
  // Reachability from the root, as `findCycles` walks it
  // ---------------------------------------------------------------------------------

  /** Every entry is stored under its own id, as `NodeMapOf` guarantees. */
  predicate KeyedById(m: NodeMap)
  {
    forall k :: k in m ==> m[k].nodeId == k
  }

  /** The node whose inputs the walk expands at id `k`: the root object itself at the root's id. */
  function Expanded(root: RuleOperatorNode, m: NodeMap, k: string): RuleOperatorNode
    requires k in m || k == root.nodeId
  {
    if k == root.nodeId then root else m[k]
  }

  /** An input the walk follows: defined, not empty, and present in the map. */
  predicate IsFollowed(m: NodeMap, input: Option<string>)
  {
    input.Some? && input.value != "" && input.value in m
  }

  /** The ids the walk steps to from id `k`. */
  function Successors(root: RuleOperatorNode, m: NodeMap, k: string): (s: set<string>)
    requires k in m || k == root.nodeId
    ensures s <= m.Keys
  {
    var inputs := Expanded(root, m, k).inputs;
    set j | 0 <= j < |inputs| && IsFollowed(m, inputs[j]) :: inputs[j].value
  }

  function Step(root: RuleOperatorNode, m: NodeMap, s: set<string>): (t: set<string>)
    requires s <= m.Keys
    ensures t <= m.Keys
    ensures forall k :: k in s ==> Successors(root, m, k) <= t
  {
    set k, c | k in s && c in Successors(root, m, k) :: c
  }

  predicate Closed(root: RuleOperatorNode, m: NodeMap, s: set<string>)
    requires s <= m.Keys
  {
    forall k :: k in s ==> Successors(root, m, k) <= s
  }

  lemma SmallerRemainder(keys: set<string>, a: set<string>, b: set<string>, x: string)
    requires a <= b && x in b && x !in a && x in keys
    ensures |keys - b| < |keys - a|
  {
    var d := (keys - a) - (keys - b);
    assert x in d;
    assert keys - a == (keys - b) + d;
    assert (keys - b) * d == {};
  }

  /** The least set containing `s` and closed under `Successors`. */
  function Closure(root: RuleOperatorNode, m: NodeMap, s: set<string>): (c: set<string>)
    requires s <= m.Keys
    ensures s <= c <= m.Keys
    ensures Closed(root, m, c)
    decreases |m.Keys - s|
  {
    var next := s + Step(root, m, s);
    if next == s then s
    else
      var x :| x in next && x !in s;
      SmallerRemainder(m.Keys, s, next, x);
      Closure(root, m, next)
  }

  lemma {:induction false} ClosureLeast(root: RuleOperatorNode, m: NodeMap, s: set<string>, x: set<string>)
    requires s <= x <= m.Keys && Closed(root, m, x)
    ensures Closure(root, m, s) <= x
    decreases |m.Keys - s|
  {
    var next := s + Step(root, m, s);
    if next != s {
      var y :| y in next && y !in s;
      SmallerRemainder(m.Keys, s, next, y);
      ClosureLeast(root, m, next, x);
    }
  }

  /** The ids the walk from the root reaches, the root's own id included. */
  function Reachable(root: RuleOperatorNode, m: NodeMap): (r: set<string>)
    requires root.nodeId in m
    ensures root.nodeId in r && r <= m.Keys && Closed(root, m, r)
  {
    Closure(root, m, {root.nodeId})
  }

  /** The reachable ids are contained in every closed set that holds the root's id. */
  lemma ReachableLeast(root: RuleOperatorNode, m: NodeMap, x: set<string>)
    requires root.nodeId in x && x <= m.Keys && Closed(root, m, x)
    ensures Reachable(root, m) <= x
  {
    ClosureLeast(root, m, {root.nodeId}, x);
  }

  function NotConnectedMessage(root: RuleOperatorNode, total: nat, visited: nat): string
  {
    "Root node '" + root.nodeLabel + "' is not connected to all nodes! There are overall " + NatToString(total)
    + " nodes, but only " + NatToString(visited) + " are part of the rule tree spanned by '" + root.nodeLabel + "'."
  }

  /**
   * What `findCycles` returns or throws: it throws when the walk from the root misses a
   * node of the map, and otherwise returns no cycle.
   */
  function FindCyclesOutcome(root: RuleOperatorNode, m: NodeMap): (r: Result<Option<seq<RuleOperatorNode>>, RuleError>)
    requires root.nodeId in m
    ensures r.Ok? <==> Reachable(root, m) == m.Keys
    ensures r.Ok? ==> r.value.None?
  {
    var visited := Reachable(root, m);
    if visited == m.Keys then Ok(None)
    else
      Err(ValidationError(NewRuleValidationError(NotConnectedMessage(root, |m|, |visited|), Some([FromNode(root)]))))
  }

  /** Each id of `ks` has all its successors in `visited`. */
  predicate Expands(root: RuleOperatorNode, m: NodeMap, ks: set<string>, visited: set<string>)
    requires ks <= m.Keys
  {
    forall k :: k in ks ==> Successors(root, m, k) <= visited
  }

  /** Expansions over two successive growths of the visited set compose. */
  lemma ExpandsChain(root: RuleOperatorNode, m: NodeMap, a: set<string>, b: set<string>, c: set<string>)
    requires a <= b <= c <= m.Keys
    requires Expands(root, m, b - a, b) && Expands(root, m, c - b, c)
    ensures Expands(root, m, c - a, c)
  {
  }

  /** Expanding one more id, whose successors are visited. */
  lemma ExpandsAdd(root: RuleOperatorNode, m: NodeMap, a: set<string>, k: string, c: set<string>)
    requires a + {k} <= c <= m.Keys
    requires Expands(root, m, c - (a + {k}), c) && Successors(root, m, k) <= c
    ensures Expands(root, m, c - a, c)
  {
  }

  /** A followed input of the node expanded at `k` is a successor of `k`. */
  lemma FollowedIsSuccessor(root: RuleOperatorNode, m: NodeMap, k: string, j: nat)
    requires k in m || k == root.nodeId
    requires j < |Expanded(root, m, k).inputs| && IsFollowed(m, Expanded(root, m, k).inputs[j])
    ensures Expanded(root, m, k).inputs[j].value in Successors(root, m, k)
  {
  }

  /** Once every followed input of the node at `k` is visited, `k` is expanded. */
  lemma SuccessorsWithin(root: RuleOperatorNode, m: NodeMap, k: string, v: set<string>)
    requires k in m || k == root.nodeId
    requires forall i :: 0 <= i < |Expanded(root, m, k).inputs| && IsFollowed(m, Expanded(root, m, k).inputs[i]) ==>
      Expanded(root, m, k).inputs[i].value in v
    ensures Successors(root, m, k) <= v
  {
  }

  /** The local state of one `findCycles` call: the root, the node map and the visited ids. */
  class CycleSearch {
    const root: RuleOperatorNode
    const nodeMap: NodeMap
    var visitedNodes: set<string>

    constructor(root: RuleOperatorNode, nodeMap: NodeMap)
      ensures this.root == root && this.nodeMap == nodeMap && visitedNodes == {}
    {
      this.root := root;
      this.nodeMap := nodeMap;
      visitedNodes := {};
    }

    /**
     * `iterate`: a visited node is returned as a one-node cycle; otherwise the node is
     * marked and its followed inputs are walked. The `forEach` callback's return value
     * is dropped, so an unvisited node always yields no cycle.
     */
    method Iterate(operatorNode: RuleOperatorNode) returns (r: Option<seq<RuleOperatorNode>>)
      requires KeyedById(nodeMap) && root.nodeId in nodeMap
      requires operatorNode.nodeId in Reachable(root, nodeMap)
      requires visitedNodes <= Reachable(root, nodeMap)
      requires operatorNode == root || root.nodeId in visitedNodes
      requires operatorNode.nodeId !in visitedNodes ==> operatorNode == Expanded(root, nodeMap, operatorNode.nodeId)
      modifies this
      ensures old(visitedNodes) <= visitedNodes <= Reachable(root, nodeMap)
      ensures operatorNode.nodeId in visitedNodes
      ensures Expands(root, nodeMap, visitedNodes - old(visitedNodes), visitedNodes)
      ensures operatorNode.nodeId in old(visitedNodes) ==> r == Some([operatorNode]) && visitedNodes == old(visitedNodes)
      ensures operatorNode.nodeId !in old(visitedNodes) ==> r.None?
      decreases |nodeMap.Keys - visitedNodes|, 1
    {
      if operatorNode.nodeId in visitedNodes {
        return Some([operatorNode]);
      }
      ghost var before := visitedNodes;
      visitedNodes := visitedNodes + {operatorNode.nodeId};
      VisitInputs(operatorNode, before);
      r := None;
    }

    /** The `forEach` over the inputs of a node `iterate` has just marked. */
    method VisitInputs(operatorNode: RuleOperatorNode, ghost before: set<string>)
      requires KeyedById(nodeMap) && root.nodeId in nodeMap
      requires operatorNode.nodeId in Reachable(root, nodeMap) && operatorNode.nodeId !in before
      requires operatorNode == Expanded(root, nodeMap, operatorNode.nodeId)
      requires visitedNodes == before + {operatorNode.nodeId} && visitedNodes <= Reachable(root, nodeMap)
      requires root.nodeId in visitedNodes
      modifies this
      ensures old(visitedNodes) <= visitedNodes <= Reachable(root, nodeMap)
      ensures Expands(root, nodeMap, visitedNodes - before, visitedNodes)
      decreases |nodeMap.Keys - before|, 0
    {
      ghost var reach := Reachable(root, nodeMap);
      var id := operatorNode.nodeId;
      var inputs := operatorNode.inputs;
      var j := 0;
      while j < |inputs|
        invariant 0 <= j <= |inputs|
        invariant before + {id} <= visitedNodes <= reach
        invariant forall i :: 0 <= i < j && IsFollowed(nodeMap, inputs[i]) ==> inputs[i].value in visitedNodes
        invariant Expands(root, nodeMap, visitedNodes - (before + {id}), visitedNodes)
      {
        var child := inputs[j];
        if child.Some? && child.value != "" && child.value in nodeMap {
          FollowedIsSuccessor(root, nodeMap, id, j);
          SmallerRemainder(nodeMap.Keys, before, visitedNodes, id);
          ghost var pre := visitedNodes;
          var result := Iterate(nodeMap[child.value]);
          ExpandsChain(root, nodeMap, before + {id}, pre, visitedNodes);
          if result.Some? {
            // `result.push(operatorNode); return result;` returns from the callback only.
            result := Some(result.value + [operatorNode]);
          }
        }
        j := j + 1;
      }
      SuccessorsWithin(root, nodeMap, id, visitedNodes);
      ExpandsAdd(root, nodeMap, before, id, visitedNodes);
    }
  }

  /** `findCycles`, as written. */
  method FindCycles(rootNode: RuleOperatorNode, nodeMap: NodeMap) returns (r: Result<Option<seq<RuleOperatorNode>>, RuleError>)
    requires KeyedById(nodeMap) && rootNode.nodeId in nodeMap
    ensures r == FindCyclesOutcome(rootNode, nodeMap)
  {
    var search := new CycleSearch(rootNode, nodeMap);
    var result := search.Iterate(rootNode);
    ReachableLeast(rootNode, nodeMap, search.visitedNodes);
    var visited := search.visitedNodes;
    assert visited == Reachable(rootNode, nodeMap);
    if |visited| != |nodeMap| {
      assert visited != nodeMap.Keys;
      var message := NotConnectedMessage(rootNode, |nodeMap|, |visited|);
      return Err(ValidationError(NewRuleValidationError(message, Some([FromNode(rootNode)]))));
    }
    SameSizeSubset(visited, nodeMap.Keys);
    r := if result.Some? then Ok(Some(Reverse(result.GetOr([])))) else Ok(None);
  }

  lemma SameSizeSubset(a: set<string>, b: set<string>)
    requires a <= b && |a| == |b|
    ensures a == b
  {
    assert b == a + (b - a);
    assert a * (b - a) == {};
    assert |b - a| == 0;
  }

  // ---------------------------------------------------------------------------------
  // findCycles as evidently intended: the path found below a node is returned from it
  // ---------------------------------------------------------------------------------

  /** `rank` numbers every id of `s`, and each step from an id of `s` goes to a higher number. */
  predicate Ranked(root: RuleOperatorNode, m: NodeMap, s: set<string>, rank: map<string, nat>)
    requires s <= m.Keys
  {
    forall k :: k in s ==> RankedAt(root, m, k, rank)
  }

  /** `k` has a number, and every followed input of the node at `k` has a higher one. */
  predicate RankedAt(root: RuleOperatorNode, m: NodeMap, k: string, rank: map<string, nat>)
    requires k in m || k == root.nodeId
  {
    var inputs := Expanded(root, m, k).inputs;
    k in rank && forall i :: 0 <= i < |inputs| && IsFollowed(m, inputs[i]) ==> inputs[i].value in rank && rank[inputs[i].value] > rank[k]
  }

  /** The rule seen from the root has no cycle: some numbering of its ids rises along every step. */
  ghost predicate Acyclic(root: RuleOperatorNode, m: NodeMap)
    requires root.nodeId in m
  {
    exists rank: map<string, nat> :: Ranked(root, m, Reachable(root, m), rank)
  }

  /** `to` is a followed input of `from`. */
  predicate StepsTo(root: RuleOperatorNode, m: NodeMap, from: RuleOperatorNode, to: RuleOperatorNode)
  {
    (from.nodeId in m || from.nodeId == root.nodeId) && IsFollowed(m, Some(to.nodeId))
    && Some(to.nodeId) in Expanded(root, m, from.nodeId).inputs
  }

  /** `p` follows inputs: each node after the first is a followed input of the node before it. */
  predicate IsWalk(root: RuleOperatorNode, m: NodeMap, p: seq<RuleOperatorNode>)
  {
    forall i :: 0 <= i < |p| - 1 ==> StepsTo(root, m, p[i], p[i + 1])
  }

  /** `p` is a walk read backwards, as the path is collected while the recursion unwinds. */
  predicate IsWalkBack(root: RuleOperatorNode, m: NodeMap, p: seq<RuleOperatorNode>)
  {
    forall i :: 0 <= i < |p| - 1 ==> StepsTo(root, m, p[i + 1], p[i])
  }

  /** Along a walk inside a ranked set the number rises by at least one per step. */
  lemma {:induction false} WalkRises(root: RuleOperatorNode, m: NodeMap, s: set<string>, rank: map<string, nat>, p: seq<RuleOperatorNode>)
    requires s <= m.Keys && |p| >= 1 && IsWalk(root, m, p)
    requires forall i :: 0 <= i < |p| ==> p[i].nodeId in s
    ensures Ranked(root, m, s, rank) ==>
      p[0].nodeId in rank && p[|p| - 1].nodeId in rank && rank[p[|p| - 1].nodeId] >= rank[p[0].nodeId] + |p| - 1
    decreases |p|
  {
    if |p| > 1 && Ranked(root, m, s, rank) {
      var init := p[..|p| - 1];
      assert forall i :: 0 <= i < |init| - 1 ==> StepsTo(root, m, init[i], init[i + 1]) by {
        assert forall i :: 0 <= i < |init| ==> init[i] == p[i];
      }
      WalkRises(root, m, s, rank, init);
      assert StepsTo(root, m, p[|p| - 2], p[|p| - 1]);
    }
  }

  /** In an acyclic rule no walk through reachable nodes comes back to where it started. */
  lemma AcyclicHasNoReturningWalk(root: RuleOperatorNode, m: NodeMap, p: seq<RuleOperatorNode>)
    requires root.nodeId in m && |p| >= 2 && IsWalk(root, m, p)
    requires forall i :: 0 <= i < |p| ==> p[i].nodeId in Reachable(root, m)
    ensures Acyclic(root, m) ==> p[0].nodeId != p[|p| - 1].nodeId
  {
    if Acyclic(root, m) {
      var rank :| Ranked(root, m, Reachable(root, m), rank);
      WalkRises(root, m, Reachable(root, m), rank, p);
    }
  }

  /**
   * As written, a cycle below the root passes the validation: R has input A, A has input
   * B and B has input A. R is the only root and reaches every node, `iterate` meets A a
   * second time under B, but the path it returns is dropped by the `forEach` callback.
   */
  lemma CycleAcceptedAsWritten(r: RuleOperatorNode, a: RuleOperatorNode, b: RuleOperatorNode)
    requires r.nodeId == "R" && r.inputs == [Some("A")]
    requires a.nodeId == "A" && a.inputs == [Some("B")]
    requires b.nodeId == "B" && b.inputs == [Some("A")]
    ensures NodeMapOutcome([r, a, b], true) == Ok((NodeMapOf([r, a, b]), [r]))
    ensures !Acyclic(r, NodeMapOf([r, a, b]))
  {
    var nodes := [r, a, b];
    var m := NodeMapOf(nodes);
    NodeMapOfSnoc([], r);
    NodeMapOfSnoc([r], a);
    NodeMapOfSnoc([r, a], b);
    assert [r] + [a] == [r, a] && [r, a] + [b] == nodes;
    ParentedIdsSnoc([], r);
    ParentedIdsSnoc([r], a);
    ParentedIdsSnoc([r, a], b);
    assert InputIdSet(r.inputs) == {"A"} && InputIdSet(a.inputs) == {"B"} && InputIdSet(b.inputs) == {"A"};
    var parented := ParentedIds(nodes);
    assert parented == {"A", "B"};
    assert RootNodes(nodes) == [r] by {
      UnparentedSnoc([], r, parented);
      UnparentedSnoc([r], a, parented);
      UnparentedSnoc([r, a], b, parented);
    }
    assert m.Keys == {"R", "A", "B"} && m["R"] == r && m["A"] == a && m["B"] == b;
    TwoCycle(r, a, b, m);
  }

  /** The root of a map where it feeds `A`, and `A` and `B` feed each other, reaches every node but is not acyclic. */
  lemma TwoCycle(r: RuleOperatorNode, a: RuleOperatorNode, b: RuleOperatorNode, m: NodeMap)
    requires r.nodeId == "R" && r.inputs == [Some("A")]
    requires a.nodeId == "A" && a.inputs == [Some("B")]
    requires b.nodeId == "B" && b.inputs == [Some("A")]
    requires m.Keys == {"R", "A", "B"} && m["R"] == r && m["A"] == a && m["B"] == b
    ensures Reachable(r, m) == m.Keys && !Acyclic(r, m)
  {
    assert IsFollowed(m, r.inputs[0]) && IsFollowed(m, a.inputs[0]) && IsFollowed(m, b.inputs[0]);
    assert "A" in Successors(r, m, "R") && "B" in Successors(r, m, "A");
    assert StepsTo(r, m, a, b) && StepsTo(r, m, b, a);
    AcyclicHasNoReturningWalk(r, m, [a, b, a]);
  }

  /** A ranking survives renumbering that keeps every number already given. */
  predicate Extends(a: map<string, nat>, b: map<string, nat>)
  {
    forall k :: k in a ==> k in b && b[k] == a[k]
  }

  lemma ExtendsTrans(a: map<string, nat>, b: map<string, nat>, c: map<string, nat>)
    requires Extends(a, b) && Extends(b, c)
    ensures Extends(a, c)
  {
  }

  /** The followed inputs before `j` keep their numbers, and the one at `j` has one above `bound` too. */
  lemma KeepAbove(m: NodeMap, inputs: seq<Option<string>>, j: nat, o1: map<string, nat>, o2: map<string, nat>, bound: nat)
    requires j < |inputs| && Extends(o1, o2)
    requires forall i :: 0 <= i < j && IsFollowed(m, inputs[i]) ==> inputs[i].value in o1 && o1[inputs[i].value] > bound
    requires IsFollowed(m, inputs[j]) ==> inputs[j].value in o2 && o2[inputs[j].value] > bound
    ensures forall i :: 0 <= i < j + 1 && IsFollowed(m, inputs[i]) ==> inputs[i].value in o2 && o2[inputs[i].value] > bound
  {
  }

  lemma RankedChain(root: RuleOperatorNode, m: NodeMap, a: set<string>, b: set<string>, c: set<string>,
                    r1: map<string, nat>, r2: map<string, nat>)
    requires a <= b <= c <= m.Keys
    requires Ranked(root, m, b - a, r1) && Extends(r1, r2) && Ranked(root, m, c - b, r2)
    ensures Ranked(root, m, c - a, r2)
  {
    forall k | k in c - a ensures RankedAt(root, m, k, r2) {
      if k in b - a {
        assert RankedAt(root, m, k, r1);
      }
    }
  }

  lemma RankedAddOne(root: RuleOperatorNode, m: NodeMap, a: set<string>, k: string, c: set<string>, rank: map<string, nat>)
    requires a + {k} <= c <= m.Keys && k in rank
    requires Ranked(root, m, c - (a + {k}), rank)
    requires forall x :: x in Successors(root, m, k) ==> x in rank && rank[x] > rank[k]
    ensures Ranked(root, m, c - a, rank)
  {
  }

  /** Once every followed input of the node at `k` has a number above `bound`, so do its successors. */
  lemma SuccessorsAbove(root: RuleOperatorNode, m: NodeMap, k: string, rank: map<string, nat>, bound: nat)
    requires k in m || k == root.nodeId
    requires forall i :: 0 <= i < |Expanded(root, m, k).inputs| && IsFollowed(m, Expanded(root, m, k).inputs[i]) ==>
      Expanded(root, m, k).inputs[i].value in rank && rank[Expanded(root, m, k).inputs[i].value] > bound
    ensures forall x :: x in Successors(root, m, k) ==> x in rank && rank[x] > bound
  {
  }

  lemma WalkBackSnoc(root: RuleOperatorNode, m: NodeMap, p: seq<RuleOperatorNode>, n: RuleOperatorNode)
    requires |p| >= 1 && IsWalkBack(root, m, p)
    requires StepsTo(root, m, n, p[|p| - 1])
    ensures IsWalkBack(root, m, p + [n])
  {
    var q := p + [n];
    forall i | 0 <= i < |q| - 1 ensures StepsTo(root, m, q[i + 1], q[i]) {
      if i < |p| - 1 {
        assert q[i] == p[i] && q[i + 1] == p[i + 1];
      }
    }
  }

  lemma ReverseWalkBack(root: RuleOperatorNode, m: NodeMap, p: seq<RuleOperatorNode>)
    requires IsWalkBack(root, m, p)
    ensures IsWalk(root, m, Reverse(p))
  {
    var q := Reverse(p);
    forall i | 0 <= i < |q| - 1 ensures StepsTo(root, m, q[i], q[i + 1]) {
      assert q[i] == p[|p| - 1 - i] && q[i + 1] == p[|p| - 2 - i];
    }
  }

  lemma RankedClosed(root: RuleOperatorNode, m: NodeMap, s: set<string>, rank: map<string, nat>)
    requires s <= m.Keys && (forall k :: k in rank <==> k in s) && Ranked(root, m, s, rank)
    ensures Closed(root, m, s)
  {
  }

  lemma GrownSize(a: set<string>, k: string, b: set<string>)
    requires k !in a && a + {k} <= b
    ensures |b| > |a|
  {
    assert b == (a + {k}) + (b - (a + {k}));
    assert (a + {k}) * (b - (a + {k})) == {};
  }

  /**
   * `iterate` with the evidently intended early return, the closure's `visitedNodes` passed
   * in and out, and the ghost `order` numbering the ids in the order they were marked. A
   * visited node ends the path; otherwise the node is marked, its inputs are walked, and a
   * path found below it is returned with the node appended. When nothing is found, every id
   * marked meanwhile steps only to ids marked after it.
   */
  method IterateIntended(root: RuleOperatorNode, nodeMap: NodeMap, ghost reach: set<string>, operatorNode: RuleOperatorNode,
                         visitedNodes: set<string>, ghost order: map<string, nat>)
    returns (r: Option<seq<RuleOperatorNode>>, visited: set<string>, ghost order': map<string, nat>)
    requires KeyedById(nodeMap) && root.nodeId in nodeMap
    requires reach <= nodeMap.Keys && Closed(root, nodeMap, reach)
    requires operatorNode.nodeId in reach
    requires visitedNodes <= reach && (forall k :: k in order <==> k in visitedNodes)
    requires operatorNode == root || root.nodeId in visitedNodes
    requires operatorNode.nodeId !in visitedNodes ==> operatorNode == Expanded(root, nodeMap, operatorNode.nodeId)
    ensures visitedNodes <= visited <= reach && (forall k :: k in order' <==> k in visited)
    ensures Extends(order, order')
    ensures operatorNode.nodeId in visitedNodes ==> r == Some([operatorNode]) && visited == visitedNodes
    ensures operatorNode.nodeId !in visitedNodes ==>
      operatorNode.nodeId in order' && order'[operatorNode.nodeId] == |visitedNodes|
    ensures operatorNode.nodeId !in visitedNodes && r.None? ==> Ranked(root, nodeMap, visited - visitedNodes, order')
    ensures r.Some? ==> |r.value| >= 1 && IsWalkBack(root, nodeMap, r.value) && r.value[|r.value| - 1] == operatorNode
    ensures operatorNode.nodeId !in visitedNodes && r.Some? ==> |r.value| >= 2
    decreases |nodeMap.Keys - visitedNodes|, 2
  {
    if operatorNode.nodeId in visitedNodes {
      return Some([operatorNode]), visitedNodes, order;
    }
    r, visited, order' := VisitInputsIntended(root, nodeMap, reach, operatorNode, visitedNodes, order);
  }

  /**
   * The walk's state after the inputs before `j` of a node marked with the number `|before|`:
   * the ids marked since lie below the node, those inputs have higher numbers, and every id
   * marked since steps only to ids marked after it.
   */
  ghost predicate InputsWalked(root: RuleOperatorNode, nodeMap: NodeMap, reach: set<string>, operatorNode: RuleOperatorNode, before: set<string>,
                               start: map<string, nat>, j: nat, visited: set<string>, order: map<string, nat>)
    requires root.nodeId in nodeMap && reach <= nodeMap.Keys
  {
    var inputs := operatorNode.inputs;
    && j <= |inputs|
    && before + {operatorNode.nodeId} <= visited <= reach
    && (forall k :: k in order <==> k in visited)
    && Extends(start, order)
    && (forall i :: 0 <= i < j && IsFollowed(nodeMap, inputs[i]) ==> inputs[i].value in order && order[inputs[i].value] > |before|)
    && Ranked(root, nodeMap, visited - (before + {operatorNode.nodeId}), order)
  }

  lemma WalkedSkip(root: RuleOperatorNode, nodeMap: NodeMap, reach: set<string>, operatorNode: RuleOperatorNode, before: set<string>,
                   start: map<string, nat>, j: nat, visited: set<string>, order: map<string, nat>)
    requires root.nodeId in nodeMap && reach <= nodeMap.Keys && j < |operatorNode.inputs| && !IsFollowed(nodeMap, operatorNode.inputs[j])
    requires InputsWalked(root, nodeMap, reach, operatorNode, before, start, j, visited, order)
    ensures InputsWalked(root, nodeMap, reach, operatorNode, before, start, j + 1, visited, order)
  {
  }

  /** A followed input walked without finding a path: it was marked after the node, and the walk below it is ranked. */
  lemma WalkedStep(root: RuleOperatorNode, nodeMap: NodeMap, reach: set<string>, operatorNode: RuleOperatorNode, before: set<string>,
                   start: map<string, nat>, j: nat, visited: set<string>, order: map<string, nat>,
                   visited': set<string>, order': map<string, nat>)
    requires root.nodeId in nodeMap && reach <= nodeMap.Keys && j < |operatorNode.inputs| && IsFollowed(nodeMap, operatorNode.inputs[j])
    requires operatorNode.nodeId !in before
    requires InputsWalked(root, nodeMap, reach, operatorNode, before, start, j, visited, order)
    requires visited <= visited' <= reach && (forall k :: k in order' <==> k in visited')
    requires Extends(order, order')
    requires operatorNode.inputs[j].value !in visited
    requires operatorNode.inputs[j].value in order' && order'[operatorNode.inputs[j].value] == |visited|
    requires Ranked(root, nodeMap, visited' - visited, order')
    ensures InputsWalked(root, nodeMap, reach, operatorNode, before, start, j + 1, visited', order')
  {
    GrownSize(before, operatorNode.nodeId, visited);
    KeepAbove(nodeMap, operatorNode.inputs, j, order, order', |before|);
    ExtendsTrans(start, order, order');
    RankedChain(root, nodeMap, before + {operatorNode.nodeId}, visited, visited', order, order');
  }

  /** The turn at `j` found no path: the walk's state covers the inputs before `j + 1`. */
  lemma WalkedInput(root: RuleOperatorNode, nodeMap: NodeMap, reach: set<string>, operatorNode: RuleOperatorNode, before: set<string>,
                    start: map<string, nat>, j: nat, visited: set<string>, order: map<string, nat>,
                    visited': set<string>, order': map<string, nat>)
    requires root.nodeId in nodeMap && reach <= nodeMap.Keys && j < |operatorNode.inputs|
    requires operatorNode.nodeId !in before
    requires InputsWalked(root, nodeMap, reach, operatorNode, before, start, j, visited, order)
    requires visited <= visited' <= reach && (forall k :: k in order' <==> k in visited')
    requires Extends(order, order')
    requires !IsFollowed(nodeMap, operatorNode.inputs[j]) ==> visited' == visited && order' == order
    requires IsFollowed(nodeMap, operatorNode.inputs[j]) ==>
      && operatorNode.inputs[j].value !in visited
      && operatorNode.inputs[j].value in order' && order'[operatorNode.inputs[j].value] == |visited|
      && Ranked(root, nodeMap, visited' - visited, order')
    ensures InputsWalked(root, nodeMap, reach, operatorNode, before, start, j + 1, visited', order')
  {
    if IsFollowed(nodeMap, operatorNode.inputs[j]) {
      WalkedStep(root, nodeMap, reach, operatorNode, before, start, j, visited, order, visited', order');
    } else {
      WalkedSkip(root, nodeMap, reach, operatorNode, before, start, j, visited, order);
    }
  }

  /** Before the loop: the node was just marked with the number `|before|`. */
  lemma InputsStart(root: RuleOperatorNode, nodeMap: NodeMap, reach: set<string>, operatorNode: RuleOperatorNode, before: set<string>,
                    beforeOrder: map<string, nat>, start: map<string, nat>)
    requires root.nodeId in nodeMap && reach <= nodeMap.Keys && operatorNode.nodeId in reach
    requires before <= reach && (forall k :: k in beforeOrder <==> k in before)
    requires start == beforeOrder[operatorNode.nodeId := |before|]
    ensures InputsWalked(root, nodeMap, reach, operatorNode, before, start, 0, before + {operatorNode.nodeId}, start)
  {
    assert (before + {operatorNode.nodeId}) - (before + {operatorNode.nodeId}) == {};
  }

  /** After the loop: the node steps only to ids marked after it, so the whole walk below it is ranked. */
  lemma InputsDone(root: RuleOperatorNode, nodeMap: NodeMap, reach: set<string>, operatorNode: RuleOperatorNode, before: set<string>,
                   beforeOrder: map<string, nat>, start: map<string, nat>, visited: set<string>, order: map<string, nat>)
    requires root.nodeId in nodeMap && reach <= nodeMap.Keys
    requires operatorNode.nodeId in reach && operatorNode.nodeId !in before
    requires operatorNode == Expanded(root, nodeMap, operatorNode.nodeId)
    requires (forall k :: k in beforeOrder <==> k in before)
    requires start == beforeOrder[operatorNode.nodeId := |before|]
    requires InputsWalked(root, nodeMap, reach, operatorNode, before, start, |operatorNode.inputs|, visited, order)
    ensures Extends(beforeOrder, order)
    ensures Ranked(root, nodeMap, visited - before, order)
  {
    SuccessorsAbove(root, nodeMap, operatorNode.nodeId, order, |before|);
    RankedAddOne(root, nodeMap, before, operatorNode.nodeId, visited, order);
    ExtendsTrans(beforeOrder, start, order);
  }

  /** Marks a node `iterate` reached for the first time and walks its inputs, stopping at the first path found. */
  method VisitInputsIntended(root: RuleOperatorNode, nodeMap: NodeMap, ghost reach: set<string>, operatorNode: RuleOperatorNode,
                             before: set<string>, ghost beforeOrder: map<string, nat>)
    returns (r: Option<seq<RuleOperatorNode>>, visited: set<string>, ghost order: map<string, nat>)
    requires KeyedById(nodeMap) && root.nodeId in nodeMap
    requires reach <= nodeMap.Keys && Closed(root, nodeMap, reach)
    requires operatorNode.nodeId in reach && operatorNode.nodeId !in before
    requires operatorNode == Expanded(root, nodeMap, operatorNode.nodeId)
    requires before <= reach && (forall k :: k in beforeOrder <==> k in before)
    requires operatorNode == root || root.nodeId in before
    ensures before <= visited <= reach && (forall k :: k in order <==> k in visited)
    ensures Extends(beforeOrder, order)
    ensures operatorNode.nodeId in order && order[operatorNode.nodeId] == |before|
    ensures r.None? ==> Ranked(root, nodeMap, visited - before, order)
    ensures r.Some? ==> |r.value| >= 2 && IsWalkBack(root, nodeMap, r.value) && r.value[|r.value| - 1] == operatorNode
    decreases |nodeMap.Keys - before|, 1
  {
    var id := operatorNode.nodeId;
    visited := before + {id};
    order := beforeOrder[id := |before|];
    ghost var start := order;
    InputsStart(root, nodeMap, reach, operatorNode, before, beforeOrder, start);
    var j := 0;
    while j < |operatorNode.inputs|
      invariant InputsWalked(root, nodeMap, reach, operatorNode, before, start, j, visited, order)
    {
      var result, visited', order' := VisitInputIntended(root, nodeMap, reach, operatorNode, before, j, visited, order);
      if result.Some? {
        ExtendsTrans(start, order, order');
        ExtendsTrans(beforeOrder, start, order');
        return result, visited', order';
      }
      WalkedInput(root, nodeMap, reach, operatorNode, before, start, j, visited, order, visited', order');
      visited, order := visited', order';
      j := j + 1;
    }
    InputsDone(root, nodeMap, reach, operatorNode, before, beforeOrder, start, visited, order);
    r := None;
  }

  /** One turn of the loop over the inputs: the input at `j` is walked when it is followed. */
  method VisitInputIntended(root: RuleOperatorNode, nodeMap: NodeMap, ghost reach: set<string>, operatorNode: RuleOperatorNode,
                            ghost before: set<string>, j: nat, visited: set<string>, ghost order: map<string, nat>)
    returns (r: Option<seq<RuleOperatorNode>>, visited': set<string>, ghost order': map<string, nat>)
    requires KeyedById(nodeMap) && root.nodeId in nodeMap
    requires reach <= nodeMap.Keys && Closed(root, nodeMap, reach)
    requires operatorNode.nodeId in reach && operatorNode == Expanded(root, nodeMap, operatorNode.nodeId)
    requires operatorNode.nodeId !in before && before + {operatorNode.nodeId} <= visited <= reach
    requires root.nodeId in visited && (forall k :: k in order <==> k in visited)
    requires j < |operatorNode.inputs|
    ensures visited <= visited' <= reach && (forall k :: k in order' <==> k in visited')
    ensures Extends(order, order')
    ensures !IsFollowed(nodeMap, operatorNode.inputs[j]) ==> r.None? && visited' == visited && order' == order
    ensures IsFollowed(nodeMap, operatorNode.inputs[j]) && r.None? ==>
      && operatorNode.inputs[j].value !in visited
      && operatorNode.inputs[j].value in order' && order'[operatorNode.inputs[j].value] == |visited|
      && Ranked(root, nodeMap, visited' - visited, order')
    ensures r.Some? ==> |r.value| >= 2 && IsWalkBack(root, nodeMap, r.value) && r.value[|r.value| - 1] == operatorNode
    decreases |nodeMap.Keys - before|, 0
  {
    var child := operatorNode.inputs[j];
    if !(child.Some? && child.value != "" && child.value in nodeMap) {
      return None, visited, order;
    }
    var next := nodeMap[child.value];
    FollowedIsSuccessor(root, nodeMap, operatorNode.nodeId, j);
    SmallerRemainder(nodeMap.Keys, before, visited, operatorNode.nodeId);
    assert StepsTo(root, nodeMap, operatorNode, next);
    r, visited', order' := IterateIntended(root, nodeMap, reach, next, visited, order);
    if r.Some? {
      WalkBackSnoc(root, nodeMap, r.value, operatorNode);
      r := Some(r.value + [operatorNode]);
    }
  }

  /**
   * `findCycles` with the evidently intended early return. A path it returns starts at the
   * root and follows inputs; when it returns none the rule is acyclic; it throws whenever the
   * root does not reach every node.
   */
  method FindCyclesIntended(rootNode: RuleOperatorNode, nodeMap: NodeMap) returns (r: Result<Option<seq<RuleOperatorNode>>, RuleError>)
    requires KeyedById(nodeMap) && rootNode.nodeId in nodeMap
    ensures Reachable(rootNode, nodeMap) != nodeMap.Keys ==> r.Err?
    ensures r.Err? ==> r.error.ValidationError?
    ensures r == Ok(None) ==> Reachable(rootNode, nodeMap) == nodeMap.Keys && Acyclic(rootNode, nodeMap)
    ensures r.Ok? && r.value.Some? ==>
      |r.value.value| >= 2 && r.value.value[0] == rootNode && IsWalk(rootNode, nodeMap, r.value.value)
  {
    var result, visited, order := IterateIntended(rootNode, nodeMap, Reachable(rootNode, nodeMap), rootNode, {}, map[]);
    if |visited| != |nodeMap| {
      var message := NotConnectedMessage(rootNode, |nodeMap|, |visited|);
      return Err(ValidationError(NewRuleValidationError(message, Some([FromNode(rootNode)]))));
    }
    SameSizeSubset(visited, nodeMap.Keys);
    if result.Some? {
      ReverseWalkBack(rootNode, nodeMap, result.value);
      r := Ok(Some(Reverse(result.value)));
    } else {
      RankedClosed(rootNode, nodeMap, visited, order);
      ReachableLeast(rootNode, nodeMap, visited);
      assert Ranked(rootNode, nodeMap, Reachable(rootNode, nodeMap), order);
      r := Ok(None);
    }
  }

  function Reverse<T>(s: seq<T>): (r: seq<T>)
    ensures |r| == |s| && forall i :: 0 <= i < |s| ==> r[i] == s[|s| - 1 - i]
  {
    if s == [] then [] else Reverse(s[1..]) + [s[0]]
  }

  // ---------------------------------------------------------------------------------
  // convertToRuleOperatorNodeMap
  // ---------------------------------------------------------------------------------

  function Labels(nodes: seq<RuleOperatorNode>): (ls: seq<string>)
    ensures |ls| == |nodes| && forall i :: 0 <= i < |nodes| ==> ls[i] == nodes[i].nodeLabel
  {
    seq(|nodes|, i requires 0 <= i < |nodes| => nodes[i].nodeLabel)
  }

  function MultipleRootsError(roots: seq<RuleOperatorNode>): (e: RuleValidationError)
    ensures |e.nodeErrors| == |roots|
    ensures forall i :: 0 <= i < |roots| ==> e.nodeErrors[i].nodeId == roots[i].nodeId
  {
    NewRuleValidationError(
      "More than one root node found, but at most one is allowed! Root nodes: " + Join(Labels(roots), ", "),
      Some(seq(|roots|, i requires 0 <= i < |roots| =>
        FromNodeError(RuleSaveNodeError(roots[i].nodeId,
          Some("Rule operator '" + roots[i].nodeLabel + "' is not the only root node."))))))
  }

  function CycleError(cycle: seq<RuleOperatorNode>): RuleValidationError
  {
    NewRuleValidationError(
      "Illegal cycle found in rule. Path from root node to cycled node: " + Join(Labels(cycle), ", "),
      Some(seq(|cycle|, i requires 0 <= i < |cycle| => FromNode(cycle[i]))))
  }

  const ContainsCyclesMessage := "Rule tree cannot be saved, because it contains cycles!"

  /** What `convertToRuleOperatorNodeMap` returns or throws. */
  function NodeMapOutcome(nodes: seq<RuleOperatorNode>, validate: bool)
    : (r: Result<(NodeMap, seq<RuleOperatorNode>), RuleError>)
  {
    var m := NodeMapOf(nodes);
    var roots := RootNodes(nodes);
    if validate && |roots| > 1 then Err(ValidationError(MultipleRootsError(roots)))
    else if validate && |roots| == 0 && |m| > 0 then Err(PlainError(ContainsCyclesMessage))
    else if validate && |roots| == 1 then
      UnparentedMembers(nodes, ParentedIds(nodes));
      NodeMapOfMembers(nodes);
      match FindCyclesOutcome(roots[0], m)
      case Err(e) => Err(e)
      case Ok(cycle) => if cycle.Some? then Err(ValidationError(CycleError(cycle.value))) else Ok((m, roots))
    else Ok((m, roots))
  }

  /**
   * The validation cases: without validation nothing is thrown; with it, several roots
   * throw one node error per root, no root in a non-empty rule throws the cycle error, and
   * a single root passes exactly when it reaches every node.
   */
  lemma NodeMapOutcomeCases(nodes: seq<RuleOperatorNode>, validate: bool)
    ensures var r := NodeMapOutcome(nodes, validate);
      var roots := RootNodes(nodes);
      && (!validate ==> r == Ok((NodeMapOf(nodes), roots)))
      && (validate && |roots| > 1 ==>
            (r.Err? && r.error.ValidationError? && |r.error.validation.nodeErrors| == |roots| && !r.error.validation.success))
      && (validate && |roots| == 0 && nodes != [] ==> r == Err(PlainError(ContainsCyclesMessage)))
      && (validate && |roots| == 0 && nodes == [] ==> r.Ok?)
      && (validate && |roots| == 1 ==> (r.Ok? <==> Reachable(roots[0], NodeMapOf(nodes)) == NodeMapOf(nodes).Keys))
  {
    var m := NodeMapOf(nodes);
    NodeMapOfMembers(nodes);
    if nodes != [] {
      assert nodes[0].nodeId in m;
    }
  }

  /** `node.inputs.filter(i => i != null).forEach(i => hasParent.add(i))`. */
  method AddInputIds(hasParent: set<string>, inputs: seq<Option<string>>) returns (h: set<string>)
    ensures h == hasParent + InputIdSet(inputs)
  {
    h := hasParent;
    var j := 0;
    while j < |inputs|
      invariant 0 <= j <= |inputs|
      invariant h == hasParent + InputIdSet(inputs[..j])
    {
      if inputs[j].Some? {
        h := h + {inputs[j].value};
      }
      assert inputs[..j + 1][..j] == inputs[..j];
      j := j + 1;
    }
    assert inputs[..j] == inputs;
  }

  /** The first pass: the node map and the `hasParent` set. */
  method IndexNodes(ruleOperatorNodes: seq<RuleOperatorNode>) returns (hasParent: set<string>, nodeMap: NodeMap)
    ensures hasParent == ParentedIds(ruleOperatorNodes)
    ensures nodeMap == NodeMapOf(ruleOperatorNodes)
  {
    hasParent := {};
    nodeMap := map[];
    var i := 0;
    while i < |ruleOperatorNodes|
      invariant 0 <= i <= |ruleOperatorNodes|
      invariant hasParent == ParentedIds(ruleOperatorNodes[..i])
      invariant nodeMap == NodeMapOf(ruleOperatorNodes[..i])
    {
      var node := ruleOperatorNodes[i];
      hasParent := AddInputIds(hasParent, node.inputs);
      nodeMap := nodeMap[node.nodeId := node];
      assert ruleOperatorNodes[..i + 1][..i] == ruleOperatorNodes[..i];
      i := i + 1;
    }
    assert ruleOperatorNodes[..i] == ruleOperatorNodes;
  }

  /** `ruleOperatorNodes.filter(node => !hasParent.has(node.nodeId))`. */
  method FilterRoots(ruleOperatorNodes: seq<RuleOperatorNode>, hasParent: set<string>) returns (rootNodes: seq<RuleOperatorNode>)
    ensures rootNodes == Unparented(ruleOperatorNodes, hasParent)
  {
    rootNodes := [];
    var i := 0;
    while i < |ruleOperatorNodes|
      invariant 0 <= i <= |ruleOperatorNodes|
      invariant rootNodes == Unparented(ruleOperatorNodes[..i], hasParent)
    {
      if ruleOperatorNodes[i].nodeId !in hasParent {
        rootNodes := rootNodes + [ruleOperatorNodes[i]];
      }
      assert ruleOperatorNodes[..i + 1][..i] == ruleOperatorNodes[..i];
      i := i + 1;
    }
    assert ruleOperatorNodes[..i] == ruleOperatorNodes;
  }

  /** `convertToRuleOperatorNodeMap`. */
  method ConvertToRuleOperatorNodeMap(ruleOperatorNodes: seq<RuleOperatorNode>, validate: bool)
    returns (r: Result<(NodeMap, seq<RuleOperatorNode>), RuleError>)
    ensures r == NodeMapOutcome(ruleOperatorNodes, validate)
  {
    var hasParent, nodeMap := IndexNodes(ruleOperatorNodes);
    var rootNodes := FilterRoots(ruleOperatorNodes, hasParent);
    if validate && |rootNodes| > 1 {
      return Err(ValidationError(MultipleRootsError(rootNodes)));
    } else if validate && |rootNodes| == 0 && |nodeMap| > 0 {
      return Err(PlainError(ContainsCyclesMessage));
    } else if validate && |rootNodes| == 1 {
      UnparentedMembers(ruleOperatorNodes, hasParent);
      NodeMapOfMembers(ruleOperatorNodes);
      assert rootNodes[0] in ruleOperatorNodes;
      var cycle := FindCycles(rootNodes[0], nodeMap);
      if cycle.Err? {
        return Err(cycle.error);
      }
      var found := cycle.value;
      r := if found.Some? then Err(ValidationError(CycleError(found.GetOr([])))) else Ok((nodeMap, rootNodes));
      return;
    }
    r := Ok((nodeMap, rootNodes));
  }

  /**
   * The round trip the editor relies on: when the extracted nodes have distinct ids, the
   * node map built from them converts the last extracted node back to the original tree.
   */
  lemma ExtractThenConvert(v: ValueInput, isTarget: bool, ruleOperator: OperatorLookup, fuel: nat)
    requires DistinctIds(Flatten(v, isTarget, ruleOperator))
    requires Depth(v) <= fuel && ParametersDefined(v)
    ensures ConvertToValueInput(RootNode(v, isTarget, ruleOperator), NodeMapOf(Flatten(v, isTarget, ruleOperator)), fuel) == Ok(v)
  {
    var flat := Flatten(v, isTarget, ruleOperator);
    NodeMapOfDistinct(flat);
    forall n | n in flat ensures n.nodeId in NodeMapOf(flat) && NodeMapOf(flat)[n.nodeId] == n {
      var i :| 0 <= i < |flat| && flat[i] == n;
    }
    ConvertInvertsExtraction(v, isTarget, ruleOperator, NodeMapOf(flat), fuel);
  }

  // ---------------------------------------------------------------------------------
  // Worked examples
  // ---------------------------------------------------------------------------------

  lemma NodeMapOfSnoc(nodes: seq<RuleOperatorNode>, n: RuleOperatorNode)
    ensures NodeMapOf(nodes + [n]) == NodeMapOf(nodes)[n.nodeId := n]
  {
    assert (nodes + [n])[..|nodes|] == nodes;
  }

  lemma ParentedIdsSnoc(nodes: seq<RuleOperatorNode>, n: RuleOperatorNode)
    ensures ParentedIds(nodes + [n]) == ParentedIds(nodes) + InputIdSet(n.inputs)
  {
    assert (nodes + [n])[..|nodes|] == nodes;
  }

  /** A, B with input A, C with input B, and D: the roots are C and D, in that order. */
  lemma RootsOfTwoChains(a: RuleOperatorNode, b: RuleOperatorNode, c: RuleOperatorNode, d: RuleOperatorNode)
    requires a.nodeId == "A" && a.inputs == []
    requires b.nodeId == "B" && b.inputs == [Some("A")]
    requires c.nodeId == "C" && c.inputs == [Some("B")]
    requires d.nodeId == "D" && d.inputs == []
    ensures RootNodes([a, b, c, d]) == [c, d]
  {
    var nodes := [a, b, c, d];
    assert [a] + [b] == [a, b] && [a, b] + [c] == [a, b, c] && [a, b, c] + [d] == nodes;
    ParentedIdsSnoc([], a);
    ParentedIdsSnoc([a], b);
    ParentedIdsSnoc([a, b], c);
    ParentedIdsSnoc([a, b, c], d);
    assert InputIdSet(a.inputs) == {} && InputIdSet(d.inputs) == {};
    assert InputIdSet(b.inputs) == {"A"} && InputIdSet(c.inputs) == {"B"};
    var parented := ParentedIds(nodes);
    assert parented == {"A", "B"};
    UnparentedSnoc([], a, parented);
    UnparentedSnoc([a], b, parented);
    UnparentedSnoc([a, b], c, parented);
    UnparentedSnoc([a, b, c], d, parented);
  }

  /**
   * A and B both feeding C: with validation the map holds the three nodes, A maps to that
   * very node, and C is the single root.
   */
  lemma OneRootFeedsAll(a: RuleOperatorNode, b: RuleOperatorNode, c: RuleOperatorNode)
    requires a.nodeId == "A" && a.inputs == []
    requires b.nodeId == "B" && b.inputs == []
    requires c.nodeId == "C" && c.inputs == [Some("A"), Some("B")]
    ensures NodeMapOutcome([a, b, c], true) == Ok((NodeMapOf([a, b, c]), [c]))
    ensures |NodeMapOf([a, b, c])| == 3 && "A" in NodeMapOf([a, b, c]) && NodeMapOf([a, b, c])["A"] == a
  {
    var nodes := [a, b, c];
    var m := NodeMapOf(nodes);
    NodeMapOfSnoc([], a);
    NodeMapOfSnoc([a], b);
    NodeMapOfSnoc([a, b], c);
    assert [a] + [b] == [a, b] && [a, b] + [c] == nodes;
    ParentedIdsSnoc([], a);
    ParentedIdsSnoc([a], b);
    ParentedIdsSnoc([a, b], c);
    assert InputIdSet(a.inputs) == {} && InputIdSet(b.inputs) == {};
    assert InputIdSet(c.inputs) == {"A", "B"};
    var parented := ParentedIds(nodes);
    assert parented == {"A", "B"};
    assert RootNodes(nodes) == [c] by {
      UnparentedSnoc([], a, parented);
      UnparentedSnoc([a], b, parented);
      UnparentedSnoc([a, b], c, parented);
    }
    assert m.Keys == {"A", "B", "C"};
    assert IsFollowed(m, c.inputs[0]) && IsFollowed(m, c.inputs[1]);
    assert "A" in Successors(c, m, "C") && "B" in Successors(c, m, "C");
    assert Reachable(c, m) == m.Keys;
  }
}
