// The rule editor's change operations and node parameter values
// (RuleEditorModel.typings.ts).
module RuleEditorModel {
  import opened Results

  /**
   * The value of one node parameter: a plain string, a value with a display label, or
   * undefined.
   */
  datatype ParameterValue =
    | Text(text: string)
    | WithLabel(value: string, displayLabel: Option<string>)
    | Undefined

  /** `ruleEditorNodeParameterValue`: the string a parameter value stands for. */
  function NodeParameterValue(v: ParameterValue): (r: Option<string>)
    ensures r.None? <==> v.Undefined?
    ensures v.Text? ==> r == Some(v.text)
    ensures v.WithLabel? ==> r == Some(v.value)
  {
    match v
    case Text(s) => Some(s)
    case WithLabel(value, _) => Some(value)
    case Undefined => None
  }

  /** A canvas position; coordinates are kept as integers. */
  datatype XYPosition = XYPosition(x: int, y: int)

  /** A node of the editor canvas, identified by its id. */
  datatype EditorNode = EditorNode(id: string)

  /** An edge of the editor canvas from one node handle to another. */
  datatype Edge = Edge(id: string, source: string, target: string, targetHandle: Option<string>)

  datatype RuleModelChange =
    | AddNode(node: EditorNode)
    | DeleteNode(node: EditorNode)
    | AddEdge(edge: Edge)
    | DeleteEdge(edge: Edge)
    | ChangeNodePosition(nodeId: string, fromPosition: XYPosition, toPosition: XYPosition)
    | ChangeNodeParameter(nodeId: string, parameterId: string, fromValue: ParameterValue, toValue: ParameterValue)
    | ChangeNumberOfInputHandles(nodeId: string, fromCount: int, toCount: int)
  {
    /** The `type` field of the change object. */
    function TypeTag(): string
    {
      match this
      case AddNode(_) => "Add node"
      case DeleteNode(_) => "Delete node"
      case AddEdge(_) => "Add edge"
      case DeleteEdge(_) => "Delete edge"
      case ChangeNodePosition(_, _, _) => "Change node position"
      case ChangeNodeParameter(_, _, _, _) => "Change node parameter"
      case ChangeNumberOfInputHandles(_, _, _) => "Change number of input handles"
    }
  }

  /** The type tag tells the kinds of change apart. */
  lemma TypeTagDeterminesKind(a: RuleModelChange, b: RuleModelChange)
    requires a.TypeTag() == b.TypeTag()
    ensures a.AddNode? == b.AddNode? && a.DeleteNode? == b.DeleteNode?
    ensures a.AddEdge? == b.AddEdge? && a.DeleteEdge? == b.DeleteEdge?
    ensures a.ChangeNodePosition? == b.ChangeNodePosition?
    ensures a.ChangeNodeParameter? == b.ChangeNodeParameter?
  {
  }

  datatype RuleModelChanges = RuleModelChanges(operations: seq<RuleModelChange>)

  /** The argument of `toRuleModelChanges`: one change or an array of them. */
  datatype ChangeOrChanges = Single(change: RuleModelChange) | Several(changes: seq<RuleModelChange>)

  /** `toRuleModelChanges`: an array is kept as it is, a single change becomes a one-element list. */
  function ToRuleModelChanges(c: ChangeOrChanges): (r: RuleModelChanges)
    ensures c.Several? ==> r.operations == c.changes
    ensures c.Single? ==> r.operations == [c.change]
  {
    match c
    case Single(change) => RuleModelChanges([change])
    case Several(changes) => RuleModelChanges(changes)
  }

  function AddNodeChange(node: EditorNode): RuleModelChanges { ToRuleModelChanges(Single(AddNode(node))) }

  function DeleteNodeChange(node: EditorNode): RuleModelChanges { ToRuleModelChanges(Single(DeleteNode(node))) }

  function AddEdgeChange(edge: Edge): RuleModelChanges { ToRuleModelChanges(Single(AddEdge(edge))) }

  function DeleteEdgeChange(edge: Edge): RuleModelChanges { ToRuleModelChanges(Single(DeleteEdge(edge))) }

  function AddNodesChange(nodes: seq<EditorNode>): RuleModelChanges
  {
    ToRuleModelChanges(Several(seq(|nodes|, i requires 0 <= i < |nodes| => AddNode(nodes[i]))))
  }

  function DeleteNodesChange(nodes: seq<EditorNode>): RuleModelChanges
  {
    ToRuleModelChanges(Several(seq(|nodes|, i requires 0 <= i < |nodes| => DeleteNode(nodes[i]))))
  }

  function AddEdgesChange(edges: seq<Edge>): RuleModelChanges
  {
    ToRuleModelChanges(Several(seq(|edges|, i requires 0 <= i < |edges| => AddEdge(edges[i]))))
  }

  function DeleteEdgesChange(edges: seq<Edge>): RuleModelChanges
  {
    ToRuleModelChanges(Several(seq(|edges|, i requires 0 <= i < |edges| => DeleteEdge(edges[i]))))
  }

  /** `changeNodePosition`: exactly one operation carrying the arguments unchanged. */
  function ChangeNodePositionChange(nodeId: string, from: XYPosition, to: XYPosition): (r: RuleModelChanges)
    ensures |r.operations| == 1 && r.operations[0].TypeTag() == "Change node position"
    ensures r.operations[0].ChangeNodePosition?
    ensures r.operations[0].nodeId == nodeId && r.operations[0].fromPosition == from && r.operations[0].toPosition == to
  {
    ToRuleModelChanges(Single(ChangeNodePosition(nodeId, from, to)))
  }

  /** `changeNodeParameter`: exactly one operation carrying the arguments unchanged. */
  function ChangeNodeParameterChange(nodeId: string, parameterId: string, from: ParameterValue, to: ParameterValue): (r: RuleModelChanges)
    ensures |r.operations| == 1 && r.operations[0].TypeTag() == "Change node parameter"
    ensures r.operations[0].ChangeNodeParameter?
    ensures r.operations[0].nodeId == nodeId && r.operations[0].parameterId == parameterId
    ensures r.operations[0].fromValue == from && r.operations[0].toValue == to
  {
    ToRuleModelChanges(Single(ChangeNodeParameter(nodeId, parameterId, from, to)))
  }

  /** The operations of a sequence of change sets, one after another. */
  function ConcatOperations(cs: seq<RuleModelChanges>): seq<RuleModelChange>
  {
    if cs == [] then [] else cs[0].operations + ConcatOperations(cs[1..])
  }

  /**
   * `addNodes` and `deleteNodes` are `addNode` and `deleteNode` applied to each node in
   * order: one operation per node, each with the matching type tag.
   */
  lemma {:induction false} PluralNodeFactoriesAreSingularsInOrder(nodes: seq<EditorNode>)
    ensures AddNodesChange(nodes).operations
         == ConcatOperations(seq(|nodes|, i requires 0 <= i < |nodes| => AddNodeChange(nodes[i])))
    ensures DeleteNodesChange(nodes).operations
         == ConcatOperations(seq(|nodes|, i requires 0 <= i < |nodes| => DeleteNodeChange(nodes[i])))
    ensures forall i :: 0 <= i < |nodes| ==> AddNodesChange(nodes).operations[i].TypeTag() == "Add node"
    ensures forall i :: 0 <= i < |nodes| ==> DeleteNodesChange(nodes).operations[i].TypeTag() == "Delete node"
  {
    if nodes != [] {
      PluralNodeFactoriesAreSingularsInOrder(nodes[1..]);
      assert seq(|nodes|, i requires 0 <= i < |nodes| => AddNodeChange(nodes[i]))[1..]
          == seq(|nodes[1..]|, i requires 0 <= i < |nodes[1..]| => AddNodeChange(nodes[1..][i]));
      assert seq(|nodes|, i requires 0 <= i < |nodes| => DeleteNodeChange(nodes[i]))[1..]
          == seq(|nodes[1..]|, i requires 0 <= i < |nodes[1..]| => DeleteNodeChange(nodes[1..][i]));
    }
  }

  /**
   * `addEdges` and `deleteEdges` are `addEdge` and `deleteEdge` applied to each edge in
   * order: one operation per edge, each with the matching type tag.
   */
  lemma {:induction false} PluralEdgeFactoriesAreSingularsInOrder(edges: seq<Edge>)
    ensures AddEdgesChange(edges).operations
         == ConcatOperations(seq(|edges|, i requires 0 <= i < |edges| => AddEdgeChange(edges[i])))
    ensures DeleteEdgesChange(edges).operations
         == ConcatOperations(seq(|edges|, i requires 0 <= i < |edges| => DeleteEdgeChange(edges[i])))
    ensures forall i :: 0 <= i < |edges| ==> AddEdgesChange(edges).operations[i].TypeTag() == "Add edge"
    ensures forall i :: 0 <= i < |edges| ==> DeleteEdgesChange(edges).operations[i].TypeTag() == "Delete edge"
  {
    if edges != [] {
      PluralEdgeFactoriesAreSingularsInOrder(edges[1..]);
      assert seq(|edges|, i requires 0 <= i < |edges| => AddEdgeChange(edges[i]))[1..]
          == seq(|edges[1..]|, i requires 0 <= i < |edges[1..]| => AddEdgeChange(edges[1..][i]));
      assert seq(|edges|, i requires 0 <= i < |edges| => DeleteEdgeChange(edges[i]))[1..]
          == seq(|edges[1..]|, i requires 0 <= i < |edges[1..]| => DeleteEdgeChange(edges[1..][i]));
    }
  }
}
