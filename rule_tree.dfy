// The two directions between a rule's value-input tree and the flat list of editor
// nodes: extracting the nodes of a tree (rule.utils.ts, lines 20-87) and converting an
// editor node back into a tree (rule.utils.ts, lines 240-296).
module RuleTree {
  import opened Results
  import opened Records
  import opened JsArrays
  import opened RuleEditorModel
  import opened RuleEditorTypings

  /** `IValueInput`: a path input, or a transform operator applied to further value inputs. */
  datatype ValueInput =
    | PathInput(id: string, path: string)
    | TransformInput(id: string, functionId: string, inputs: seq<ValueInput>, parameters: Record<ParameterValue>)

  /** The operator lookup `ruleOperator(pluginId, pluginType)`. */
  type OperatorLookup = (string, string) -> Option<RuleOperator>

  /** The editor node of a path input; the plugin id tells target from source paths. */
  function PathInputNode(pathInput: ValueInput, isTarget: bool): RuleOperatorNode
    requires pathInput.PathInput?
  {
    RuleOperatorNode(
      pathInput.id,
      if isTarget then "Target path" else "Source path",
      "PathInputOperator",
      if isTarget then "targetPathInput" else "sourcePathInput",
      None,
      [("path", Text(pathInput.path))],
      None,
      [],
      PortSpecification(0, Some(0)),
      None)
  }

  /**
   * A path input becomes a path-input operator node with the input's id: a target path
   * exactly when `isTarget`, without inputs or input ports, and with the path as its only
   * parameter.
   */
  lemma PathInputNodeSpec(pathInput: ValueInput, isTarget: bool)
    requires pathInput.PathInput?
    ensures var n := PathInputNode(pathInput, isTarget);
      && n.nodeId == pathInput.id && n.pluginType == "PathInputOperator"
      && (n.pluginId == "targetPathInput" <==> isTarget)
      && (n.pluginId == "sourcePathInput" <==> !isTarget)
      && n.inputs == [] && n.portSpecification == PortSpecification(0, Some(0))
      && Keys(n.parameters) == ["path"] && Get(n.parameters, "path") == Some(Text(pathInput.path))
  {
  }

  /** The label of a transform node: the operator's label, or the function id if the operator is unknown. */
  function TransformLabel(functionId: string, ruleOperator: OperatorLookup): (l: string)
    ensures ruleOperator(functionId, "TransformOperator").None? ==> l == functionId
    ensures ruleOperator(functionId, "TransformOperator").Some? ==>
      l == ruleOperator(functionId, "TransformOperator").value.operatorLabel
  {
    match ruleOperator(functionId, "TransformOperator")
    case Some(op) => op.operatorLabel
    case None => functionId
  }

  /** The editor node of a transform operator whose inputs were extracted with the given ids. */
  function TransformNode(transformInput: ValueInput, inputs: seq<Option<string>>, ruleOperator: OperatorLookup): RuleOperatorNode
    requires transformInput.TransformInput?
  {
    RuleOperatorNode(
      transformInput.id,
      TransformLabel(transformInput.functionId, ruleOperator),
      "TransformOperator",
      transformInput.functionId,
      None,
      transformInput.parameters,
      None,
      inputs,
      PortSpecification(1, None),
      Some(["Transform"]))
  }

  /** The ids the extraction returns for a list of inputs. */
  function ChildIds(vs: seq<ValueInput>): (ids: seq<Option<string>>)
    ensures |ids| == |vs| && forall i :: 0 <= i < |vs| ==> ids[i] == Some(vs[i].id)
  {
    seq(|vs|, i requires 0 <= i < |vs| => Some(vs[i].id))
  }

  function Ids(vs: seq<ValueInput>): (ids: seq<string>)
    ensures |ids| == |vs| && forall i :: 0 <= i < |vs| ==> ids[i] == vs[i].id
  {
    seq(|vs|, i requires 0 <= i < |vs| => vs[i].id)
  }

  /** The node an operator contributes itself, after the nodes of its inputs. */
  function RootNode(v: ValueInput, isTarget: bool, ruleOperator: OperatorLookup): (n: RuleOperatorNode)
    ensures n.nodeId == v.id
  {
    match v
    case PathInput(_, _) => PathInputNode(v, isTarget)
    case TransformInput(_, _, inputs, _) => TransformNode(v, ChildIds(inputs), ruleOperator)
  }

  /** The nodes extracted from a tree, in the order they are pushed: post-order. */
  function Flatten(v: ValueInput, isTarget: bool, ruleOperator: OperatorLookup): (r: seq<RuleOperatorNode>)
    ensures |r| >= 1 && r[|r| - 1] == RootNode(v, isTarget, ruleOperator)
    decreases v
  {
    match v
    case PathInput(_, _) => [RootNode(v, isTarget, ruleOperator)]
    case TransformInput(_, _, inputs, _) => FlattenAll(inputs, isTarget, ruleOperator) + [RootNode(v, isTarget, ruleOperator)]
  }

  function FlattenAll(vs: seq<ValueInput>, isTarget: bool, ruleOperator: OperatorLookup): seq<RuleOperatorNode>
    decreases vs
  {
    if vs == [] then [] else Flatten(vs[0], isTarget, ruleOperator) + FlattenAll(vs[1..], isTarget, ruleOperator)
  }

  lemma {:induction false} FlattenAllSnoc(vs: seq<ValueInput>, v: ValueInput, isTarget: bool, ruleOperator: OperatorLookup)
    ensures FlattenAll(vs + [v], isTarget, ruleOperator)
         == FlattenAll(vs, isTarget, ruleOperator) + Flatten(v, isTarget, ruleOperator)
  {
    if vs == [] {
      assert [] + [v] == [v];
    } else {
      assert (vs + [v])[0] == vs[0] && (vs + [v])[1..] == vs[1..] + [v];
      FlattenAllSnoc(vs[1..], v, isTarget, ruleOperator);
    }
  }

  lemma {:induction false} FlattenAllContains(vs: seq<ValueInput>, j: nat, isTarget: bool, ruleOperator: OperatorLookup)
    requires j < |vs|
    ensures forall n :: n in Flatten(vs[j], isTarget, ruleOperator) ==> n in FlattenAll(vs, isTarget, ruleOperator)
  {
    if j > 0 {
      FlattenAllContains(vs[1..], j - 1, isTarget, ruleOperator);
    }
  }

  /**
   * Post-order: the node of every input of a transform is extracted before the transform's
   * own node, which comes last and lists exactly its inputs' ids, in order.
   */
  lemma ChildrenBeforeParent(v: ValueInput, isTarget: bool, ruleOperator: OperatorLookup)
    requires v.TransformInput?
    ensures var r := Flatten(v, isTarget, ruleOperator);
      r[|r| - 1].inputs == ChildIds(v.inputs)
      && forall j :: 0 <= j < |v.inputs| ==> RootNode(v.inputs[j], isTarget, ruleOperator) in r[..|r| - 1]
  {
    var r := Flatten(v, isTarget, ruleOperator);
    assert r[..|r| - 1] == FlattenAll(v.inputs, isTarget, ruleOperator);
    forall j | 0 <= j < |v.inputs|
      ensures RootNode(v.inputs[j], isTarget, ruleOperator) in r[..|r| - 1]
    {
      FlattenAllContains(v.inputs, j, isTarget, ruleOperator);
    }
  }

  lemma ExtractionStep(vs: seq<ValueInput>, i: nat, isTarget: bool, ruleOperator: OperatorLookup)
    requires i < |vs|
    ensures FlattenAll(vs[..i + 1], isTarget, ruleOperator)
         == FlattenAll(vs[..i], isTarget, ruleOperator) + Flatten(vs[i], isTarget, ruleOperator)
    ensures ChildIds(vs[..i + 1]) == ChildIds(vs[..i]) + [Some(vs[i].id)]
  {
    FlattenAllSnoc(vs[..i], vs[i], isTarget, ruleOperator);
    assert vs[..i + 1] == vs[..i] + [vs[i]];
  }

  /** Collects the extracted nodes in `result`, as the shared result array does. */
  class OperatorNodeCollector {
    var result: seq<RuleOperatorNode>

    constructor()
      ensures result == []
    {
      result := [];
    }

    /** `extractOperatorNodeFromPathInput`. */
    method ExtractFromPathInput(pathInput: ValueInput, isTarget: bool) returns (id: string)
      requires pathInput.PathInput?
      modifies this
      ensures result == old(result) + [PathInputNode(pathInput, isTarget)]
      ensures id == pathInput.id
    {
      result := result + [PathInputNode(pathInput, isTarget)];
      id := pathInput.id;
    }

    /** `extractOperatorNodeFromTransformInput`: the inputs first, then the transform itself. */
    method ExtractFromTransformInput(transformInput: ValueInput, isTarget: bool, ruleOperator: OperatorLookup)
      returns (id: string)
      requires transformInput.TransformInput?
      modifies this
      ensures result == old(result) + Flatten(transformInput, isTarget, ruleOperator)
      ensures id == transformInput.id
      decreases transformInput, 0
    {
      var children := transformInput.inputs;
      ghost var start := result;
      var inputs: seq<Option<string>> := [];
      var i := 0;
      while i < |children|
        invariant 0 <= i <= |children|
        invariant result == start + FlattenAll(children[..i], isTarget, ruleOperator)
        invariant inputs == ChildIds(children[..i])
      {
        var childId := ExtractFromValue(children[i], isTarget, ruleOperator);
        ExtractionStep(children, i, isTarget, ruleOperator);
        inputs := inputs + [Some(childId)];
        i := i + 1;
      }
      assert children[..i] == children;
      var node := TransformNode(transformInput, inputs, ruleOperator);
      assert Flatten(transformInput, isTarget, ruleOperator) == FlattenAll(children, isTarget, ruleOperator) + [node];
      result := result + [node];
      id := transformInput.id;
    }

    /** Dispatch on the kind of a defined value input. */
    method ExtractFromValue(operator: ValueInput, isTarget: bool, ruleOperator: OperatorLookup) returns (id: string)
      modifies this
      ensures result == old(result) + Flatten(operator, isTarget, ruleOperator)
      ensures id == operator.id
      decreases operator, 1
    {
      if operator.PathInput? {
        id := ExtractFromPathInput(operator, isTarget);
      } else {
        id := ExtractFromTransformInput(operator, isTarget, ruleOperator);
      }
    }

    /** `extractOperatorNodeFromValueInput`: an undefined input adds nothing and yields no id. */
    method ExtractOperatorNodeFromValueInput(operator: Option<ValueInput>, isTarget: bool, ruleOperator: OperatorLookup)
      returns (id: Option<string>)
      modifies this
      ensures operator.None? ==> id.None? && result == old(result)
      ensures operator.Some? ==> id == Some(operator.value.id)
      ensures operator.Some? ==> result == old(result) + Flatten(operator.value, isTarget, ruleOperator)
    {
      if operator.Some? {
        var nodeId := ExtractFromValue(operator.value, isTarget, ruleOperator);
        id := Some(nodeId);
      } else {
        id := None;
      }
    }
  }

  /** `inputs.filter(i => i != null)`: undefined inputs are dropped, an empty id is kept. */
  function NonNullInputs(inputs: seq<Option<string>>): (ids: seq<string>)
    ensures |ids| <= |inputs|
    ensures forall id :: id in ids <==> Some(id) in inputs
  {
    if inputs == [] then []
    else
      assert inputs == [inputs[0]] + inputs[1..];
      (if inputs[0].Some? then [inputs[0].value] else []) + NonNullInputs(inputs[1..])
  }

  /** `parameterValue ?? ""` applied to every parameter. */
  function DefinedParameters(ps: Record<ParameterValue>): (r: Record<ParameterValue>)
    ensures Keys(r) == Keys(ps)
    ensures forall i :: 0 <= i < |r| ==> !r[i].1.Undefined?
    ensures forall i :: 0 <= i < |r| ==> r[i].1 == if ps[i].1.Undefined? then Text("") else ps[i].1
  {
    seq(|ps|, i requires 0 <= i < |ps| => (ps[i].0, if ps[i].1.Undefined? then Text("") else ps[i].1))
  }

  /** The path of a path-input node: its `path` parameter's value, or "". */
  function PathParameter(ps: Record<ParameterValue>): (path: string)
    ensures !HasKey(ps, "path") ==> path == ""
    ensures HasKey(ps, "path") ==> path == NodeParameterValue(Get(ps, "path").value).GetOr("")
    ensures forall s :: Get(ps, "path") == Some(Text(s)) ==> path == s
  {
    match Get(ps, "path")
    case None => ""
    case Some(v) => NodeParameterValue(v).GetOr("")
  }

  function MissingNodeMessage(nodeId: string, parent: Option<RuleOperatorNode>): string
  {
    "Rule operator node with ID '" + nodeId + "' does not exist"
    + (if parent.Some? then ", but is defined as input for node '" + parent.value.nodeLabel + "'!" else "!")
  }

  function IncompatibleNodeMessage(node: RuleOperatorNode): string
  {
    "Tried to convert " + node.pluginType + " node '" + node.nodeLabel + "' to incompatible value input!"
  }

  /** `fetchRuleOperatorNode`: the node stored under the id, or an error naming the parent. */
  function FetchRuleOperatorNode(nodeId: string, nodes: map<string, RuleOperatorNode>, parent: Option<RuleOperatorNode>)
    : (r: Result<RuleOperatorNode, RuleError>)
    ensures r.Ok? <==> nodeId in nodes
    ensures r.Ok? ==> r.value == nodes[nodeId]
    ensures r.Err? ==> r.error == PlainError(MissingNodeMessage(nodeId, parent))
  {
    if nodeId in nodes then Ok(nodes[nodeId]) else Err(PlainError(MissingNodeMessage(nodeId, parent)))
  }

  /**
   * `convertRuleOperatorNodeToValueInput`. The recursion follows the node inputs; `fuel`
   * bounds its depth, and running out stands for the engine's stack overflow on a cycle.
   */
  function ConvertToValueInput(node: RuleOperatorNode, nodes: map<string, RuleOperatorNode>, fuel: nat)
    : (r: Result<ValueInput, RuleError>)
    ensures r.Ok? ==> r.value.id == node.nodeId
    ensures node.pluginType == "PathInputOperator" ==> r == Ok(PathInput(node.nodeId, PathParameter(node.parameters)))
    ensures node.pluginType != "TransformOperator" && node.pluginType != "PathInputOperator"
      ==> r == Err(PlainError(IncompatibleNodeMessage(node)))
    ensures r.Ok? && node.pluginType == "TransformOperator" ==>
      r.value.TransformInput? && r.value.functionId == node.pluginId
      && |r.value.inputs| == |NonNullInputs(node.inputs)|
      && (forall i :: 0 <= i < |r.value.inputs| ==>
            NonNullInputs(node.inputs)[i] in nodes && r.value.inputs[i].id == nodes[NonNullInputs(node.inputs)[i]].nodeId)
      && r.value.parameters == FromEntries(DefinedParameters(node.parameters))
    ensures r.Ok? && node.pluginType == "TransformOperator" ==> forall id :: Some(id) in node.inputs ==> id in nodes
    decreases fuel, 0
  {
    if node.pluginType == "TransformOperator" then
      if fuel == 0 then Err(StackOverflow)
      else
        match ConvertInputs(NonNullInputs(node.inputs), nodes, node, fuel - 1)
        case Err(e) => Err(e)
        case Ok(children) =>
          Ok(TransformInput(node.nodeId, node.pluginId, children, FromEntries(DefinedParameters(node.parameters))))
    else if node.pluginType == "PathInputOperator" then
      Ok(PathInput(node.nodeId, PathParameter(node.parameters)))
    else
      Err(PlainError(IncompatibleNodeMessage(node)))
  }

  /** The inputs of `parent`, converted one after another; the first error is thrown. */
  function ConvertInputs(ids: seq<string>, nodes: map<string, RuleOperatorNode>, parent: RuleOperatorNode, fuel: nat)
    : (r: Result<seq<ValueInput>, RuleError>)
    ensures r.Ok? ==> forall id :: id in ids ==> id in nodes
    ensures r.Ok? ==> |r.value| == |ids| && forall i :: 0 <= i < |ids| ==> r.value[i].id == nodes[ids[i]].nodeId
    decreases fuel, 1, |ids|
  {
    if ids == [] then Ok([])
    else
      match FetchRuleOperatorNode(ids[0], nodes, Some(parent))
      case Err(e) => Err(e)
      case Ok(child) =>
        match ConvertToValueInput(child, nodes, fuel)
        case Err(e) => Err(e)
        case Ok(first) =>
          match ConvertInputs(ids[1..], nodes, parent, fuel)
          case Err(e) => Err(e)
          case Ok(rest) =>
            assert ids == [ids[0]] + ids[1..];
            assert forall i :: 1 <= i < |ids| ==> ([first] + rest)[i] == rest[i - 1] && ids[i] == ids[1..][i - 1];
            Ok([first] + rest)
  }

  /** The map holds each of the listed nodes under its own id. */
  predicate StoresAll(nodes: map<string, RuleOperatorNode>, list: seq<RuleOperatorNode>)
  {
    forall n :: n in list ==> n.nodeId in nodes && nodes[n.nodeId] == n
  }

  lemma StoresAllSplit(nodes: map<string, RuleOperatorNode>, a: seq<RuleOperatorNode>, b: seq<RuleOperatorNode>)
    requires StoresAll(nodes, a + b)
    ensures StoresAll(nodes, a) && StoresAll(nodes, b)
  {
    forall n | n in a ensures n.nodeId in nodes && nodes[n.nodeId] == n {
      assert n in a + b;
    }
    forall n | n in b ensures n.nodeId in nodes && nodes[n.nodeId] == n {
      assert n in a + b;
    }
  }

  /** Nesting depth of transforms: the recursion depth the back conversion needs. */
  function Depth(v: ValueInput): nat
    decreases v
  {
    match v
    case PathInput(_, _) => 0
    case TransformInput(_, _, inputs, _) => 1 + MaxDepth(inputs)
  }

  function MaxDepth(vs: seq<ValueInput>): nat
    decreases vs
  {
    if vs == [] then 0
    else
      var d := Depth(vs[0]);
      var e := MaxDepth(vs[1..]);
      if d < e then e else d
  }

  /** Every transform's parameters have distinct keys and no undefined value. */
  predicate ParametersDefined(v: ValueInput)
    decreases v
  {
    match v
    case PathInput(_, _) => true
    case TransformInput(_, _, inputs, ps) =>
      UniqueKeys(ps) && (forall i :: 0 <= i < |ps| ==> !ps[i].1.Undefined?) && AllParametersDefined(inputs)
  }

  predicate AllParametersDefined(vs: seq<ValueInput>)
    decreases vs
  {
    vs == [] || (ParametersDefined(vs[0]) && AllParametersDefined(vs[1..]))
  }

  lemma {:induction false} NonNullChildIds(vs: seq<ValueInput>)
    ensures NonNullInputs(ChildIds(vs)) == Ids(vs)
  {
    if vs != [] {
      NonNullChildIds(vs[1..]);
      assert ChildIds(vs)[1..] == ChildIds(vs[1..]);
      assert Ids(vs) == [vs[0].id] + Ids(vs[1..]);
    }
  }

  /**
   * Converting back inverts the extraction: given a node map that holds every extracted
   * node under its own id, enough recursion depth, and transform parameters with distinct
   * keys and no undefined value, the last extracted node converts back to the tree.
   */
  lemma {:induction false} ConvertInvertsExtraction(v: ValueInput, isTarget: bool, ruleOperator: OperatorLookup,
                                                    nodes: map<string, RuleOperatorNode>, fuel: nat)
    requires StoresAll(nodes, Flatten(v, isTarget, ruleOperator))
    requires Depth(v) <= fuel
    requires ParametersDefined(v)
    ensures ConvertToValueInput(RootNode(v, isTarget, ruleOperator), nodes, fuel) == Ok(v)
    decreases v, 1
  {
    match v
    case PathInput(_, _) =>
    case TransformInput(id, functionId, inputs, ps) =>
      var node := RootNode(v, isTarget, ruleOperator);
      ConvertInputsInvertExtraction(v, isTarget, ruleOperator, nodes, fuel);
      assert FromEntries(DefinedParameters(ps)) == ps by {
        DefinedParametersIdentity(ps);
        FromEntriesUnique(ps);
      }
      ConvertTransformNode(node, nodes, fuel, inputs);
  }

  lemma {:induction false} ConvertInputsInvertExtraction(v: ValueInput, isTarget: bool, ruleOperator: OperatorLookup,
                                                         nodes: map<string, RuleOperatorNode>, fuel: nat)
    requires v.TransformInput?
    requires StoresAll(nodes, Flatten(v, isTarget, ruleOperator))
    requires Depth(v) <= fuel
    requires ParametersDefined(v)
    ensures var node := RootNode(v, isTarget, ruleOperator);
      ConvertInputs(NonNullInputs(node.inputs), nodes, node, fuel - 1) == Ok(v.inputs)
    decreases v, 0
  {
    var inputs := v.inputs;
    var node := RootNode(v, isTarget, ruleOperator);
    var flat := FlattenAll(inputs, isTarget, ruleOperator);
    assert Flatten(v, isTarget, ruleOperator) == flat + [node];
    StoresAllSplit(nodes, flat, [node]);
    NonNullChildIds(inputs);
    ConvertAllInvertExtraction(inputs, isTarget, ruleOperator, nodes, node, fuel - 1);
  }

  lemma ConvertTransformNode(node: RuleOperatorNode, nodes: map<string, RuleOperatorNode>, fuel: nat, children: seq<ValueInput>)
    requires node.pluginType == "TransformOperator" && fuel >= 1
    requires ConvertInputs(NonNullInputs(node.inputs), nodes, node, fuel - 1) == Ok(children)
    ensures ConvertToValueInput(node, nodes, fuel)
         == Ok(TransformInput(node.nodeId, node.pluginId, children, FromEntries(DefinedParameters(node.parameters))))
  {
  }

  lemma DefinedParametersIdentity(ps: Record<ParameterValue>)
    requires forall i :: 0 <= i < |ps| ==> !ps[i].1.Undefined?
    ensures DefinedParameters(ps) == ps
  {
  }

  lemma {:induction false} ConvertAllInvertExtraction(vs: seq<ValueInput>, isTarget: bool, ruleOperator: OperatorLookup,
                                                      nodes: map<string, RuleOperatorNode>, parent: RuleOperatorNode, fuel: nat)
    requires StoresAll(nodes, FlattenAll(vs, isTarget, ruleOperator))
    requires MaxDepth(vs) <= fuel
    requires AllParametersDefined(vs)
    ensures ConvertInputs(Ids(vs), nodes, parent, fuel) == Ok(vs)
    decreases vs
  {
    if vs != [] {
      var first := Flatten(vs[0], isTarget, ruleOperator);
      var rest := FlattenAll(vs[1..], isTarget, ruleOperator);
      assert FlattenAll(vs, isTarget, ruleOperator) == first + rest;
      StoresAllSplit(nodes, first, rest);
      var root := RootNode(vs[0], isTarget, ruleOperator);
      assert root == first[|first| - 1] && root in first;
      ConvertInvertsExtraction(vs[0], isTarget, ruleOperator, nodes, fuel);
      ConvertAllInvertExtraction(vs[1..], isTarget, ruleOperator, nodes, parent, fuel);
      assert Ids(vs)[1..] == Ids(vs[1..]);
      ConvertInputsCons(Ids(vs), nodes, parent, fuel, vs[0], vs[1..]);
      assert [vs[0]] + vs[1..] == vs;
    }
  }

  lemma ConvertInputsCons(ids: seq<string>, nodes: map<string, RuleOperatorNode>, parent: RuleOperatorNode, fuel: nat,
                          first: ValueInput, rest: seq<ValueInput>)
    requires ids != [] && ids[0] in nodes
    requires ConvertToValueInput(nodes[ids[0]], nodes, fuel) == Ok(first)
    requires ConvertInputs(ids[1..], nodes, parent, fuel) == Ok(rest)
    ensures ConvertInputs(ids, nodes, parent, fuel) == Ok([first] + rest)
  {
  }
}
