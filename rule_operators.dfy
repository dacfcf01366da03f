// Operator specifications, the connection rules and the sidebar tabs of the rule editor
// (rule.utils.ts, lines 88-238 and 367-438).
module RuleOperators {
  import opened Results
  import opened Records
  import opened JsStrings
  import opened Sorting
  import opened RuleEditorModel
  import opened RuleEditorTypings

  /** One property of a plugin as the backend describes it. */
  datatype PluginProperty = PluginProperty(
    title: string,
    description: Option<string>,
    advanced: bool,
    parameterType: string,
    autoCompletion: Option<AutoCompletion>,
    value: string)

  /** The plugin details the backend sends for an operator plugin. */
  datatype PluginDetails = PluginDetails(
    pluginType: Option<string>,
    pluginId: string,
    title: string,
    description: Option<string>,
    categories: Option<seq<string>>,
    properties: Record<PluginProperty>,
    required: seq<string>)

  // ---------------------------------------------------------------------------------
  // Parameter types, tags and ports
  // ---------------------------------------------------------------------------------

  /** `convertPluginParameterType`: the widget type for a backend parameter type. */
  function ConvertPluginParameterType(pluginParameterType: string): RuleParameterType
  {
    match pluginParameterType
    case "multiline string" => TextAreaParameter
    case "int" => IntParameter
    case "Long" => IntParameter
    case "option[int]" => IntParameter
    case "boolean" => BooleanParameter
    case "stringmap" => TextAreaParameter
    case "double" => FloatParameter
    case "traversable[string]" => TextAreaParameter
    case "restriction" => CodeParameter
    case "password" => PasswordParameter
    case "resource" => ResourceParameter
    case _ => TextFieldParameter
  }

  /**
   * Every backend type has a widget type, and each widget type is chosen for exactly the
   * listed backend types; everything else, unknown types included, is a text field. No
   * backend type becomes a path input.
   */
  lemma ConvertPluginParameterTypeCases(t: string)
    ensures ConvertPluginParameterType(t) == IntParameter <==> t in ["int", "Long", "option[int]"]
    ensures ConvertPluginParameterType(t) == TextAreaParameter <==>
      t in ["multiline string", "stringmap", "traversable[string]"]
    ensures ConvertPluginParameterType(t) == BooleanParameter <==> t == "boolean"
    ensures ConvertPluginParameterType(t) == FloatParameter <==> t == "double"
    ensures ConvertPluginParameterType(t) == CodeParameter <==> t == "restriction"
    ensures ConvertPluginParameterType(t) == PasswordParameter <==> t == "password"
    ensures ConvertPluginParameterType(t) == ResourceParameter <==> t == "resource"
    ensures ConvertPluginParameterType(t) == TextFieldParameter <==>
      t !in ["multiline string", "int", "Long", "option[int]", "boolean", "stringmap", "double",
             "traversable[string]", "restriction", "password", "resource"]
    ensures ConvertPluginParameterType(t) != PathInputParameter
  {
  }

  /** `pluginTags`: one tag naming the operator kind, or none. */
  function PluginTags(pluginType: Option<string>): (tags: seq<string>)
    ensures |tags| <= 1
    ensures tags == [] <==> pluginType !in {Some("TransformOperator"), Some("ComparisonOperator"), Some("AggregationOperator")}
    ensures tags == ["Transform"] <==> pluginType == Some("TransformOperator")
    ensures tags == ["Comparison"] <==> pluginType == Some("ComparisonOperator")
    ensures tags == ["Aggregation"] <==> pluginType == Some("AggregationOperator")
  {
    match pluginType
    case Some("TransformOperator") => ["Transform"]
    case Some("ComparisonOperator") => ["Comparison"]
    case Some("AggregationOperator") => ["Aggregation"]
    case _ => []
  }

  /** `portSpecification`: a comparison takes exactly two inputs, everything else one or more. */
  function PortSpecificationOf(pluginType: Option<string>): (spec: PortSpecification)
    ensures pluginType == Some("ComparisonOperator") ==>
      forall n: nat :: spec.AllowsInputCount(n) <==> n == 2
    ensures pluginType != Some("ComparisonOperator") ==>
      forall n: nat :: spec.AllowsInputCount(n) <==> n >= 1
  {
    if pluginType == Some("ComparisonOperator") then PortSpecification(2, Some(2))
    else PortSpecification(1, None)
  }

  // ---------------------------------------------------------------------------------
  // Parameter specifications and operators
  // ---------------------------------------------------------------------------------

  /**
   * `parameterSpecification`: the given label, description and validation, with the
   * optional attributes defaulting to "", a text field, not advanced and required.
   */
  function ParameterSpecificationOf(specLabel: string, description: Option<string>,
                                    defaultValue: Option<string>, parameterType: Option<RuleParameterType>,
                                    advanced: Option<bool>, required: Option<bool>,
                                    customValidation: Option<ValidatorRef>): (spec: ParameterSpecification)
    ensures spec.specLabel == specLabel && spec.description == description
    ensures spec.customValidation == customValidation && spec.autoCompletion.None?
    ensures spec.defaultValue == (if defaultValue.Some? then defaultValue.value else "")
    ensures spec.parameterType == (if parameterType.Some? then parameterType.value else TextFieldParameter)
    ensures spec.advanced == (advanced.Some? && advanced.value)
    ensures spec.required == (required.None? || required.value)
  {
    ParameterSpecification(specLabel, description, parameterType.GetOr(TextFieldParameter), required.GetOr(true),
                           advanced.GetOr(false), defaultValue.GetOr(""), None, customValidation)
  }

  /**
   * `inputPathOperator`: a path input operator with no input ports and the single
   * required parameter `path`, of path type and empty by default.
   */
  function InputPathOperator(pluginId: string, operatorLabel: string, description: Option<string>,
                             customValidation: Option<ValidatorRef>): (op: RuleOperator)
    ensures op.pluginType == "PathInputOperator" && op.pluginId == pluginId && op.operatorLabel == operatorLabel
    ensures op.portSpecification == PortSpecification(0, Some(0))
    ensures forall n: nat :: op.portSpecification.AllowsInputCount(n) <==> n == 0
    ensures Keys(op.parameterSpecification) == ["path"]
    ensures var path := Get(op.parameterSpecification, "path").value;
      path.parameterType == PathInputParameter && path.required && !path.advanced && path.defaultValue == ""
      && path.customValidation == customValidation
    ensures op.categories == Some(["Input"]) && op.icon.None? && op.tags == [] && op.description == description
  {
    RuleOperator("PathInputOperator", pluginId, operatorLabel, None, description, Some(["Input"]),
      [("path", ParameterSpecificationOf("Path", Some("The source input path as Silk path expression."),
                                         Some(""), Some(PathInputParameter), None, None, customValidation))],
      PortSpecification(0, Some(0)), [])
  }

  /** The specification `convertRuleOperator` derives from one plugin property. */
  function PropertySpecification(details: PluginDetails, parameterId: string, property: PluginProperty)
    : (spec: ParameterSpecification)
    ensures spec.required <==> parameterId in details.required
    ensures spec.parameterType == ConvertPluginParameterType(property.parameterType)
    ensures spec.specLabel == property.title && spec.defaultValue == property.value
    ensures spec.advanced == property.advanced && spec.customValidation.None?
  {
    ParameterSpecification(property.title, property.description, ConvertPluginParameterType(property.parameterType),
                           parameterId in details.required, property.advanced, property.value,
                           property.autoCompletion, None)
  }

  /** The plugin's own parameter specifications, in the order of its properties. */
  function PropertySpecifications(details: PluginDetails): Record<ParameterSpecification>
  {
    MapValues(details.properties, (id, property) => PropertySpecification(details, id, property))
  }

  /**
   * `convertRuleOperator`. The parameter specifications are the plugin's own followed by
   * the additional ones, collected with `Object.fromEntries`.
   */
  function ConvertRuleOperator(details: PluginDetails, additional: Record<ParameterSpecification>): (op: RuleOperator)
    ensures op.pluginType == (if details.pluginType.Some? then details.pluginType.value else "unknown")
    ensures op.pluginId == details.pluginId && op.operatorLabel == details.title
    ensures op.description == details.description && op.categories == details.categories
    ensures op.icon == Some("artefact-task")
    ensures op.portSpecification == PortSpecificationOf(details.pluginType)
    ensures op.tags == PluginTags(details.pluginType)
  {
    RuleOperator(details.pluginType.GetOr("unknown"), details.pluginId, details.title, Some("artefact-task"),
                 details.description, details.categories,
                 FromEntries(PropertySpecifications(details) + additional),
                 PortSpecificationOf(details.pluginType), PluginTags(details.pluginType))
  }

  /**
   * The parameters of a converted operator: an id of the additional specifications reads
   * as its last additional entry, so it overrides the plugin's own; any other id of the
   * plugin reads as the specification of its property, required exactly when the plugin
   * lists it as required; no other id is present.
   */
  lemma ConvertRuleOperatorParameters(details: PluginDetails, additional: Record<ParameterSpecification>, k: string)
    ensures var specs := ConvertRuleOperator(details, additional).parameterSpecification;
      && (HasKey(specs, k) <==> HasKey(additional, k) || HasKey(details.properties, k))
      && (HasKey(additional, k) ==> Get(specs, k) == LastGet(additional, k))
      && (!HasKey(additional, k) && HasKey(details.properties, k) ==>
            Get(specs, k) == Some(PropertySpecification(details, k, LastGet(details.properties, k).value))
            && (Get(specs, k).value.required <==> k in details.required))
  {
    var own := PropertySpecifications(details);
    GetPutAll([], own + additional, k);
    LastGetMapValues(details.properties, (id, property) => PropertySpecification(details, id, property), k);
    LastGetAppend(own, additional, k);
  }

  /** The last entry for `k` in `a + b` is the one in `b` if `b` has `k`, else the one in `a`. */
  lemma {:induction false} LastGetAppend<V>(a: Record<V>, b: Record<V>, k: string)
    ensures LastGet(a + b, k) == if HasKey(b, k) then LastGet(b, k) else LastGet(a, k)
    ensures HasKey(a + b, k) <==> HasKey(a, k) || HasKey(b, k)
    decreases |b|
  {
    if b == [] {
      assert a + b == a;
    } else {
      var b' := b[..|b| - 1];
      LastGetAppend(a, b', k);
      assert (a + b)[..|a + b| - 1] == a + b';
      assert HasKey(b, k) <==> HasKey(b', k) || b[|b| - 1].0 == k by {
        if HasKey(b, k) {
          var i :| 0 <= i < |b| && b[i].0 == k;
          if i < |b| - 1 { assert b'[i].0 == k; }
        }
        if HasKey(b', k) {
          var i :| 0 <= i < |b'| && b'[i].0 == k;
          assert b[i].0 == k;
        }
      }
      assert HasKey(a + b, k) <==> HasKey(a + b', k) || b[|b| - 1].0 == k by {
        var ab := a + b;
        if HasKey(ab, k) {
          var i :| 0 <= i < |ab| && ab[i].0 == k;
          if i < |ab| - 1 {
            assert ab[..|ab| - 1][i].0 == k;
          } else {
            assert ab[|ab| - 1] == b[|b| - 1];
          }
        }
        if HasKey(a + b', k) {
          var i :| 0 <= i < |a + b'| && (a + b')[i].0 == k;
          assert ab[..|ab| - 1][i] == ab[i];
        }
        if b[|b| - 1].0 == k {
          assert ab[|ab| - 1] == b[|b| - 1];
        }
      }
    }
  }

  // ---------------------------------------------------------------------------------
  // Connections
  // ---------------------------------------------------------------------------------

  /** `validateConnection`: whether an edge from one operator into a port of another is allowed. */
  function ValidateConnection(from: RuleOperatorNode, to: RuleOperatorNode, targetPortIdx: int): bool
  {
    match from.pluginType
    case "PathInputOperator" =>
      if to.pluginType == "ComparisonOperator" then
        (from.pluginId == "targetPathInput" && targetPortIdx == 1)
        || (from.pluginId == "sourcePathInput" && targetPortIdx == 0)
      else to.pluginType == "TransformOperator"
    case "ComparisonOperator" => to.pluginType == "AggregationOperator"
    case "AggregationOperator" => to.pluginType == "AggregationOperator"
    case "TransformOperator" => to.pluginType == "ComparisonOperator" || to.pluginType == "TransformOperator"
    case _ => true
  }

  predicate KnownOperatorType(t: string)
  {
    t in ["PathInputOperator", "ComparisonOperator", "AggregationOperator", "TransformOperator"]
  }

  /**
   * The connection rules seen from the receiving operator, for every sender of a known
   * type: nothing flows into a path input; a transform takes paths and transforms; a
   * comparison takes transforms, and a path only on its own side (source paths on port 0,
   * target paths on port 1); an aggregation takes comparisons and aggregations. An
   * operator of unknown type may send anywhere.
   */
  lemma ConnectionsByReceiver(from: RuleOperatorNode, to: RuleOperatorNode, port: int)
    ensures !KnownOperatorType(from.pluginType) ==> ValidateConnection(from, to, port)
    ensures KnownOperatorType(from.pluginType) && to.pluginType == "PathInputOperator" ==>
      !ValidateConnection(from, to, port)
    ensures KnownOperatorType(from.pluginType) && to.pluginType == "TransformOperator" ==>
      (ValidateConnection(from, to, port) <==> from.pluginType in ["PathInputOperator", "TransformOperator"])
    ensures KnownOperatorType(from.pluginType) && to.pluginType == "ComparisonOperator" ==>
      (ValidateConnection(from, to, port) <==>
        from.pluginType == "TransformOperator"
        || (from.pluginType == "PathInputOperator"
            && ((from.pluginId == "sourcePathInput" && port == 0) || (from.pluginId == "targetPathInput" && port == 1))))
    ensures KnownOperatorType(from.pluginType) && to.pluginType == "AggregationOperator" ==>
      (ValidateConnection(from, to, port) <==> from.pluginType in ["ComparisonOperator", "AggregationOperator"])
    ensures KnownOperatorType(from.pluginType) && !KnownOperatorType(to.pluginType) ==>
      !ValidateConnection(from, to, port)
  {
  }

  /**
   * The editor's path nodes connect as their pluginId says: into a comparison a source
   * path goes to port 0 and a target path to port 1, never the other way round.
   */
  lemma PathNodesOnTheirSide(from: RuleOperatorNode, to: RuleOperatorNode)
    requires from.pluginType == "PathInputOperator" && to.pluginType == "ComparisonOperator"
    ensures from.pluginId == "sourcePathInput" ==> ValidateConnection(from, to, 0) && !ValidateConnection(from, to, 1)
    ensures from.pluginId == "targetPathInput" ==> ValidateConnection(from, to, 1) && !ValidateConnection(from, to, 0)
    ensures from.pluginId !in ["sourcePathInput", "targetPathInput"] ==>
      forall port :: !ValidateConnection(from, to, port)
  {
  }

  // ---------------------------------------------------------------------------------
  // Layout
  // ---------------------------------------------------------------------------------

  /** The `[id, position]` pairs of the nodes that have a position, in order. */
  function PositionEntries(nodes: seq<RuleOperatorNode>): (es: Record<XYPosition>)
    ensures forall k :: HasKey(es, k) <==> exists i :: 0 <= i < |nodes| && nodes[i].nodeId == k && nodes[i].position.Some?
    decreases |nodes|
  {
    if nodes == [] then []
    else
      var init := nodes[..|nodes| - 1];
      var last := nodes[|nodes| - 1];
      var rest := PositionEntries(init);
      var es := rest + (if last.position.Some? then [(last.nodeId, last.position.value)] else []);
      assert forall i :: 0 <= i < |init| ==> init[i] == nodes[i];
      assert forall k :: HasKey(es, k) <==> HasKey(rest, k) || (last.position.Some? && last.nodeId == k) by {
        forall k ensures HasKey(es, k) <==> HasKey(rest, k) || (last.position.Some? && last.nodeId == k) {
          if HasKey(es, k) {
            var i :| 0 <= i < |es| && es[i].0 == k;
            if i < |rest| { assert rest[i].0 == k; }
          }
          if HasKey(rest, k) {
            var i :| 0 <= i < |rest| && rest[i].0 == k;
            assert es[i].0 == k;
          }
          if last.position.Some? && last.nodeId == k {
            assert es[|es| - 1].0 == k;
          }
        }
      }
      es
  }

  /**
   * `ruleLayout`: records the position of every node that has one; a later node with the
   * same id overwrites an earlier one. Positions are integers, so rounding keeps them.
   */
  method RuleLayout(nodes: seq<RuleOperatorNode>) returns (nodePositions: Record<XYPosition>)
    ensures nodePositions == FromEntries(PositionEntries(nodes))
  {
    nodePositions := [];
    var i := 0;
    while i < |nodes|
      invariant 0 <= i <= |nodes|
      invariant nodePositions == FromEntries(PositionEntries(nodes[..i]))
    {
      var node := nodes[i];
      assert nodes[..i + 1][..i] == nodes[..i];
      assert nodes[..i + 1][i] == node;
      if node.position.Some? {
        assert PositionEntries(nodes[..i + 1]) == PositionEntries(nodes[..i]) + [(node.nodeId, node.position.value)];
        PutAllSnoc([], PositionEntries(nodes[..i]), node.nodeId, node.position.value);
        nodePositions := Put(nodePositions, node.nodeId, node.position.value);
        assert nodePositions == FromEntries(PositionEntries(nodes[..i + 1]));
      } else {
        assert PositionEntries(nodes[..i + 1]) == PositionEntries(nodes[..i]) + [];
        assert PositionEntries(nodes[..i + 1]) == PositionEntries(nodes[..i]);
      }
      i := i + 1;
    }
    assert nodes[..i] == nodes;
  }

  lemma {:induction false} PutAllSnoc<V>(r: Record<V>, src: Record<V>, k: string, v: V)
    ensures PutAll(r, src + [(k, v)]) == Put(PutAll(r, src), k, v)
    decreases |src|
  {
    if src == [] {
      assert src + [(k, v)] == [(k, v)];
    } else {
      assert (src + [(k, v)])[1..] == src[1..] + [(k, v)];
      PutAllSnoc(Put(r, src[0].0, src[0].1), src[1..], k, v);
    }
  }

  /**
   * A node id has a recorded position exactly when some node with that id has one, and
   * the recorded position is that of the last such node.
   */
  lemma RuleLayoutPositions(nodes: seq<RuleOperatorNode>, k: string)
    ensures var layout := FromEntries(PositionEntries(nodes));
      && (HasKey(layout, k) <==> exists i :: 0 <= i < |nodes| && nodes[i].nodeId == k && nodes[i].position.Some?)
      && Get(layout, k) == LastGet(PositionEntries(nodes), k)
  {
    GetPutAll([], PositionEntries(nodes), k);
  }

  /** The layout's position for `k` is that of the last positioned node with id `k`. */
  lemma {:induction false} LastPositionWins(nodes: seq<RuleOperatorNode>, k: string, i: nat)
    requires i < |nodes| && nodes[i].nodeId == k && nodes[i].position.Some?
    requires forall j :: i < j < |nodes| && nodes[j].nodeId == k ==> nodes[j].position.None?
    ensures Get(FromEntries(PositionEntries(nodes)), k) == nodes[i].position
    decreases |nodes|
  {
    RuleLayoutPositions(nodes, k);
    var init := nodes[..|nodes| - 1];
    var last := nodes[|nodes| - 1];
    var rest := PositionEntries(init);
    if i == |nodes| - 1 {
      assert PositionEntries(nodes) == rest + [(k, last.position.value)];
    } else {
      assert forall j :: 0 <= j < |init| ==> init[j] == nodes[j];
      LastPositionWins(init, k, i);
      RuleLayoutPositions(init, k);
      if last.position.Some? {
        assert last.nodeId != k;
        assert PositionEntries(nodes) == rest + [(last.nodeId, last.position.value)];
        LastGetAppend(rest, [(last.nodeId, last.position.value)], k);
        assert !HasKey([(last.nodeId, last.position.value)], k);
      } else {
        assert PositionEntries(nodes) == rest;
      }
    }
  }

  // ---------------------------------------------------------------------------------
  // Sidebar tabs
  // ---------------------------------------------------------------------------------

  datatype SidebarTab = AllTab | TransformTab | ComparisonTab | AggregationTab
  {
    function Id(): string
    {
      match this
      case AllTab => "all"
      case TransformTab => "transform"
      case ComparisonTab => "comparison"
      case AggregationTab => "aggregation"
    }

    function TabLabel(): string
    {
      match this
      case AllTab => "All"
      case TransformTab => "Transform"
      case ComparisonTab => "Comparison"
      case AggregationTab => "Aggregation"
    }

    /** The plugin type a filtering tab keeps. */
    function PluginType(): string
      requires !AllTab?
    {
      match this
      case TransformTab => "TransformOperator"
      case ComparisonTab => "ComparisonOperator"
      case AggregationTab => "AggregationOperator"
    }
  }

  function OperatorsOfType(ops: seq<RuleOperator>, pluginType: string): (r: seq<RuleOperator>)
    ensures forall op :: op in r <==> op in ops && op.pluginType == pluginType
    ensures |r| <= |ops|
  {
    if ops == [] then []
    else (if ops[0].pluginType == pluginType then [ops[0]] else []) + OperatorsOfType(ops[1..], pluginType)
  }

  function LowerLabel(op: RuleOperator): string
  {
    ToLower(op.operatorLabel)
  }

  /**
   * A tab's `filterAndSort`: "all" shows the operators as given; the other tabs keep the
   * operators of their plugin type, ordered by lower-cased label.
   */
  function FilterAndSort(tab: SidebarTab, ops: seq<RuleOperator>): (r: seq<RuleOperator>)
    ensures tab.AllTab? ==> r == ops
    ensures !tab.AllTab? ==> multiset(r) == multiset(OperatorsOfType(ops, tab.PluginType()))
  {
    if tab.AllTab? then ops else SortBy(OperatorsOfType(ops, tab.PluginType()), LowerLabel)
  }

  /**
   * A filtering tab shows exactly the operators of its type, each as often as it is
   * given, ordered by lower-cased label.
   */
  lemma FilterAndSortSpec(tab: SidebarTab, ops: seq<RuleOperator>)
    requires !tab.AllTab?
    ensures var r := FilterAndSort(tab, ops);
      && SortedBy(r, LowerLabel)
      && (forall op :: op in r <==> op in ops && op.pluginType == tab.PluginType())
      && multiset(r) == multiset(OperatorsOfType(ops, tab.PluginType()))
  {
    var kept := OperatorsOfType(ops, tab.PluginType());
    SortBySorted(kept, LowerLabel);
    var r := SortBy(kept, LowerLabel);
    forall op ensures op in r <==> op in kept {
      assert op in r <==> op in multiset(r);
      assert op in kept <==> op in multiset(kept);
    }
  }
}
