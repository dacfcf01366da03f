// The rule editor's data types: operators, canvas nodes, port specifications and the
// validation error (RuleEditor.typings.ts).
module RuleEditorTypings {
  import opened Results
  import opened Records
  import opened RuleEditorModel

  /** Input ports of an operator; without `maxInputPorts` any number is allowed. */
  datatype PortSpecification = PortSpecification(minInputPorts: int, maxInputPorts: Option<int>)
  {
    predicate AllowsInputCount(n: nat)
    {
      minInputPorts <= n && (maxInputPorts.None? || n <= maxInputPorts.value)
    }
  }

  /** A port specification without a maximum admits every count from the minimum on. */
  lemma NoMaximumMeansUnlimited(spec: PortSpecification, n: nat)
    requires spec.maxInputPorts.None? && spec.minInputPorts <= n
    ensures spec.AllowsInputCount(n) && spec.AllowsInputCount(n + 1)
  {
  }

  datatype RuleParameterType =
    | BooleanParameter
    | IntParameter
    | FloatParameter
    | TextFieldParameter
    | CodeParameter
    | PasswordParameter
    | ResourceParameter
    | TextAreaParameter
    | PathInputParameter

  /** Auto-completion settings of a plugin parameter, passed along unchanged. */
  datatype AutoCompletion = AutoCompletion(allowOnlyAutoCompletedValues: bool, autoCompleteValueWithLabels: bool)

  /** A custom validation function, identified by a reference. */
  type ValidatorRef = nat

  datatype ParameterSpecification = ParameterSpecification(
    specLabel: string,
    description: Option<string>,
    parameterType: RuleParameterType,
    required: bool,
    advanced: bool,
    defaultValue: string,
    autoCompletion: Option<AutoCompletion>,
    customValidation: Option<ValidatorRef>)

  /** `IRuleOperator`: an operator offered in the sidebar. */
  datatype RuleOperator = RuleOperator(
    pluginType: string,
    pluginId: string,
    operatorLabel: string,
    icon: Option<string>,
    description: Option<string>,
    categories: Option<seq<string>>,
    parameterSpecification: Record<ParameterSpecification>,
    portSpecification: PortSpecification,
    tags: seq<string>)

  /** `IRuleOperatorNode`: one node of the rule on the editor canvas. */
  datatype RuleOperatorNode = RuleOperatorNode(
    nodeId: string,
    nodeLabel: string,
    pluginType: string,
    pluginId: string,
    description: Option<string>,
    parameters: Record<ParameterValue>,
    position: Option<XYPosition>,
    inputs: seq<Option<string>>,
    portSpecification: PortSpecification,
    tags: Option<seq<string>>)

  /** `RuleSaveNodeError`. */
  datatype RuleSaveNodeError = RuleSaveNodeError(nodeId: string, message: Option<string>)

  /**
   * What the constructor of `RuleValidationError` is given per node: a node error, or a
   * whole operator node (which has no `message`).
   */
  datatype NodeErrorSource = FromNodeError(error: RuleSaveNodeError) | FromNode(node: RuleOperatorNode)

  datatype RuleValidationError = RuleValidationError(
    isRuleValidationError: bool,
    success: bool,
    errorMessage: string,
    nodeErrors: seq<RuleSaveNodeError>)
  {
    function Message(): string { errorMessage }

    function Name(): string { "Rule validation error" }
  }

  function CopyNodeError(source: NodeErrorSource): (e: RuleSaveNodeError)
  {
    match source
    case FromNodeError(error) => RuleSaveNodeError(error.nodeId, error.message)
    case FromNode(node) => RuleSaveNodeError(node.nodeId, None)
  }

  /**
   * `new RuleValidationError(errorMessage, nodeErrors)`: never a success, always flagged
   * as a validation error, with one node error per given entry in the same order, keeping
   * only the node id and the message.
   */
  function NewRuleValidationError(errorMessage: string, nodeErrors: Option<seq<NodeErrorSource>>): (e: RuleValidationError)
    ensures e.isRuleValidationError && !e.success
    ensures e.Message() == errorMessage && e.Name() == "Rule validation error"
    ensures nodeErrors.None? ==> e.nodeErrors == []
    ensures nodeErrors.Some? ==> |e.nodeErrors| == |nodeErrors.value|
    ensures nodeErrors.Some? ==> forall i :: 0 <= i < |nodeErrors.value| ==>
      e.nodeErrors[i].nodeId == (match nodeErrors.value[i]
                                 case FromNodeError(err) => err.nodeId
                                 case FromNode(n) => n.nodeId)
    ensures nodeErrors.Some? ==> forall i :: 0 <= i < |nodeErrors.value| ==>
      e.nodeErrors[i].message == (match nodeErrors.value[i]
                                  case FromNodeError(err) => err.message
                                  case FromNode(_) => None)
  {
    var sources := if nodeErrors.Some? then nodeErrors.value else [];
    RuleValidationError(true, false, errorMessage,
      seq(|sources|, i requires 0 <= i < |sources| => CopyNodeError(sources[i])))
  }

  /**
   * What the rule utilities throw: a rule validation error, a plain `Error`, or the
   * engine's stack overflow when a recursion over the nodes does not end.
   */
  datatype RuleError =
    | ValidationError(validation: RuleValidationError)
    | PlainError(message: string)
    | StackOverflow
}
