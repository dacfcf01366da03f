// The form widget of one task parameter in the item-creation dialog
// (views/shared/modals/CreateArtefactModal/ArtefactForms/ParameterWidget.tsx): an object
// parameter becomes a box of nested widgets whose form ids extend the parent's, any other
// parameter a labelled field with its tooltip or helper text, its validation message and,
// when it offers auto-completion, the values that auto-completion depends on.
module ParameterWidget {
  import opened Results
  import opened Records
  import opened JsStrings

  /** `MAXLENGTH_TOOLTIP`: longer descriptions are shown as helper text instead of a tooltip. */
  const MaxTooltipLength := 40

  /** A validation error of the form library: its kind and its message. */
  datatype FieldError = FieldError(errorType: string, message: string)

  /** `errorMessage(title, errors)`. */
  function ErrorMessage(title: string, errors: Option<FieldError>): string
  {
    if errors.None? then ""
    else if errors.value.errorType == "pattern" then title + " " + errors.value.message + "."
    else if errors.value.errorType == "required" then title + " must be specified."
    else ""
  }

  /**
   * A message is shown exactly for pattern and required errors; it starts with the
   * parameter's title and ends with a full stop.
   */
  lemma ErrorMessageSpec(title: string, errors: Option<FieldError>)
    ensures var m := ErrorMessage(title, errors);
            && (m != "" <==> errors.Some? && (errors.value.errorType == "pattern" || errors.value.errorType == "required"))
            && (m != "" ==> StartsWith(m, title) && m[|m| - 1] == '.')
            && (errors.Some? && errors.value.errorType == "required" ==> m == title + " must be specified.")
  {
    var m := ErrorMessage(title, errors);
    if m != "" {
      assert m[..|title|] == title;
    }
  }

  /** `${formParamId}.${nestedParamId}`: the form id of a nested parameter. */
  function NestedFormParamId(formParamId: string, nestedParamId: string): string
  {
    formParamId + "." + nestedParamId
  }

  /** The form id with the parameter's own id cut off the end: the id prefix of its siblings. */
  function SiblingPrefix(formParamId: string, paramId: string): string
  {
    Substring(formParamId, 0, |formParamId| - |paramId|)
  }

  /** A nested parameter's siblings share the prefix of its parent's id and a dot. */
  lemma SiblingPrefixOfNested(formParamId: string, nestedParamId: string)
    ensures SiblingPrefix(NestedFormParamId(formParamId, nestedParamId), nestedParamId) == formParamId + "."
  {
    var id := NestedFormParamId(formParamId, nestedParamId);
    assert id[..|formParamId| + 1] == formParamId + ".";
  }

  /** A top-level parameter, whose form id is its own id, has no prefix. */
  lemma SiblingPrefixOfTopLevel(paramId: string)
    ensures SiblingPrefix(paramId, paramId) == ""
  {
  }

  /**
   * `selectDependentValues`: for each parameter the auto-completion depends on, in order, the
   * value of the sibling with that id, when it is set and not empty.
   */
  function SelectDependentValues(formParamId: string, paramId: string, dependsOn: seq<string>,
                                 dependentValues: Record<string>): (r: seq<string>)
    ensures |r| <= |dependsOn|
  {
    if dependsOn == [] then []
    else
      var v := Get(dependentValues, SiblingPrefix(formParamId, paramId) + dependsOn[0]);
      (if v.Some? && v.value != "" then [v.value] else [])
      + SelectDependentValues(formParamId, paramId, dependsOn[1..], dependentValues)
  }

  /**
   * Every selected value is the non-empty value of some dependency's sibling, and when all of
   * them are set, the result lists each of them in the dependency order.
   */
  lemma {:induction false} SelectDependentValuesSpec(formParamId: string, paramId: string, dependsOn: seq<string>,
                                                      dependentValues: Record<string>)
    ensures var r := SelectDependentValues(formParamId, paramId, dependsOn, dependentValues);
            forall v :: v in r ==>
              && v != ""
              && exists d :: d in dependsOn && Get(dependentValues, SiblingPrefix(formParamId, paramId) + d) == Some(v)
    ensures (forall d :: d in dependsOn ==>
               var v := Get(dependentValues, SiblingPrefix(formParamId, paramId) + d); v.Some? && v.value != "") ==>
            var r := SelectDependentValues(formParamId, paramId, dependsOn, dependentValues);
            && |r| == |dependsOn|
            && forall i :: 0 <= i < |dependsOn| ==>
                 Some(r[i]) == Get(dependentValues, SiblingPrefix(formParamId, paramId) + dependsOn[i])
    decreases |dependsOn|
  {
    if dependsOn != [] {
      assert forall d :: d in dependsOn[1..] ==> d in dependsOn;
      SelectDependentValuesSpec(formParamId, paramId, dependsOn[1..], dependentValues);
      var r := SelectDependentValues(formParamId, paramId, dependsOn, dependentValues);
      var rest := SelectDependentValues(formParamId, paramId, dependsOn[1..], dependentValues);
      if forall d :: d in dependsOn ==>
           var v := Get(dependentValues, SiblingPrefix(formParamId, paramId) + d); v.Some? && v.value != "" {
        assert dependsOn[0] in dependsOn;
        assert r == [Get(dependentValues, SiblingPrefix(formParamId, paramId) + dependsOn[0]).value] + rest;
        forall i | 0 <= i < |dependsOn|
          ensures Some(r[i]) == Get(dependentValues, SiblingPrefix(formParamId, paramId) + dependsOn[i])
        {
          if i > 0 {
            assert r[i] == rest[i - 1];
            assert dependsOn[1..][i - 1] == dependsOn[i];
          }
        }
      }
    }
  }

  /** The label's tooltip: a non-empty description of at most 40 characters. */
  function Tooltip(description: Option<string>): string
  {
    if description.Some? && description.value != "" && |description.value| <= MaxTooltipLength then description.value else ""
  }

  /** The helper text below the field: a description longer than 40 characters. */
  function HelperText(description: Option<string>): string
  {
    if description.Some? && description.value != "" && |description.value| > MaxTooltipLength then description.value else ""
  }

  /**
   * A description is shown either as the tooltip or as the helper text, never as both, and a
   * missing or empty one as neither.
   */
  lemma DescriptionPlacement(description: Option<string>)
    ensures Tooltip(description) == "" || HelperText(description) == ""
    ensures description.Some? && description.value != "" ==>
      (Tooltip(description) == description.value <==> |description.value| <= MaxTooltipLength)
      && (HelperText(description) == description.value <==> |description.value| > MaxTooltipLength)
    ensures description.None? || description.value == "" ==> Tooltip(description) == "" && HelperText(description) == ""
  {
  }

  /** The auto-completion's start value: the form's initial value when it is set and not empty, else the default. */
  function InitialValue(initialValues: Record<string>, formParamId: string, defaultValue: string): (r: string)
  {
    var v := Get(initialValues, formParamId);
    if v.Some? && v.value != "" then v.value else defaultValue
  }

  lemma InitialValueSpec(initialValues: Record<string>, formParamId: string, defaultValue: string)
    ensures var r := InitialValue(initialValues, formParamId, defaultValue);
            && (r == defaultValue || Get(initialValues, formParamId) == Some(r))
            && (Get(initialValues, formParamId).Some? && Get(initialValues, formParamId).value != "" ==>
                  r == Get(initialValues, formParamId).value)
            && (!HasKey(initialValues, formParamId) ==> r == defaultValue)
  {
  }

  /** The auto-completion settings: which sibling parameters its values depend on. */
  datatype AutoCompletion = AutoCompletion(dependsOn: seq<string>)

  /** A parameter's description: its type, title and description, nested properties and auto-completion. */
  datatype ParamSpec = ParamSpec(
    paramType: string,
    title: string,
    description: Option<string>,
    properties: Record<ParamSpec>,
    autoCompletion: Option<AutoCompletion>)

  function ParamSize(p: ParamSpec): nat
  {
    1 + PropertiesSize(p.properties)
  }

  function PropertiesSize(props: Record<ParamSpec>): nat
  {
    if props == [] then 0
    else
      var e := props[0];
      assert e in props;
      assert e.1 < e;
      1 + ParamSize(e.1) + PropertiesSize(props[1..])
  }

  datatype Input = AutocompleteInput(initialValue: string, dependentValues: seq<string>) | PlainInput

  /** What the widget renders: a box of nested widgets, or one field. */
  datatype Widget =
    | FieldSetWidget(title: string, children: seq<Widget>)
    | FieldWidget(formParamId: string, labelText: string, info: string, tooltip: string, helperText: string,
                  message: string, input: Input)

  /** The form's state the widgets read: errors, initial values and the values others depend on. */
  datatype FormState = FormState(errors: Record<FieldError>, initialValues: Record<string>, dependentValues: Record<string>)

  /**
   * `ParameterWidget`: the widget for the parameter `paramId` whose form id is `formParamId`;
   * the parameter's default value (`defaultValueAsJs`) is passed in.
   */
  function ParameterWidget(formParamId: string, paramId: string, required: bool, param: ParamSpec, form: FormState,
                  defaultValue: ParamSpec -> string): Widget
    decreases ParamSize(param), 1
  {
    if param.paramType == "object" then
      FieldSetWidget(param.title, NestedWidgets(formParamId, param.properties, form, defaultValue))
    else
      FieldWidget(formParamId, param.title, if required then "required" else "",
                  Tooltip(param.description), HelperText(param.description),
                  ErrorMessage(param.title, Get(form.errors, formParamId)),
                  match param.autoCompletion
                  case Some(ac) =>
                    AutocompleteInput(InitialValue(form.initialValues, formParamId, defaultValue(param)),
                                      SelectDependentValues(formParamId, paramId, ac.dependsOn, form.dependentValues))
                  case None => PlainInput)
  }

  /** One nested widget per property, in order, each with the nested form id and not required. */
  function NestedWidgets(formParamId: string, props: Record<ParamSpec>, form: FormState,
                         defaultValue: ParamSpec -> string): (r: seq<Widget>)
    ensures |r| == |props|
    decreases PropertiesSize(props), 0
  {
    if props == [] then []
    else
      [ParameterWidget(NestedFormParamId(formParamId, props[0].0), props[0].0, false, props[0].1, form, defaultValue)]
      + NestedWidgets(formParamId, props[1..], form, defaultValue)
  }

  /** The form ids of all fields in a widget, depth first. */
  function FieldIds(w: Widget): seq<string>
  {
    match w
    case FieldWidget(id, _, _, _, _, _, _) => [id]
    case FieldSetWidget(_, children) => ChildrenFieldIds(children)
  }

  function ChildrenFieldIds(children: seq<Widget>): seq<string>
  {
    if children == [] then [] else FieldIds(children[0]) + ChildrenFieldIds(children[1..])
  }

  /**
   * Every field below a parameter's widget has a form id that starts with the parameter's own
   * form id, and every field of a nested box with it and a dot: nesting extends ids and never
   * loses the parent's.
   */
  lemma {:induction false} WidgetFieldIds(formParamId: string, paramId: string, required: bool, param: ParamSpec,
                                           form: FormState, defaultValue: ParamSpec -> string)
    ensures forall id :: id in FieldIds(ParameterWidget(formParamId, paramId, required, param, form, defaultValue)) ==>
      StartsWith(id, formParamId)
    ensures param.paramType == "object" ==>
      forall id :: id in FieldIds(ParameterWidget(formParamId, paramId, required, param, form, defaultValue)) ==>
        StartsWith(id, formParamId + ".")
    ensures param.paramType != "object" ==>
      FieldIds(ParameterWidget(formParamId, paramId, required, param, form, defaultValue)) == [formParamId]
    decreases ParamSize(param), 1
  {
    if param.paramType == "object" {
      NestedFieldIds(formParamId, param.properties, form, defaultValue);
      forall id | id in FieldIds(ParameterWidget(formParamId, paramId, required, param, form, defaultValue))
        ensures StartsWith(id, formParamId)
      {
        assert (formParamId + ".")[..|formParamId|] == formParamId;
        assert id[..|formParamId|] == id[..|formParamId + "."|][..|formParamId|];
      }
    }
  }

  lemma {:induction false} NestedFieldIds(formParamId: string, props: Record<ParamSpec>, form: FormState,
                                           defaultValue: ParamSpec -> string)
    ensures forall id :: id in ChildrenFieldIds(NestedWidgets(formParamId, props, form, defaultValue)) ==>
      StartsWith(id, formParamId + ".")
    decreases PropertiesSize(props), 0
  {
    if props != [] {
      var nestedId := NestedFormParamId(formParamId, props[0].0);
      var ws := NestedWidgets(formParamId, props, form, defaultValue);
      assert ws[1..] == NestedWidgets(formParamId, props[1..], form, defaultValue);
      WidgetFieldIds(nestedId, props[0].0, false, props[0].1, form, defaultValue);
      NestedFieldIds(formParamId, props[1..], form, defaultValue);
      forall id | id in FieldIds(ws[0]) ensures StartsWith(id, formParamId + ".") {
        assert StartsWith(id, nestedId);
        assert nestedId[..|formParamId + "."|] == formParamId + ".";
        assert id[..|formParamId + "."|] == id[..|nestedId|][..|formParamId + "."|];
      }
      ChildrenFieldIdsSplit(ws);
    }
  }

  lemma ChildrenFieldIdsSplit(ws: seq<Widget>)
    requires ws != []
    ensures forall id :: id in ChildrenFieldIds(ws) ==> id in FieldIds(ws[0]) || id in ChildrenFieldIds(ws[1..])
  {
  }

  /**
   * A field's widget: it is labelled with the title, marked "required" exactly when required,
   * and an auto-completing field starts from the initial value and depends on its siblings.
   */
  lemma FieldWidgetSpec(formParamId: string, paramId: string, required: bool, param: ParamSpec,
                        form: FormState, defaultValue: ParamSpec -> string)
    requires param.paramType != "object"
    ensures var w := ParameterWidget(formParamId, paramId, required, param, form, defaultValue);
            && w.FieldWidget? && w.formParamId == formParamId && w.labelText == param.title
            && (w.info == "required" <==> required)
            && (w.input.AutocompleteInput? <==> param.autoCompletion.Some?)
            && (w.message != "" ==> Get(form.errors, formParamId).Some?)
  {
    ErrorMessageSpec(param.title, Get(form.errors, formParamId));
  }
}
