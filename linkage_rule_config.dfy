// The dialog that edits a linking task's rule settings such as the link type and the link
// limit (pages/Linking/config/LinkageRuleConfigModal.tsx): it keeps the changed values and
// the validation errors per parameter, and submits every parameter with its value.
module LinkageRuleConfig {
  import opened Results
  import opened Records

  /**
   * One setting: its id, its current value (possibly unset), and its validation, which
   * gives an error message for an invalid value.
   */
  datatype ConfigItem = ConfigItem(id: string, value: Option<string>, validation: string -> Option<string>)

  /** `new Map(parameters.map((p) => [p.id, p]))`: a later parameter with the same id wins. */
  function InitialParameters(parameters: seq<ConfigItem>): Record<ConfigItem>
  {
    FromEntries(seq(|parameters|, i requires 0 <= i < |parameters| => (parameters[i].id, parameters[i])))
  }

  /**
   * `map.set(k, v)` for a value, `map.delete(k)` for none (a missing key stays missing).
   */
  function SetOrClear(r: Record<string>, k: string, v: Option<string>): Record<string>
  {
    if v.Some? then Put(r, k, v.value) else if HasKey(r, k) then Delete(r, k) else r
  }

  /** Afterwards `k` holds `v` and every other key what it held; keys stay unique. */
  lemma SetOrClearSpec(r: Record<string>, k: string, v: Option<string>)
    requires UniqueKeys(r)
    ensures UniqueKeys(SetOrClear(r, k, v))
    ensures forall k' :: Get(SetOrClear(r, k, v), k') == if k' == k then v else Get(r, k')
  {
    if v.Some? {
      PutUnique(r, k, v.value);
      forall k' ensures Get(SetOrClear(r, k, v), k') == if k' == k then v else Get(r, k') {
        GetPut(r, k, v.value, k');
      }
    } else if HasKey(r, k) {
      DeleteUnique(r, k);
      forall k' ensures Get(SetOrClear(r, k, v), k') == if k' == k then v else Get(r, k') {
        GetDelete(r, k, k');
      }
    }
  }

  class LinkageRuleConfigModal {
    const parameters: seq<ConfigItem>
    /** The changed values by parameter id, in the order they were first changed. */
    var parameterDiff: Record<string>
    var changed: bool
    var errorCount: int
    /** The current error message by parameter id. */
    var errors: Record<string>
    var saving: bool

    /** Both maps hold each id once, and `changed` says whether any value differs. */
    predicate Valid()
      reads this
    {
      UniqueKeys(parameterDiff) && UniqueKeys(errors) && (changed <==> |parameterDiff| > 0)
    }

    function InitialParameter(parameterId: string): Option<ConfigItem>
      reads this
    {
      Get(InitialParameters(parameters), parameterId)
    }

    /** `initialParameters.get(id)?.value === value`: the value is the setting's initial one. */
    predicate IsInitialValue(parameterId: string, value: string)
      reads this
    {
      var p := InitialParameter(parameterId);
      p.Some? && p.value.value == Some(value)
    }

    /** The validation's verdict; an unknown id is never invalid. */
    function ValidationOf(parameterId: string, value: string): Option<string>
      reads this
    {
      var p := InitialParameter(parameterId);
      if p.Some? then p.value.validation(value) else None
    }

    constructor (params: seq<ConfigItem>)
      ensures parameters == params
      ensures parameterDiff == [] && errors == [] && !changed && errorCount == 0 && !saving
      ensures Valid()
    {
      parameters := params;
      parameterDiff := [];
      changed := false;
      errorCount := 0;
      errors := [];
      saving := false;
    }

    /**
     * `changeParameter(parameterId)(value)`: records or clears the id's error and its
     * changed value; no other id is touched. A new error or a resolved one sets
     * `errorCount` to the number of errors; an existing message that changed sets it one
     * higher (forcing a re-render that brings it back); an unchanged verdict leaves it.
     */
    method ChangeParameter(parameterId: string, value: string)
      requires Valid()
      modifies this
      ensures Valid()
      ensures Get(parameterDiff, parameterId) == if IsInitialValue(parameterId, value) then None else Some(value)
      ensures Get(errors, parameterId) == ValidationOf(parameterId, value)
      ensures forall k :: k != parameterId ==> Get(parameterDiff, k) == Get(old(parameterDiff), k)
      ensures forall k :: k != parameterId ==> Get(errors, k) == Get(old(errors), k)
      ensures errorCount == |errors| || errorCount == |errors| + 1 || errorCount == old(errorCount)
      ensures (ValidationOf(parameterId, value).Some? && Get(old(errors), parameterId).Some?
               && Get(old(errors), parameterId) != ValidationOf(parameterId, value)) ==> errorCount == |errors| + 1
      ensures ((ValidationOf(parameterId, value).Some? && !HasKey(old(errors), parameterId))
               || (ValidationOf(parameterId, value).None? && HasKey(old(errors), parameterId))) ==> errorCount == |errors|
      ensures ((ValidationOf(parameterId, value).Some? && Get(old(errors), parameterId) == ValidationOf(parameterId, value))
               || (ValidationOf(parameterId, value).None? && !HasKey(old(errors), parameterId))) ==> errorCount == old(errorCount)
      ensures saving == old(saving)
    {
      var hasChanges := |parameterDiff| > 0;
      var validation := ValidationOf(parameterId, value);
      var diffValue := if IsInitialValue(parameterId, value) then None else Some(value);
      var oldErrors, oldDiff := errors, parameterDiff;
      SetOrClearSpec(oldErrors, parameterId, validation);
      SetOrClearSpec(oldDiff, parameterId, diffValue);
      var newErrors := SetOrClear(oldErrors, parameterId, validation);
      var newCount := errorCount;
      if validation.Some? {
        if !HasKey(oldErrors, parameterId) {
          newCount := |newErrors|;
        } else if Get(oldErrors, parameterId) != validation {
          newCount := |newErrors| + 1;
        }
      } else if HasKey(oldErrors, parameterId) {
        newCount := |newErrors|;
      }
      var newDiff := SetOrClear(oldDiff, parameterId, diffValue);
      errors, errorCount, parameterDiff := newErrors, newCount, newDiff;
      if |newDiff| > 0 && !hasChanges {
        changed := true;
      } else if |newDiff| == 0 && hasChanges {
        changed := false;
      }
    }

    /** The effect that brings `errorCount` back to the number of errors whenever it is off. */
    method SyncErrorCount()
      modifies this
      ensures errorCount == |errors|
      ensures parameterDiff == old(parameterDiff) && errors == old(errors) && changed == old(changed) && saving == old(saving)
    {
      if errorCount != |errors| {
        errorCount := |errors|;
      }
    }

    /** The update button: enabled only with a change and no counted error. */
    predicate SubmitEnabled()
      reads this
    {
      changed && errorCount <= 0
    }

    /**
     * `onSubmit`: every parameter in its original order, with its changed value where
     * there is one (even an empty one) and its initial value otherwise.
     */
    function UpdatedParameters(): (r: seq<(string, Option<string>)>)
      reads this
      ensures |r| == |parameters|
      ensures forall i :: 0 <= i < |parameters| ==> r[i].0 == parameters[i].id
      ensures forall i :: 0 <= i < |parameters| ==>
        r[i].1 == (if HasKey(parameterDiff, parameters[i].id) then Get(parameterDiff, parameters[i].id) else parameters[i].value)
    {
      var diff := parameterDiff;
      seq(|parameters|, i requires 0 <= i < |parameters| =>
        var updated := Get(diff, parameters[i].id);
        (parameters[i].id, if updated.Some? then updated else parameters[i].value))
    }

    /**
     * `onSubmit`: hands the updated parameters to the caller's `submit` and shows the saving
     * state while it runs. `rejected` is whether the promise `submit` returns rejects: there
     * is no `finally`, so the rejection propagates (`thrown`) and the saving state stays on.
     */
    method OnSubmit(rejected: bool) returns (submitted: seq<(string, Option<string>)>, thrown: bool)
      modifies this
      ensures submitted == old(UpdatedParameters())
      ensures thrown == rejected
      ensures saving == rejected
      ensures parameterDiff == old(parameterDiff) && errors == old(errors) && changed == old(changed)
      ensures errorCount == old(errorCount)
    {
      submitted := UpdatedParameters();
      saving := true;
      thrown := rejected;
      if !rejected {
        saving := false;
      }
    }
  }

  /**
   * Once the error count has caught up, the update button is enabled exactly when some
   * value differs from its initial one and no value is invalid.
   */
  lemma SubmitEnabledSpec(modal: LinkageRuleConfigModal)
    requires modal.Valid() && modal.errorCount == |modal.errors|
    ensures modal.SubmitEnabled() <==> modal.parameterDiff != [] && modal.errors == []
  {
  }

  /** Without changes, the dialog submits every parameter with its initial value. */
  lemma SubmitWithoutChanges(modal: LinkageRuleConfigModal)
    requires modal.Valid() && !modal.changed
    ensures forall i :: 0 <= i < |modal.parameters| ==>
      modal.UpdatedParameters()[i] == (modal.parameters[i].id, modal.parameters[i].value)
  {
  }
}
