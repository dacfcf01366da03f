// The form that creates or updates a task
// (views/shared/modals/CreateArtefactModal/ArtefactForms/TaskForm.tsx): the registration of
// every atomic parameter, nested object parameters flattened into dotted keys, with their
// validation rules and initial values; the clean-up that unregisters them; change handling;
// and the split of the visible parameters into normal and advanced ones.
module TaskForm {
  import opened Results
  import opened Records
  import opened JsStrings
  import opened JsArrays

  const Label := "label"
  const Description := "description"
  /** The parameter type of integer parameters. */
  const IntegerType := "int"
  const IntegerPattern := "^[0-9]*$"

  /** A form value: a string, or an object of named values (as nested existing values are). */
  datatype Value = Str(s: string) | Obj(entries: seq<(string, Value)>)

  /**
   * A plugin parameter. `kind` is its `type` property ("object" for nested parameters);
   * `hasProperties` tells whether an object parameter defines its `properties`; `autoCompletion`
   * holds, when the parameter has auto-completion, the parameters it depends on;
   * `defaultValue` is the parameter's default as a form value.
   */
  datatype Param = Param(parameterType: string, kind: string, hasProperties: bool, properties: seq<(string, Param)>,
                         required: Option<seq<string>>, autoCompletion: Option<seq<string>>, defaultValue: Value,
                         visibleInDialog: bool, advanced: bool)

  /** The validation rule a field is registered with. */
  datatype Rule = Rule(required: bool, pattern: Option<string>)

  /** One atomic parameter as it is registered: its form key, rule, initial value and whether others depend on it. */
  datatype Registered = Registered(key: string, rule: Rule, value: Value, dependent: bool)

  /** `valueRestrictions`: integer parameters must match `^[0-9]*$`, all others are unrestricted. */
  function ValueRestriction(param: Param): (r: Option<string>)
    ensures r.Some? <==> param.parameterType == IntegerType
    ensures r.Some? ==> r.value == IntegerPattern
  {
    if param.parameterType == IntegerType then Some(IntegerPattern) else None
  }

  /** The parameters the auto-completing parameters of one level depend on, in order. */
  function DependsOn(params: seq<(string, Param)>): seq<string>
  {
    if params == [] then []
    else (if params[0].1.autoCompletion.Some? then params[0].1.autoCompletion.value else []) + DependsOn(params[1..])
  }

  /**
   * The existing values of an object parameter's members; anything but an object has none.
   * Here and in `CurrentValue`, `parameterValues` maps each id to the `.value` of the
   * program's entry, which is the only field of it the form reads.
   */
  function NestedValues(parameterValues: Record<Value>, paramId: string): Record<Value>
  {
    var v := Get(parameterValues, paramId);
    if v.Some? && v.value.Obj? then v.value.entries else []
  }

  /** A field's initial value: the existing value when updating and there is one, the default otherwise. */
  function CurrentValue(paramId: string, param: Param, parameterValues: Record<Value>, updating: bool): (r: Value)
    ensures updating && HasKey(parameterValues, paramId) ==> r == Get(parameterValues, paramId).value
    ensures !(updating && HasKey(parameterValues, paramId)) ==> r == param.defaultValue
  {
    if updating && HasKey(parameterValues, paramId) then Get(parameterValues, paramId).value else param.defaultValue
  }

  /** What `registerParameters(prefix, params, …)` registers, parameter by parameter. */
  function RegistrationsFrom(prefix: string, params: seq<(string, Param)>, parameterValues: Record<Value>,
                             requiredParameters: seq<string>, dependsOn: seq<string>, updating: bool): seq<Registered>
    decreases params
  {
    if params == [] then []
    else RegistrationsOf(prefix, params[0], parameterValues, requiredParameters, dependsOn, updating)
         + RegistrationsFrom(prefix, params[1..], parameterValues, requiredParameters, dependsOn, updating)
  }

  /**
   * One parameter: an object parameter with properties registers its members under
   * "key." with its own required list; one without properties registers nothing; any other
   * parameter registers its key.
   */
  function RegistrationsOf(prefix: string, entry: (string, Param), parameterValues: Record<Value>,
                           requiredParameters: seq<string>, dependsOn: seq<string>, updating: bool): seq<Registered>
    decreases entry
  {
    var (paramId, param) := entry;
    var key := prefix + paramId;
    if param.kind == "object" then
      if param.hasProperties then
        RegistrationsFrom(key + ".", param.properties, NestedValues(parameterValues, paramId),
                          param.required.GetOr([]), DependsOn(param.properties), updating)
      else []
    else
      var value := CurrentValue(paramId, param, parameterValues, updating);
      [Registered(key, Rule(paramId in requiredParameters, ValueRestriction(param)), value, paramId in dependsOn)]
  }

  /** The registrations of one level, with that level's dependencies. */
  function Registrations(prefix: string, params: seq<(string, Param)>, parameterValues: Record<Value>,
                         requiredParameters: seq<string>, updating: bool): seq<Registered>
  {
    RegistrationsFrom(prefix, params, parameterValues, requiredParameters, DependsOn(params), updating)
  }

  lemma {:induction false} RegistrationsFromConcat(prefix: string, a: seq<(string, Param)>, b: seq<(string, Param)>,
                                                   parameterValues: Record<Value>, requiredParameters: seq<string>,
                                                   dependsOn: seq<string>, updating: bool)
    ensures RegistrationsFrom(prefix, a + b, parameterValues, requiredParameters, dependsOn, updating)
            == RegistrationsFrom(prefix, a, parameterValues, requiredParameters, dependsOn, updating)
               + RegistrationsFrom(prefix, b, parameterValues, requiredParameters, dependsOn, updating)
    decreases |a|
  {
    if a == [] {
      assert a + b == b;
    } else {
      assert (a + b)[0] == a[0] && (a + b)[1..] == a[1..] + b;
      RegistrationsFromConcat(prefix, a[1..], b, parameterValues, requiredParameters, dependsOn, updating);
    }
  }

  function KeysOf(rs: seq<Registered>): (ks: seq<string>)
    ensures |ks| == |rs|
    ensures forall i :: 0 <= i < |rs| ==> ks[i] == rs[i].key
  {
    seq(|rs|, i requires 0 <= i < |rs| => rs[i].key)
  }

  /** `key` is `base` itself or lies under it, after a dot. */
  predicate Under(key: string, base: string)
  {
    StartsWith(key, base) && (|key| == |base| || key[|base|] == '.')
  }

  /** Every key a level registers starts with the level's prefix. */
  lemma {:induction false} RegistrationsFromPrefix(prefix: string, params: seq<(string, Param)>, parameterValues: Record<Value>,
                                                   requiredParameters: seq<string>, dependsOn: seq<string>, updating: bool)
    ensures forall r :: r in RegistrationsFrom(prefix, params, parameterValues, requiredParameters, dependsOn, updating)
                        ==> StartsWith(r.key, prefix)
    ensures forall r :: r in RegistrationsFrom(prefix, params, parameterValues, requiredParameters, dependsOn, updating)
                        ==> exists j :: 0 <= j < |params| && Under(r.key, prefix + params[j].0)
    decreases params
  {
    if params != [] {
      RegistrationsOfUnder(prefix, params[0], parameterValues, requiredParameters, dependsOn, updating);
      RegistrationsFromPrefix(prefix, params[1..], parameterValues, requiredParameters, dependsOn, updating);
      forall r | r in RegistrationsFrom(prefix, params, parameterValues, requiredParameters, dependsOn, updating)
        ensures StartsWith(r.key, prefix)
        ensures exists j :: 0 <= j < |params| && Under(r.key, prefix + params[j].0)
      {
        if r in RegistrationsOf(prefix, params[0], parameterValues, requiredParameters, dependsOn, updating) {
          var base := prefix + params[0].0;
          assert r.key[..|prefix|] == base[..|prefix|] == prefix;
        } else {
          var j :| 0 <= j < |params[1..]| && Under(r.key, prefix + params[1..][j].0);
          assert params[j + 1] == params[1..][j];
        }
      }
    }
  }

  /** Every key one parameter registers is its own key or lies under it. */
  lemma {:induction false} RegistrationsOfUnder(prefix: string, entry: (string, Param), parameterValues: Record<Value>,
                                                requiredParameters: seq<string>, dependsOn: seq<string>, updating: bool)
    ensures forall r :: r in RegistrationsOf(prefix, entry, parameterValues, requiredParameters, dependsOn, updating)
                        ==> Under(r.key, prefix + entry.0)
    decreases entry
  {
    var (paramId, param) := entry;
    var key := prefix + paramId;
    if param.kind == "object" && param.hasProperties {
      var nested := NestedValues(parameterValues, paramId);
      RegistrationsFromPrefix(key + ".", param.properties, nested, param.required.GetOr([]), DependsOn(param.properties), updating);
      forall r | r in RegistrationsOf(prefix, entry, parameterValues, requiredParameters, dependsOn, updating)
        ensures Under(r.key, key)
      {
        assert StartsWith(r.key, key + ".");
        assert r.key[..|key|] == (key + ".")[..|key|] == key;
        assert r.key[|key|] == (key + ".")[|key|] == '.';
      }
    }
  }

  /** Keys under two different dot-free parameter ids of one prefix never coincide. */
  lemma UnderDisjoint(k1: string, k2: string, prefix: string, a: string, b: string)
    requires Under(k1, prefix + a) && Under(k2, prefix + b)
    requires a != b && '.' !in a && '.' !in b
    ensures k1 != k2
  {
    if |a| <= |b| {
      UnderShorter(k1, k2, prefix, a, b);
    } else {
      UnderShorter(k2, k1, prefix, b, a);
    }
  }

  lemma UnderShorter(k1: string, k2: string, prefix: string, a: string, b: string)
    requires Under(k1, prefix + a) && Under(k2, prefix + b)
    requires a != b && '.' !in b && |a| <= |b|
    ensures k1 != k2
  {
    var la := |prefix + a|;
    if |a| == |b| {
      assert (prefix + a)[|prefix|..] == a && (prefix + b)[|prefix|..] == b;
      assert k1[..la] == prefix + a && k2[..la] == prefix + b;
    } else if |k1| > la {
      assert k1[la] == '.';
      assert k2[la] == (prefix + b)[la] == b[|a|];
      assert b[|a|] in b;
    }
  }

  /**
   * Parameter ids as plugins define them: unique within a level, free of dots, and so at every
   * nested level.
   */
  predicate WellFormed(params: seq<(string, Param)>)
    decreases params
  {
    && (forall i, j :: 0 <= i < j < |params| ==> params[i].0 != params[j].0)
    && (forall i :: 0 <= i < |params| ==> WellFormedEntry(params[i]))
  }

  predicate WellFormedEntry(entry: (string, Param))
    decreases entry
  {
    '.' !in entry.0 && WellFormed(entry.1.properties)
  }

  /** With well-formed ids, no key is registered twice: the returned keys list each field once. */
  lemma {:induction false} RegistrationKeysDistinct(prefix: string, params: seq<(string, Param)>, parameterValues: Record<Value>,
                                                    requiredParameters: seq<string>, dependsOn: seq<string>, updating: bool)
    requires WellFormed(params)
    ensures Distinct(KeysOf(RegistrationsFrom(prefix, params, parameterValues, requiredParameters, dependsOn, updating)))
    decreases params
  {
    if params != [] {
      var first := RegistrationsOf(prefix, params[0], parameterValues, requiredParameters, dependsOn, updating);
      var rest := RegistrationsFrom(prefix, params[1..], parameterValues, requiredParameters, dependsOn, updating);
      assert WellFormedEntry(params[0]);
      assert WellFormed(params[1..]) by {
        forall i | 0 <= i < |params[1..]| ensures WellFormedEntry(params[1..][i]) {
          assert params[1..][i] == params[i + 1];
        }
      }
      RegistrationsOfDistinct(prefix, params[0], parameterValues, requiredParameters, dependsOn, updating);
      RegistrationKeysDistinct(prefix, params[1..], parameterValues, requiredParameters, dependsOn, updating);
      RegistrationsOfUnder(prefix, params[0], parameterValues, requiredParameters, dependsOn, updating);
      RegistrationsFromPrefix(prefix, params[1..], parameterValues, requiredParameters, dependsOn, updating);
      var all := first + rest;
      var ks := KeysOf(all);
      forall x, y | 0 <= x < y < |ks| ensures ks[x] != ks[y] {
        if y < |first| {
          assert KeysOf(first)[x] == ks[x] && KeysOf(first)[y] == ks[y];
        } else if x >= |first| {
          assert KeysOf(rest)[x - |first|] == ks[x] && KeysOf(rest)[y - |first|] == ks[y];
        } else {
          assert all[x] in first && all[y] in rest;
          var j :| 0 <= j < |params[1..]| && Under(all[y].key, prefix + params[1..][j].0);
          assert params[1..][j] == params[j + 1];
          assert WellFormedEntry(params[j + 1]);
          UnderDisjoint(all[x].key, all[y].key, prefix, params[0].0, params[j + 1].0);
        }
      }
    }
  }

  lemma {:induction false} RegistrationsOfDistinct(prefix: string, entry: (string, Param), parameterValues: Record<Value>,
                                                   requiredParameters: seq<string>, dependsOn: seq<string>, updating: bool)
    requires WellFormed(entry.1.properties)
    ensures Distinct(KeysOf(RegistrationsOf(prefix, entry, parameterValues, requiredParameters, dependsOn, updating)))
    decreases entry
  {
    var (paramId, param) := entry;
    if param.kind == "object" && param.hasProperties {
      RegistrationKeysDistinct(prefix + paramId + ".", param.properties, NestedValues(parameterValues, paramId),
                               param.required.GetOr([]), DependsOn(param.properties), updating);
    }
  }

  /** The registration state: the effect's returned keys, the form's rules and values, and the dependent values. */
  datatype FormState = FormState(returnKeys: seq<string>, rules: Record<Rule>, values: Record<Value>,
                                 dependentValues: Record<Value>)

  /** One atomic parameter: its key is returned, registered with its rule and set to its value; a dependency's value is kept. */
  function Step(st: FormState, r: Registered): FormState
  {
    FormState(st.returnKeys + [r.key], Put(st.rules, r.key, r.rule), Put(st.values, r.key, r.value),
              if r.dependent then Put(st.dependentValues, r.key, r.value) else st.dependentValues)
  }

  function Apply(st: FormState, rs: seq<Registered>): FormState
    decreases |rs|
  {
    if rs == [] then st else Apply(Step(st, rs[0]), rs[1..])
  }

  lemma {:induction false} ApplyConcat(st: FormState, a: seq<Registered>, b: seq<Registered>)
    ensures Apply(st, a + b) == Apply(Apply(st, a), b)
    decreases |a|
  {
    if a == [] {
      assert a + b == b;
    } else {
      assert (a + b)[0] == a[0] && (a + b)[1..] == a[1..] + b;
      ApplyConcat(Step(st, a[0]), a[1..], b);
    }
  }

  /**
   * Registering appends exactly the registered keys to the returned keys, and gives each a
   * rule and a value; every other field's rule and value is left alone.
   */
  lemma {:induction false} ApplySpec(st: FormState, rs: seq<Registered>, k: string)
    ensures Apply(st, rs).returnKeys == st.returnKeys + KeysOf(rs)
    ensures HasKey(Apply(st, rs).rules, k) <==> HasKey(st.rules, k) || k in KeysOf(rs)
    ensures k !in KeysOf(rs) ==> Get(Apply(st, rs).rules, k) == Get(st.rules, k)
    ensures k !in KeysOf(rs) ==> Get(Apply(st, rs).values, k) == Get(st.values, k)
    decreases |rs|
  {
    if rs != [] {
      var next := Step(st, rs[0]);
      ApplySpec(next, rs[1..], k);
      GetPut(st.rules, rs[0].key, rs[0].rule, k);
      GetPut(st.values, rs[0].key, rs[0].value, k);
      assert KeysOf(rs) == [rs[0].key] + KeysOf(rs[1..]);
    }
  }

  /** The form and the effect's state. */
  class TaskFormEffect {
    var returnKeys: seq<string>
    var rules: Record<Rule>
    var values: Record<Value>
    var dependentValues: Record<Value>
    var formValueKeys: seq<string>

    function State(): FormState
      reads this
    {
      FormState(returnKeys, rules, values, dependentValues)
    }

    constructor ()
      ensures State() == FormState([], [], [], []) && formValueKeys == []
    {
      returnKeys := [];
      rules := [];
      values := [];
      dependentValues := [];
      formValueKeys := [];
    }

    /** `registerParameters`: each parameter of the level in turn. */
    method RegisterParameters(prefix: string, params: seq<(string, Param)>, parameterValues: Record<Value>,
                              requiredParameters: seq<string>, updating: bool)
      modifies this
      ensures State() == Apply(old(State()), Registrations(prefix, params, parameterValues, requiredParameters, updating))
      ensures formValueKeys == old(formValueKeys)
      decreases params, 1
    {
      var dependsOn := DependsOn(params);
      var i := 0;
      while i < |params|
        invariant 0 <= i <= |params|
        invariant State() == Apply(old(State()), RegistrationsFrom(prefix, params[..i], parameterValues, requiredParameters, dependsOn, updating))
        invariant formValueKeys == old(formValueKeys)
      {
        ghost var before := State();
        RegisterParameter(prefix, params[i], parameterValues, requiredParameters, dependsOn, updating);
        assert params[..i + 1] == params[..i] + [params[i]];
        RegistrationsFromConcat(prefix, params[..i], [params[i]], parameterValues, requiredParameters, dependsOn, updating);
        assert [params[i]][1..] == [];
        assert RegistrationsFrom(prefix, [params[i]], parameterValues, requiredParameters, dependsOn, updating)
               == RegistrationsOf(prefix, params[i], parameterValues, requiredParameters, dependsOn, updating) + [];
        ghost var done := RegistrationsFrom(prefix, params[..i], parameterValues, requiredParameters, dependsOn, updating);
        ghost var one := RegistrationsOf(prefix, params[i], parameterValues, requiredParameters, dependsOn, updating);
        ApplyConcat(old(State()), done, one);
        assert State() == Apply(before, one);
        assert before == Apply(old(State()), done);
        assert RegistrationsFrom(prefix, params[..i + 1], parameterValues, requiredParameters, dependsOn, updating) == done + one;
        i := i + 1;
      }
      assert params[..i] == params;
    }

    /**
     * The callback for one parameter: an object parameter registers its members under
     * "key."; any other parameter's key is returned, registered with its rule and set to its
     * initial value, which is also kept when other parameters depend on it.
     */
    method RegisterParameter(prefix: string, entry: (string, Param), parameterValues: Record<Value>,
                             requiredParameters: seq<string>, dependsOn: seq<string>, updating: bool)
      modifies this
      ensures State() == Apply(old(State()), RegistrationsOf(prefix, entry, parameterValues, requiredParameters, dependsOn, updating))
      ensures formValueKeys == old(formValueKeys)
      decreases entry, 0
    {
      var (paramId, param) := entry;
      var key := prefix + paramId;
      if param.kind == "object" {
        if param.hasProperties {
          RegisterParameters(key + ".", param.properties, NestedValues(parameterValues, paramId),
                             param.required.GetOr([]), updating);
        }
      } else {
        var currentValue := CurrentValue(paramId, param, parameterValues, updating);
        returnKeys := returnKeys + [key];
        rules := Put(rules, key, Rule(paramId in requiredParameters, ValueRestriction(param)));
        values := Put(values, key, currentValue);
        if paramId in dependsOn {
          dependentValues := Put(dependentValues, key, currentValue);
        }
      }
    }

    /**
     * The effect: when creating, "label" (required) and "description" are registered first;
     * then every visible parameter, with the existing values when updating; the returned keys
     * become the form's value keys.
     */
    method Mount(visibleParams: seq<(string, Param)>, existingValues: Record<Value>, requiredRootParameters: seq<string>,
                 updating: bool)
      modifies this
      ensures State() == Apply(Registered_(old(State()), updating),
                               Registrations("", visibleParams, if updating then existingValues else [], requiredRootParameters, updating))
      ensures formValueKeys == returnKeys
    {
      returnKeys := [];
      if !updating {
        rules := Put(Put(rules, Label, Rule(true, None)), Description, Rule(false, None));
      }
      RegisterParameters("", visibleParams, if updating then existingValues else [], requiredRootParameters, updating);
      formValueKeys := returnKeys;
    }

    /** The clean-up: unregisters "label" and "description" when creating, then every returned key. */
    method Cleanup(updating: bool)
      modifies this
      ensures rules == Unregistered(old(rules), old(returnKeys), updating)
      ensures returnKeys == old(returnKeys) && values == old(values) && dependentValues == old(dependentValues)
      ensures formValueKeys == old(formValueKeys)
    {
      var r := rules;
      if !updating {
        r := Delete(Delete(r, Label), Description);
      }
      var keys := returnKeys;
      var i := 0;
      while i < |keys|
        invariant 0 <= i <= |keys|
        invariant Unregistered(rules, keys, updating) == DeleteAll(r, keys[i..])
      {
        assert keys[i..] == [keys[i]] + keys[i + 1..];
        r := Delete(r, keys[i]);
        i := i + 1;
      }
      rules := r;
    }

    /** `handleChange(key)(value)`: the value is set, and a dependency's kept value follows it. */
    method HandleChange(key: string, value: Value)
      modifies this
      ensures values == Put(old(values), key, value)
      ensures HasKey(old(dependentValues), key) ==> dependentValues == Put(old(dependentValues), key, value)
      ensures !HasKey(old(dependentValues), key) ==> dependentValues == old(dependentValues)
      ensures returnKeys == old(returnKeys) && rules == old(rules) && formValueKeys == old(formValueKeys)
    {
      if HasKey(dependentValues, key) {
        dependentValues := Put(dependentValues, key, value);
      }
      values := Put(values, key, value);
    }
  }

  /** The state before the parameters are registered: no returned keys yet, and "label" and "description" when creating. */
  function Registered_(st: FormState, updating: bool): FormState
  {
    FormState([], if updating then st.rules else Put(Put(st.rules, Label, Rule(true, None)), Description, Rule(false, None)),
              st.values, st.dependentValues)
  }

  function DeleteAll<V>(r: Record<V>, keys: seq<string>): Record<V>
    decreases |keys|
  {
    if keys == [] then r else DeleteAll(Delete(r, keys[0]), keys[1..])
  }

  /** The rules after the clean-up. */
  function Unregistered(rules: Record<Rule>, returnKeys: seq<string>, updating: bool): Record<Rule>
  {
    DeleteAll(if updating then rules else Delete(Delete(rules, Label), Description), returnKeys)
  }

  lemma {:induction false} DeleteAllSpec<V>(r: Record<V>, keys: seq<string>, k: string)
    ensures Get(DeleteAll(r, keys), k) == if k in keys then None else Get(r, k)
    decreases |keys|
  {
    if keys != [] {
      DeleteAllSpec(Delete(r, keys[0]), keys[1..], k);
      GetDelete(r, keys[0], k);
      assert keys == [keys[0]] + keys[1..];
    }
  }

  /**
   * Mounting and then cleaning up leaves no rule for "label", "description" (when creating) or
   * any registered field, and every other field's rule as it was before.
   */
  lemma MountThenCleanup(st: FormState, visibleParams: seq<(string, Param)>, existingValues: Record<Value>,
                         requiredRootParameters: seq<string>, updating: bool, k: string)
    ensures var rs := Registrations("", visibleParams, if updating then existingValues else [], requiredRootParameters, updating);
            var mounted := Apply(Registered_(st, updating), rs);
            var removed := (k in KeysOf(rs)) || (!updating && (k == Label || k == Description));
            Get(Unregistered(mounted.rules, mounted.returnKeys, updating), k) == if removed then None else Get(st.rules, k)
  {
    var rs := Registrations("", visibleParams, if updating then existingValues else [], requiredRootParameters, updating);
    var start := Registered_(st, updating);
    var mounted := Apply(start, rs);
    ApplySpec(start, rs, k);
    assert mounted.returnKeys == KeysOf(rs);
    DeleteAllSpec(if updating then mounted.rules else Delete(Delete(mounted.rules, Label), Description), mounted.returnKeys, k);
    if !updating {
      GetDelete(Delete(mounted.rules, Label), Description, k);
      GetDelete(mounted.rules, Label, k);
      GetPut(Put(st.rules, Label, Rule(true, None)), Description, Rule(false, None), k);
      GetPut(st.rules, Label, Rule(true, None), k);
    }
  }

  /** The parameters shown in the dialog. */
  function VisibleParams(properties: seq<(string, Param)>): seq<(string, Param)>
  {
    if properties == [] then []
    else (if properties[0].1.visibleInDialog then [properties[0]] else []) + VisibleParams(properties[1..])
  }

  function NormalParams(params: seq<(string, Param)>): seq<(string, Param)>
  {
    if params == [] then [] else (if !params[0].1.advanced then [params[0]] else []) + NormalParams(params[1..])
  }

  function AdvancedParams(params: seq<(string, Param)>): seq<(string, Param)>
  {
    if params == [] then [] else (if params[0].1.advanced then [params[0]] else []) + AdvancedParams(params[1..])
  }

  /** The visible parameters split exactly into the normal and the advanced ones. */
  lemma {:induction false} ParamsSplit(params: seq<(string, Param)>)
    ensures multiset(NormalParams(params)) + multiset(AdvancedParams(params)) == multiset(params)
    ensures forall e :: e in NormalParams(params) ==> e in params && !e.1.advanced
    ensures forall e :: e in AdvancedParams(params) ==> e in params && e.1.advanced
  {
    if params != [] {
      ParamsSplit(params[1..]);
      assert params == [params[0]] + params[1..];
    }
  }

  /** Only parameters marked visible in the dialog are shown, each as often as it is defined. */
  lemma {:induction false} VisibleParamsSpec(properties: seq<(string, Param)>)
    ensures forall e :: e in VisibleParams(properties) <==> e in properties && e.1.visibleInDialog
    ensures |VisibleParams(properties)| <= |properties|
  {
    if properties != [] {
      VisibleParamsSpec(properties[1..]);
      assert properties == [properties[0]] + properties[1..];
    }
  }
}
