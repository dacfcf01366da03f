// The read-only preview of a task's settings (views/shared/TaskConfig/TaskConfigPreview.tsx):
// the (nested) parameter values flattened into "title" or "outer title: inner title" entries,
// restricted to parameters shown in dialogs that are neither advanced nor passwords, and to
// values that are not blank.
module TaskConfigPreview {
  import opened Results
  import opened Records
  import opened JsStrings
  import opened JsonValues

  const TypeError := "TypeError"
  /** `INPUT_TYPES.PASSWORD`. */
  const PasswordType := "password"

  /** The plugin's description of one parameter; object parameters describe their own properties. */
  datatype ParamDescription = ParamDescription(
    title: string,
    parameterType: string,
    visibleInDialog: bool,
    advanced: bool,
    properties: Option<Record<ParamDescription>>)

  /** The parameters the preview lists. */
  predicate Listed(pd: ParamDescription)
  {
    pd.visibleInDialog && !pd.advanced && pd.parameterType != PasswordType
  }

  /**
   * `paramDisplayValue`: a string as it is; otherwise the `label` if it is a string, else the
   * `value` if it is a string, else a truthy `value`, else the value itself. Reading a field of
   * `null` throws.
   */
  function DisplayValue(v: Json): (r: Result<Json, string>)
    ensures r.Err? <==> v.JNull?
    ensures r.Ok? ==> !r.value.JNull? && JsonSize(r.value) <= JsonSize(v)
  {
    match v
    case JNull => Err(TypeError)
    case JObject(fields) =>
      var labelField := Get(fields, "label");
      var valueField := Get(fields, "value");
      if labelField.Some? && labelField.value.JString? then
        Ok(labelField.value)
      else if valueField.Some? && valueField.value.JString? then
        Ok(valueField.value)
      else if valueField.Some? && Truthy(valueField.value) then
        GetSize(fields, "value");
        Ok(valueField.value)
      else
        Ok(v)
    case _ => Ok(v)
  }

  /** The object has the field `k`, and its value is a string (`typeof o[k] === "string"`). */
  predicate StringField(fields: Record<Json>, k: string)
  {
    Get(fields, k).Some? && Get(fields, k).value.JString?
  }

  /** The object has the field `k`, and its value is truthy. */
  predicate TruthyField(fields: Record<Json>, k: string)
  {
    Get(fields, k).Some? && Truthy(Get(fields, k).value)
  }

  /**
   * What a parameter value is shown as, in order of preference: a string stays itself; for an
   * object, a string label, then a string value, then any other truthy value, and without
   * those the object itself. Any other value is shown as it is; only `null` throws.
   */
  lemma DisplayValueSpec(v: Json)
    ensures v.JNull? ==> DisplayValue(v).Err?
    ensures !v.JNull? && !v.JObject? ==> DisplayValue(v) == Ok(v)
    ensures v.JObject? && StringField(v.fields, "label") ==> DisplayValue(v) == Ok(Get(v.fields, "label").value)
    ensures v.JObject? && !StringField(v.fields, "label") && StringField(v.fields, "value") ==>
      DisplayValue(v) == Ok(Get(v.fields, "value").value)
    ensures v.JObject? && !StringField(v.fields, "label") && !StringField(v.fields, "value")
            && TruthyField(v.fields, "value") ==>
      DisplayValue(v) == Ok(Get(v.fields, "value").value)
    ensures v.JObject? && !StringField(v.fields, "label") && !StringField(v.fields, "value")
            && !TruthyField(v.fields, "value") ==>
      DisplayValue(v) == Ok(v)
  {
  }

  /** The description of `key`, which must exist. */
  function DescriptionOf(descriptions: Record<ParamDescription>, key: string): ParamDescription
    requires HasKey(descriptions, key)
  {
    Get(descriptions, key).value
  }

  /** The entry reaches the preview: it has a description, and that description is listed. */
  predicate KeptEntry(e: (string, Json), descriptions: Option<Record<ParamDescription>>)
  {
    descriptions.Some? && HasKey(descriptions.value, e.0) && Listed(DescriptionOf(descriptions.value, e.0))
  }

  /** The entry makes the filter throw: its description (or the whole description object) is missing. */
  predicate Undescribed(e: (string, Json), descriptions: Option<Record<ParamDescription>>)
  {
    descriptions.None? || !HasKey(descriptions.value, e.0)
  }

  /**
   * The `filter` over the object's entries: listed parameters, in order. A key without a
   * description throws, because its type is read before the description is checked.
   */
  function Kept(obj: Record<Json>, descriptions: Option<Record<ParamDescription>>): (r: Result<Record<Json>, string>)
    ensures r.Err? <==> exists i :: 0 <= i < |obj| && Undescribed(obj[i], descriptions)
    ensures r.Ok? ==> RecordSize(r.value) <= RecordSize(obj)
    ensures r.Ok? ==> forall e :: e in r.value <==> e in obj && KeptEntry(e, descriptions)
  {
    if obj == [] then Ok([])
    else if Undescribed(obj[0], descriptions) then Err(TypeError)
    else
      var rest := Kept(obj[1..], descriptions);
      assert forall i :: 1 <= i < |obj| ==> obj[1..][i - 1] == obj[i];
      if rest.Err? then rest
      else if Listed(DescriptionOf(descriptions.value, obj[0].0)) then Ok([obj[0]] + rest.value)
      else Ok(rest.value)
  }

  /**
   * The writes `taskValuesRec(obj, labelPrefix, descriptions)` makes to the result, in order:
   * an atomic display value under `labelPrefix` + title, an object display value through a
   * nested call whose prefix is the parameter's own title and ": ".
   */
  function Writes(obj: Record<Json>, labelPrefix: string, descriptions: Option<Record<ParamDescription>>)
    : Result<Record<Json>, string>
    decreases RecordSize(obj), 1
  {
    match Kept(obj, descriptions)
    case Err(e) => Err(e)
    case Ok(kept) => EntryWrites(kept, labelPrefix, descriptions.GetOr([]))
  }

  /** The writes of the `forEach` over the kept entries. */
  function EntryWrites(kept: Record<Json>, labelPrefix: string, descriptions: Record<ParamDescription>)
    : Result<Record<Json>, string>
    requires forall e :: e in kept ==> HasKey(descriptions, e.0)
    decreases RecordSize(kept), 0
  {
    if kept == [] then Ok([])
    else
      var pd := DescriptionOf(descriptions, kept[0].0);
      assert forall e :: e in kept[1..] ==> e in kept;
      match DisplayValue(kept[0].1)
      case Err(e) => Err(e)
      case Ok(d) =>
        if d.JObject? then
          match Writes(d.fields, pd.title + ": ", pd.properties)
          case Err(e) => Err(e)
          case Ok(nested) =>
            match EntryWrites(kept[1..], labelPrefix, descriptions)
            case Err(e) => Err(e)
            case Ok(later) => Ok(nested + later)
        else
          match EntryWrites(kept[1..], labelPrefix, descriptions)
          case Err(e) => Err(e)
          case Ok(later) => Ok([(labelPrefix + pd.title, d)] + later)
  }

  /** `p` followed by the entries of `r`, or the error. */
  function Prefixed(p: Record<Json>, r: Result<Record<Json>, string>): Result<Record<Json>, string>
  {
    match r
    case Err(e) => Err(e)
    case Ok(x) => Ok(p + x)
  }

  lemma PrefixedEmpty(r: Result<Record<Json>, string>)
    ensures Prefixed([], r) == r
  {
    if r.Ok? {
      assert [] + r.value == r.value;
    }
  }

  /** The outcome of applying `writes` to `result`, or the error. */
  function Applied(result: Record<Json>, writes: Result<Record<Json>, string>): Result<Record<Json>, string>
  {
    match writes
    case Err(e) => Err(e)
    case Ok(w) => Ok(PutAll(result, w))
  }

  /**
   * `taskValuesRec`: filters the entries, then writes each kept one into `result`, recursing
   * into object values; the outcome is `result` with the writes of `Writes` applied.
   */
  method TaskValuesRec(obj: Record<Json>, labelPrefix: string, paramDescriptions: Option<Record<ParamDescription>>,
                       result: Record<Json>) returns (r: Result<Record<Json>, string>)
    ensures r == Applied(result, Writes(obj, labelPrefix, paramDescriptions))
    decreases RecordSize(obj)
  {
    // the filter, a pure expression
    var filtered := Kept(obj, paramDescriptions);
    if filtered.Err? {
      return Err(filtered.error);
    }
    var kept := filtered.value;
    var descriptions := paramDescriptions.GetOr([]);
    // the forEach
    var current := result;
    ghost var written: Record<Json> := [];
    var j := 0;
    assert kept[j..] == kept;
    PrefixedEmpty(EntryWrites(kept, labelPrefix, descriptions));
    while j < |kept|
      invariant 0 <= j <= |kept|
      invariant RecordSize(kept[j..]) <= RecordSize(obj)
      invariant current == PutAll(result, written)
      invariant EntryWrites(kept, labelPrefix, descriptions)
                == Prefixed(written, EntryWrites(kept[j..], labelPrefix, descriptions))
    {
      var rest := kept[j..];
      assert rest[0] == kept[j] && rest[1..] == kept[j + 1..];
      assert forall e :: e in rest ==> e in kept;
      EntryWritesUnfold(rest, labelPrefix, descriptions);
      var pd := DescriptionOf(descriptions, kept[j].0);
      var d := DisplayValue(kept[j].1);
      if d.Err? {
        return Err(d.error);
      }
      var later := EntryWrites(kept[j + 1..], labelPrefix, descriptions);
      if d.value.JObject? {
        var sub := TaskValuesRec(d.value.fields, pd.title + ": ", pd.properties, current);
        if sub.Err? {
          return sub;
        }
        var nested := Writes(d.value.fields, pd.title + ": ", pd.properties).value;
        PutAllConcat(result, written, nested);
        PrefixedConcat(written, nested, later);
        current := sub.value;
        written := written + nested;
      } else {
        var w := [(labelPrefix + pd.title, d.value)];
        PutAllConcat(result, written, w);
        PrefixedConcat(written, w, later);
        current := Put(current, labelPrefix + pd.title, d.value);
        written := written + w;
      }
      j := j + 1;
    }
    assert kept[j..] == [];
    assert written + [] == written;
    r := Ok(current);
  }

  /** One step of the `forEach`: the first kept entry's writes come before the rest's. */
  lemma EntryWritesUnfold(rest: Record<Json>, labelPrefix: string, descriptions: Record<ParamDescription>)
    requires rest != []
    requires forall e :: e in rest ==> HasKey(descriptions, e.0)
    ensures JsonSize(rest[0].1) + RecordSize(rest[1..]) == RecordSize(rest)
    ensures var d := DisplayValue(rest[0].1);
            var pd := DescriptionOf(descriptions, rest[0].0);
            var later := EntryWrites(rest[1..], labelPrefix, descriptions);
            && (d.Err? ==> EntryWrites(rest, labelPrefix, descriptions) == Err(d.error))
            && (d.Ok? && d.value.JObject? ==>
                  EntryWrites(rest, labelPrefix, descriptions)
                  == match Writes(d.value.fields, pd.title + ": ", pd.properties)
                     case Err(e) => Err(e)
                     case Ok(nested) => Prefixed(nested, later))
            && (d.Ok? && !d.value.JObject? ==>
                  EntryWrites(rest, labelPrefix, descriptions) == Prefixed([(labelPrefix + pd.title, d.value)], later))
  {
    assert forall e :: e in rest[1..] ==> e in rest;
  }

  lemma PrefixedConcat(a: Record<Json>, b: Record<Json>, r: Result<Record<Json>, string>)
    ensures Prefixed(a, Prefixed(b, r)) == Prefixed(a + b, r)
  {
    if r.Ok? {
      assert a + (b + r.value) == (a + b) + r.value;
    }
  }

  /** `taskValues(parameters)`: the flat record of labels and display values. */
  function TaskValues(parameters: Record<Json>, descriptions: Record<ParamDescription>): Result<Record<Json>, string>
  {
    Applied([], Writes(parameters, "", Some(descriptions)))
  }

  /**
   * The entries that are shown: those whose value is not blank. Trimming a value that is not
   * a string throws.
   */
  function NonBlank(values: Record<Json>): (r: Result<seq<(string, string)>, string>)
    ensures r.Err? <==> exists i :: 0 <= i < |values| && !values[i].1.JString?
    ensures r.Ok? ==> forall p :: p in r.value <==> (p.0, JString(p.1)) in values && Trim(p.1) != ""
  {
    if values == [] then Ok([])
    else
      var rest := NonBlank(values[1..]);
      assert forall i :: 1 <= i < |values| ==> values[1..][i - 1] == values[i];
      if !values[0].1.JString? then Err(TypeError)
      else if rest.Err? then rest
      else if Trim(values[0].1.s) != "" then Ok([(values[0].0, values[0].1.s)] + rest.value)
      else rest
  }

  datatype Preview = NoPreview | Listing(pairs: seq<(string, string)>)

  /** The component: no task data shows "no preview"; otherwise the non-blank flattened values. */
  function TaskConfigPreview(taskData: Option<Record<Json>>, descriptions: Record<ParamDescription>)
    : Result<Preview, string>
  {
    match taskData
    case None => Ok(NoPreview)
    case Some(parameters) =>
      match TaskValues(parameters, descriptions)
      case Err(e) => Err(e)
      case Ok(values) =>
        match NonBlank(values)
        case Err(e) => Err(e)
        case Ok(pairs) => Ok(Listing(pairs))
  }

  /**
   * Each kept entry contributes to the writes: an atomic display value as one write under
   * `labelPrefix` + title, an object display value through all the writes of its own nested
   * level, whose prefix is its title and ": " whatever `labelPrefix` is.
   */
  lemma {:induction false} EntryWritesContain(kept: Record<Json>, labelPrefix: string,
                                               descriptions: Record<ParamDescription>, k: nat)
    requires forall e :: e in kept ==> HasKey(descriptions, e.0)
    requires k < |kept|
    requires EntryWrites(kept, labelPrefix, descriptions).Ok?
    ensures DisplayValue(kept[k].1).Ok?
    ensures var d := DisplayValue(kept[k].1).value;
            var pd := DescriptionOf(descriptions, kept[k].0);
            var all := EntryWrites(kept, labelPrefix, descriptions).value;
            && (!d.JObject? ==> (labelPrefix + pd.title, d) in all)
            && (d.JObject? ==>
                  && Writes(d.fields, pd.title + ": ", pd.properties).Ok?
                  && forall w :: w in Writes(d.fields, pd.title + ": ", pd.properties).value ==> w in all)
    decreases k
  {
    assert kept[0] in kept;
    assert forall e :: e in kept[1..] ==> e in kept;
    if k > 0 {
      EntryWritesContain(kept[1..], labelPrefix, descriptions, k - 1);
      assert kept[1..][k - 1] == kept[k];
    }
  }

  /**
   * A listed top-level parameter whose value shows as a string appears under its title, and
   * one whose value shows as an object contributes its nested entries as "title: inner title".
   */
  lemma TaskValuesWrites(parameters: Record<Json>, descriptions: Record<ParamDescription>, i: nat)
    requires i < |parameters|
    requires Writes(parameters, "", Some(descriptions)).Ok?
    requires KeptEntry(parameters[i], Some(descriptions))
    ensures DisplayValue(parameters[i].1).Ok?
    ensures var d := DisplayValue(parameters[i].1).value;
            var pd := DescriptionOf(descriptions, parameters[i].0);
            var all := Writes(parameters, "", Some(descriptions)).value;
            && (!d.JObject? ==> (pd.title, d) in all)
            && (d.JObject? ==>
                  && Writes(d.fields, pd.title + ": ", pd.properties).Ok?
                  && forall w :: w in Writes(d.fields, pd.title + ": ", pd.properties).value ==> w in all)
  {
    var kept := Kept(parameters, Some(descriptions)).value;
    assert parameters[i] in kept;
    var k :| 0 <= k < |kept| && kept[k] == parameters[i];
    EntryWritesContain(kept, "", descriptions, k);
    assert "" + DescriptionOf(descriptions, parameters[i].0).title == DescriptionOf(descriptions, parameters[i].0).title;
  }

  /**
   * The flat record reads, for each label, the last value written under it: a later parameter
   * with the same (prefixed) title overwrites an earlier one.
   */
  lemma TaskValuesLastWriteWins(parameters: Record<Json>, descriptions: Record<ParamDescription>, labelText: string)
    requires Writes(parameters, "", Some(descriptions)).Ok?
    ensures TaskValues(parameters, descriptions).Ok?
    ensures Get(TaskValues(parameters, descriptions).value, labelText)
            == LastGet(Writes(parameters, "", Some(descriptions)).value, labelText)
  {
    GetPutAll([], Writes(parameters, "", Some(descriptions)).value, labelText);
  }

  /**
   * Without task data the preview says so; otherwise it lists exactly the flattened entries
   * whose value is a non-blank string.
   */
  lemma TaskConfigPreviewSpec(taskData: Option<Record<Json>>, descriptions: Record<ParamDescription>)
    ensures taskData.None? ==> TaskConfigPreview(taskData, descriptions) == Ok(NoPreview)
    ensures taskData.Some? && TaskValues(taskData.value, descriptions).Ok?
            && TaskConfigPreview(taskData, descriptions).Ok? ==>
              var values := TaskValues(taskData.value, descriptions).value;
              && TaskConfigPreview(taskData, descriptions).value.Listing?
              && forall p :: p in TaskConfigPreview(taskData, descriptions).value.pairs <==>
                   (p.0, JString(p.1)) in values && Trim(p.1) != ""
    ensures taskData.Some? && TaskValues(taskData.value, descriptions).Err? ==>
              TaskConfigPreview(taskData, descriptions).Err?
  {
  }
}
