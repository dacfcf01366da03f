// Navigation in the workspace (store/ducks/router/operations.ts): the path segment of an
// item type, page targets relative to the application's base path, and writing search
// parameters into the query string.
module RouterOperations {
  import opened Results
  import opened Records
  import opened JsStrings

  /** The labels a page is opened with, for its title and breadcrumbs. */
  datatype PageLabels = PageLabels(pageTitle: Option<string>, projectLabel: Option<string>, taskLabel: Option<string>)

  const NoLabels := PageLabels(None, None, None)

  /** A history entry the router is asked to add (`push`) or to overwrite (`replace`). */
  datatype Navigation =
    | Push(target: string, pageLabels: Option<PageLabels>)
    | Replace(target: string, pageLabels: Option<PageLabels>)

  /** The error thrown where the source reads a property of `undefined` or `null`. */
  const TypeError := "TypeError"

  // ---------------------------------------------------------------------------------
  // itemTypeToPath
  // ---------------------------------------------------------------------------------

  /** The item types with their own path segment. */
  function PathOfType(str: string): Option<string>
  {
    match str
    case "Transform" => Some("transform")
    case "Linking" => Some("linking")
    case "Workflow" => Some("workflow")
    case "CustomTask" => Some("task")
    case "Dataset" => Some("dataset")
    case _ => None
  }

  /**
   * `itemTypeToPath`: the first character upper-cased, then looked up; unknown types go
   * to "task". The first character of an empty string is `undefined`, so it throws.
   */
  function ItemTypeToPath(itemType: string): Result<string, string>
  {
    if itemType == [] then Err(TypeError)
    else
      var str := [ToUpperChar(itemType[0])] + itemType[1..];
      match PathOfType(str)
      case Some(path) => Ok(path)
      case None => Ok("task")
  }

  /**
   * Every non-empty type gets one of the five path segments and only the empty one
   * fails; a type whose capitalised form is not in the table goes to "task".
   */
  lemma ItemTypeToPathSpec(itemType: string)
    ensures ItemTypeToPath(itemType).Err? <==> itemType == []
    ensures ItemTypeToPath(itemType).Ok? ==>
      ItemTypeToPath(itemType).value in {"transform", "linking", "workflow", "task", "dataset"}
    ensures itemType != [] && PathOfType([ToUpperChar(itemType[0])] + itemType[1..]).None? ==>
      ItemTypeToPath(itemType) == Ok("task")
  {
  }

  /** Each known type is found whether its first letter is upper- or lower-case. */
  lemma KnownItemTypes()
    ensures ItemTypeToPath("Transform") == ItemTypeToPath("transform") == Ok("transform")
    ensures ItemTypeToPath("Linking") == ItemTypeToPath("linking") == Ok("linking")
    ensures ItemTypeToPath("Workflow") == ItemTypeToPath("workflow") == Ok("workflow")
    ensures ItemTypeToPath("CustomTask") == ItemTypeToPath("customTask") == Ok("task")
    ensures ItemTypeToPath("Dataset") == ItemTypeToPath("dataset") == Ok("dataset")
  {
    assert [ToUpperChar('t')] + "transform"[1..] == "Transform";
    assert [ToUpperChar('l')] + "linking"[1..] == "Linking";
    assert [ToUpperChar('w')] + "workflow"[1..] == "Workflow";
    assert [ToUpperChar('c')] + "customTask"[1..] == "CustomTask";
    assert [ToUpperChar('d')] + "dataset"[1..] == "Dataset";
    assert [ToUpperChar('T')] + "Transform"[1..] == "Transform";
    assert [ToUpperChar('L')] + "Linking"[1..] == "Linking";
    assert [ToUpperChar('W')] + "Workflow"[1..] == "Workflow";
    assert [ToUpperChar('C')] + "CustomTask"[1..] == "CustomTask";
    assert [ToUpperChar('D')] + "Dataset"[1..] == "Dataset";
  }

  // ---------------------------------------------------------------------------------
  // goToPage, replacePage, goToTaskPage, updateLocationState
  // ---------------------------------------------------------------------------------

  /** A path starting with "/" is absolute; any other is relative to the base path. */
  predicate IsAbsolute(path: string)
  {
    StartsWith(path, "/")
  }

  /** The target of `goToPage`: absolute paths as given, "" the base path itself. */
  function PageTarget(path: string, servePath: string): string
  {
    if IsAbsolute(path) then path else if path != [] then servePath + "/" + path else servePath
  }

  /** `goToPage`: a new history entry carrying the page labels. */
  function GoToPage(path: string, pageLabels: PageLabels, servePath: string): Navigation
  {
    Push(PageTarget(path, servePath), Some(pageLabels))
  }

  /** `replacePage`: the current history entry overwritten; a relative path always gets "/". */
  function ReplacePage(path: string, pageLabels: PageLabels, servePath: string): Navigation
  {
    Replace(if IsAbsolute(path) then path else servePath + "/" + path, Some(pageLabels))
  }

  /**
   * Where the two page operations lead: an absolute path is kept, a relative one is
   * placed under the base path and the target ends with it; the two agree on every path
   * except the empty one, where only `replacePage` appends a "/". Push adds an entry
   * and replace overwrites one.
   */
  lemma PageTargetSpec(path: string, pageLabels: PageLabels, servePath: string)
    ensures GoToPage(path, pageLabels, servePath).Push? && ReplacePage(path, pageLabels, servePath).Replace?
    ensures var pushed := GoToPage(path, pageLabels, servePath).target;
      var replaced := ReplacePage(path, pageLabels, servePath).target;
      && (IsAbsolute(path) ==> pushed == path && replaced == path)
      && (!IsAbsolute(path) ==> StartsWith(pushed, servePath) && StartsWith(replaced, servePath + "/")
                                && EndsWith(pushed, path) && EndsWith(replaced, path))
      && (path != [] ==> pushed == replaced)
      && (path == [] ==> pushed == servePath && replaced == servePath + "/")
  {
    var pushed := GoToPage(path, pageLabels, servePath).target;
    var replaced := ReplacePage(path, pageLabels, servePath).target;
    if !IsAbsolute(path) {
      assert replaced == (servePath + "/") + path;
      assert replaced[..|servePath + "/"|] == servePath + "/";
      assert replaced[|replaced| - |path|..] == path;
      assert replaced[..|servePath|] == servePath;
      if path == [] {
        assert pushed == servePath;
        assert pushed[|pushed| - |path|..] == path;
      }
    }
  }

  /** The fields of a search result that name a task. */
  datatype TaskRef = TaskRef(projectId: string, itemType: string, id: string, taskLabel: string)

  /** `goToTaskPage`: the task's page under its project, labelled with the task's label. */
  function GoToTaskPage(task: TaskRef, servePath: string): Result<Navigation, string>
  {
    match ItemTypeToPath(task.itemType)
    case Err(e) => Err(e)
    case Ok(segment) =>
      Ok(GoToPage("projects/" + task.projectId + "/" + segment + "/" + task.id,
                  NoLabels.(taskLabel := Some(task.taskLabel)), servePath))
  }

  /**
   * A task page is always pushed below the base path, at the project's page of the
   * task's type, with the task label and no other label; only an empty type fails.
   */
  lemma GoToTaskPageSpec(task: TaskRef, servePath: string)
    ensures GoToTaskPage(task, servePath).Err? <==> task.itemType == []
    ensures GoToTaskPage(task, servePath).Ok? ==>
      GoToTaskPage(task, servePath).value
      == Push(servePath + "/projects/" + task.projectId + "/" + ItemTypeToPath(task.itemType).value + "/" + task.id,
              Some(PageLabels(None, None, Some(task.taskLabel))))
  {
    if task.itemType != [] {
      var path := "projects/" + task.projectId + "/" + ItemTypeToPath(task.itemType).value + "/" + task.id;
      assert path[0] == 'p';
      assert !IsAbsolute(path);
      assert servePath + "/" + path
             == servePath + "/projects/" + task.projectId + "/" + ItemTypeToPath(task.itemType).value + "/" + task.id;
    }
  }

  /**
   * `updateLocationState`: the label of a task when a project is given, of a project
   * otherwise; the page is relabelled only while the browser is still on it.
   */
  function UpdateLocationState(forPath: string, projectId: string, metaLabel: string, pathname: string, servePath: string)
    : Option<Navigation>
  {
    var newLabels := if projectId != [] then NoLabels.(taskLabel := Some(metaLabel)) else NoLabels.(projectLabel := Some(metaLabel));
    if EndsWith(pathname, forPath) then Some(ReplacePage(forPath, newLabels, servePath)) else None
  }

  /**
   * The current entry is overwritten exactly when the pathname ends with the page's path,
   * with exactly one label set: the task label under a project, the project label otherwise.
   */
  lemma UpdateLocationStateSpec(forPath: string, projectId: string, metaLabel: string, pathname: string, servePath: string)
    ensures var r := UpdateLocationState(forPath, projectId, metaLabel, pathname, servePath);
      && (r.Some? <==> EndsWith(pathname, forPath))
      && (r.Some? ==> r.value.Replace? && r.value.target == ReplacePage(forPath, NoLabels, servePath).target)
      && (r.Some? && projectId != [] ==> r.value.pageLabels == Some(PageLabels(None, None, Some(metaLabel))))
      && (r.Some? && projectId == [] ==> r.value.pageLabels == Some(PageLabels(None, Some(metaLabel), None)))
  {
  }

  // ---------------------------------------------------------------------------------
  // setQueryString
  // ---------------------------------------------------------------------------------

  /** A parameter value: an array, a value whose `toString()` is `text`, or null/undefined. */
  datatype ParamValue = Array(items: seq<string>) | Scalar(text: string) | Nullish

  /** A value stored in the query: an array or a string. */
  datatype QueryValue = Values(items: seq<string>) | Text(text: string)

  /** What `validValue` is for a value, or the error `toString` throws on null/undefined. */
  function ValidValue(values: ParamValue): Result<QueryValue, string>
  {
    match values
    case Array(items) => Ok(Values(items))
    case Scalar(text) => Ok(Text(text))
    case Nullish => Err(TypeError)
  }

  /** `validValue && validValue.length`: a non-empty array or string. */
  predicate NonEmpty(v: QueryValue)
  {
    match v
    case Values(items) => items != []
    case Text(text) => text != []
  }

  /** One parameter: written when non-empty, deleted otherwise. */
  function ApplyParam(query: Record<QueryValue>, paramName: string, values: ParamValue): Result<Record<QueryValue>, string>
  {
    match ValidValue(values)
    case Err(e) => Err(e)
    case Ok(v) => Ok(if NonEmpty(v) then Put(query, paramName, v) else Delete(query, paramName))
  }

  /** The parameters applied in key order, stopping at the first that throws. */
  function ApplyParams(query: Record<QueryValue>, queryParams: Record<ParamValue>): Result<Record<QueryValue>, string>
    decreases |queryParams|
  {
    if queryParams == [] then Ok(query)
    else
      match ApplyParam(query, queryParams[0].0, queryParams[0].1)
      case Err(e) => Err(e)
      case Ok(next) => ApplyParams(next, queryParams[1..])
  }

  /** What the query holds for a parameter that was given. */
  function Stored(values: ParamValue): Option<QueryValue>
  {
    match ValidValue(values)
    case Ok(v) => if NonEmpty(v) then Some(v) else None
    case Err(_) => None
  }

  /**
   * Applying the parameters fails exactly when one of them is null or undefined; otherwise
   * every given parameter holds its non-empty value or is absent, and every other key
   * keeps what the query had.
   */
  lemma {:induction false} ApplyParamsSpec(query: Record<QueryValue>, queryParams: Record<ParamValue>, k: string)
    requires UniqueKeys(queryParams)
    ensures ApplyParams(query, queryParams).Err? <==> exists i :: 0 <= i < |queryParams| && queryParams[i].1.Nullish?
    ensures ApplyParams(query, queryParams).Ok? ==>
      Get(ApplyParams(query, queryParams).value, k)
      == if HasKey(queryParams, k) then Stored(Get(queryParams, k).value) else Get(query, k)
    decreases |queryParams|
  {
    if queryParams != [] {
      var (name, values) := queryParams[0];
      var rest := queryParams[1..];
      assert UniqueKeys(rest);
      if !values.Nullish? {
        var next := ApplyParam(query, name, values).value;
        ApplyParamsSpec(next, rest, k);
        GetPut(query, name, ValidValue(values).value, k);
        GetDelete(query, name, k);
        assert HasKey(queryParams, k) <==> k == name || HasKey(rest, k);
        if k == name {
          assert !HasKey(rest, k);
        } else if HasKey(rest, k) {
          assert Get(queryParams, k) == Get(rest, k);
        }
        assert (exists i :: 0 <= i < |queryParams| && queryParams[i].1.Nullish?)
               <==> (exists i :: 0 <= i < |rest| && rest[i].1.Nullish?) by {
          forall i | 0 <= i < |rest| ensures rest[i] == queryParams[i + 1] {
          }
        }
      }
    }
  }

  /**
   * The loop over `Object.keys(queryParams)`: writes or deletes each parameter in turn,
   * starting from `query`.
   */
  method ApplyQueryParams(query: Record<QueryValue>, queryParams: Record<ParamValue>)
    returns (r: Result<Record<QueryValue>, string>)
    ensures r == ApplyParams(query, queryParams)
  {
    var currentQuery := query;
    var i := 0;
    while i < |queryParams|
      invariant 0 <= i <= |queryParams|
      invariant ApplyParams(currentQuery, queryParams[i..]) == ApplyParams(query, queryParams)
    {
      var (paramName, values) := queryParams[i];
      assert queryParams[i..][1..] == queryParams[i + 1..];
      match ValidValue(values)
      case Err(e) =>
        return Err(e);
      case Ok(validValue) =>
        if NonEmpty(validValue) {
          currentQuery := Put(currentQuery, paramName, validValue);
        } else {
          currentQuery := Delete(currentQuery, paramName);
        }
      i := i + 1;
    }
    assert queryParams[i..] == [];
    return Ok(currentQuery);
  }

  /**
   * `setQueryString`: a query built from the given parameters alone, pushed as a new
   * history entry at the current pathname. `stringify` is the query-string encoder.
   */
  method SetQueryString(queryParams: Record<ParamValue>, pathname: string, stringify: Record<QueryValue> -> string)
    returns (r: Result<Navigation, string>)
    ensures var q := ApplyParams([], queryParams);
      r == if q.Err? then Err(q.error) else Ok(Push(pathname + "?" + stringify(q.value), None))
  {
    var currentQuery := ApplyQueryParams([], queryParams);
    match currentQuery
    case Err(e) =>
      return Err(e);
    case Ok(q) =>
      return Ok(Push(pathname + "?" + stringify(q), None));
  }

  /**
   * From the empty query, the pushed query holds exactly the given parameters whose value
   * is non-empty, each with that value.
   */
  lemma SetQueryStringFromEmpty(queryParams: Record<ParamValue>, k: string, items: seq<string>, text: string)
    requires UniqueKeys(queryParams)
    requires forall i :: 0 <= i < |queryParams| ==> !queryParams[i].1.Nullish?
    ensures ApplyParams([], queryParams).Ok?
    ensures Get(ApplyParams([], queryParams).value, k).Some? <==>
      HasKey(queryParams, k) && Stored(Get(queryParams, k).value).Some?
    ensures Get(queryParams, k) == Some(Array(items)) && items != [] ==>
      Get(ApplyParams([], queryParams).value, k) == Some(Values(items))
    ensures Get(queryParams, k) == Some(Scalar(text)) && text != [] ==>
      Get(ApplyParams([], queryParams).value, k) == Some(Text(text))
  {
    ApplyParamsSpec([], queryParams, k);
  }
}

// Writing search parameters into the current query string (state/ducks/router/operations.ts).
module StateRouterOperations {
  import opened Results
  import opened Records
  import opened RouterOperations

  /**
   * `setQueryString`: the given parameters merged into the current query, which is
   * `parse(location.search)`; the current history entry is overwritten. `parse` and
   * `stringify` are the query-string library.
   */
  method SetQueryString(queryParams: Record<ParamValue>, pathname: string, search: string,
                        parse: string -> Record<QueryValue>, stringify: Record<QueryValue> -> string)
    returns (r: Result<Navigation, string>)
    ensures var q := ApplyParams(parse(search), queryParams);
      r == if q.Err? then Err(q.error) else Ok(Replace(pathname + "?" + stringify(q.value), None))
  {
    var currentQuery := ApplyQueryParams(parse(search), queryParams);
    match currentQuery
    case Err(e) =>
      return Err(e);
    case Ok(q) =>
      return Ok(Replace(pathname + "?" + stringify(q), None));
  }

  /**
   * Merging into the current query: a given parameter with a non-empty value overwrites
   * its entry, one with an empty value is deleted, and every parameter not given keeps
   * its current entry.
   */
  lemma MergeQuerySpec(current: Record<QueryValue>, queryParams: Record<ParamValue>, k: string, items: seq<string>, text: string)
    requires UniqueKeys(queryParams)
    requires forall i :: 0 <= i < |queryParams| ==> !queryParams[i].1.Nullish?
    ensures ApplyParams(current, queryParams).Ok?
    ensures var merged := ApplyParams(current, queryParams).value;
      && (!HasKey(queryParams, k) ==> Get(merged, k) == Get(current, k))
      && (Get(queryParams, k) == Some(Array(items)) ==>
            Get(merged, k) == if items != [] then Some(Values(items)) else None)
      && (Get(queryParams, k) == Some(Scalar(text)) ==>
            Get(merged, k) == if text != [] then Some(Text(text)) else None)
  {
    ApplyParamsSpec(current, queryParams, k);
  }
}
