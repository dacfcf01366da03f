// The workspace's common store (store/ducks/common/commonSlice.ts): the current project
// and task, the session, and the state of the "create item" dialog with its catalogue of
// item types counted by category.
module CommonSlice {
  import opened Results
  import opened Records
  import opened Sorting

  /** One item type of the catalogue; `categories` may be missing. */
  datatype ArtefactItem = ArtefactItem(key: string, title: string, itemType: string, categories: Option<seq<string>>)

  /** The detailed description of a plugin, cached by plugin id. */
  datatype DetailedArtefactItem = DetailedArtefactItem(pluginId: string, title: string, description: string)

  /** What the dialog has selected: nothing (`undefined`), the empty object `{}`, or an item type. */
  datatype Selection = Undefined | EmptyObject | Artefact(item: ArtefactItem)

  /** The task the dialog edits instead of creating one. */
  datatype ProjectTaskUpdate = ProjectTaskUpdate(projectId: string, taskId: string, taskPluginId: string)

  /** An error object; `{}` means no error. */
  datatype ErrorValue = NoError | ErrorResponse(status: int, title: string, detail: string)

  datatype DataTypeOption = DataTypeOption(id: string, optionLabel: string)

  datatype AvailableDataType = AvailableDataType(typeLabel: string, field: string, options: seq<DataTypeOption>)

  datatype ExportType = ExportType(id: string, exportLabel: string, fileExtension: string)

  datatype InitFrontend = InitFrontend(emptyWorkspace: bool, dmBaseUrl: Option<string>)

  datatype CategoryCount = CategoryCount(category: string, count: nat)

  /** The dialog's part of the store. */
  datatype ArtefactModal = ArtefactModal(
    isOpen: bool,
    error: ErrorValue,
    artefactsList: seq<ArtefactItem>,
    selectedArtefact: Selection,
    cachedArtefactProperties: Record<DetailedArtefactItem>,
    selectedDType: string,
    loading: bool,
    categories: seq<CategoryCount>,
    updateExistingTask: Option<ProjectTaskUpdate>)

  /** All fields of the store at one moment. */
  datatype CommonSnapshot = CommonSnapshot(
    locale: string,
    currentProjectId: Option<string>,
    currentTaskId: Option<string>,
    authenticated: bool,
    searchQuery: string,
    error: ErrorValue,
    availableDataTypes: Record<AvailableDataType>,
    initialSettings: InitFrontend,
    exportTypes: seq<ExportType>,
    artefactModal: ArtefactModal)

  // ---------------------------------------------------------------------------------
  // Category counts of setArtefactsList
  // ---------------------------------------------------------------------------------

  /** `itemDescription.categories ?? []`. */
  function CategoriesOf(item: ArtefactItem): seq<string>
  {
    item.categories.GetOr([])
  }

  /** `categories[c] ? categories[c] : 0`: the count so far, 0 for a category not yet seen. */
  function CountOf(counts: Record<nat>, category: string): nat
  {
    match Get(counts, category)
    case Some(n) => n
    case None => 0
  }

  /** One occurrence counted: `categories[c] = (categories[c] ? categories[c] : 0) + 1`. */
  function Tally(counts: Record<nat>, category: string): Record<nat>
  {
    Put<nat>(counts, category, CountOf(counts, category) + 1)
  }

  function TallyAll(counts: Record<nat>, categories: seq<string>): Record<nat>
    decreases |categories|
  {
    if categories == [] then counts else TallyAll(Tally(counts, categories[0]), categories[1..])
  }

  function TallyItems(counts: Record<nat>, items: seq<ArtefactItem>): Record<nat>
    decreases |items|
  {
    if items == [] then counts else TallyItems(TallyAll(counts, CategoriesOf(items[0])), items[1..])
  }

  /** The counts: "All" seeded with the number of items, then every category of every item. */
  function CategoryCounts(items: seq<ArtefactItem>): Record<nat>
  {
    TallyItems([("All", |items|)], items)
  }

  /** How often `c` occurs in a list of categories. */
  function CountIn(categories: seq<string>, c: string): nat
  {
    if categories == [] then 0 else (if categories[0] == c then 1 else 0) + CountIn(categories[1..], c)
  }

  /** How often `c` occurs across the categories of all items. */
  function Occurrences(items: seq<ArtefactItem>, c: string): nat
  {
    if items == [] then 0 else CountIn(CategoriesOf(items[0]), c) + Occurrences(items[1..], c)
  }

  lemma {:induction false} TallyAllGet(counts: Record<nat>, categories: seq<string>, c: string)
    ensures CountIn(categories, c) == 0 ==> Get(TallyAll(counts, categories), c) == Get(counts, c)
    ensures CountIn(categories, c) > 0 ==>
      Get(TallyAll(counts, categories), c).Some? && CountOf(TallyAll(counts, categories), c) == CountOf(counts, c) + CountIn(categories, c)
    decreases |categories|
  {
    if categories != [] {
      var next := Tally(counts, categories[0]);
      TallyAllGet(next, categories[1..], c);
      GetPut<nat>(counts, categories[0], CountOf(counts, categories[0]) + 1, c);
    }
  }

  lemma {:induction false} TallyItemsGet(counts: Record<nat>, items: seq<ArtefactItem>, c: string)
    ensures Occurrences(items, c) == 0 ==> Get(TallyItems(counts, items), c) == Get(counts, c)
    ensures Occurrences(items, c) > 0 ==>
      Get(TallyItems(counts, items), c).Some? && CountOf(TallyItems(counts, items), c) == CountOf(counts, c) + Occurrences(items, c)
    decreases |items|
  {
    if items != [] {
      var next := TallyAll(counts, CategoriesOf(items[0]));
      TallyItemsGet(next, items[1..], c);
      TallyAllGet(counts, CategoriesOf(items[0]), c);
    }
  }

  lemma {:induction false} TallyAllUnique(counts: Record<nat>, categories: seq<string>)
    requires UniqueKeys(counts)
    ensures UniqueKeys(TallyAll(counts, categories))
    decreases |categories|
  {
    if categories != [] {
      PutUnique<nat>(counts, categories[0], CountOf(counts, categories[0]) + 1);
      TallyAllUnique(Tally(counts, categories[0]), categories[1..]);
    }
  }

  lemma {:induction false} TallyItemsUnique(counts: Record<nat>, items: seq<ArtefactItem>)
    requires UniqueKeys(counts)
    ensures UniqueKeys(TallyItems(counts, items))
    decreases |items|
  {
    if items != [] {
      TallyAllUnique(counts, CategoriesOf(items[0]));
      TallyItemsUnique(TallyAll(counts, CategoriesOf(items[0])), items[1..]);
    }
  }

  /**
   * The counts record: "All" holds the number of items plus any category literally
   * named "All"; every other category holds its number of occurrences and appears only
   * if it occurs; no category is listed twice.
   */
  lemma CategoryCountsSpec(items: seq<ArtefactItem>, c: string)
    ensures c == "All" ==>
      Get(CategoryCounts(items), c).Some? && CountOf(CategoryCounts(items), c) == |items| + Occurrences(items, "All")
    ensures c != "All" && Occurrences(items, c) > 0 ==>
      Get(CategoryCounts(items), c).Some? && CountOf(CategoryCounts(items), c) == Occurrences(items, c)
    ensures c != "All" && Occurrences(items, c) == 0 ==> Get(CategoryCounts(items), c).None?
    ensures UniqueKeys(CategoryCounts(items))
  {
    TallyItemsGet([("All", |items|)], items, c);
    TallyItemsUnique([("All", |items|)], items);
  }

  /**
   * The nested `forEach` loops that fill the counts record: "All" first, then one
   * increment per category of every item.
   */
  method CountCategories(items: seq<ArtefactItem>) returns (categories: Record<nat>)
    ensures categories == CategoryCounts(items)
  {
    categories := [("All", |items|)];
    var i := 0;
    while i < |items|
      invariant 0 <= i <= |items|
      invariant TallyItems(categories, items[i..]) == CategoryCounts(items)
    {
      assert items[i..][1..] == items[i + 1..];
      var itemCategories := CategoriesOf(items[i]);
      var j := 0;
      ghost var before := categories;
      while j < |itemCategories|
        invariant 0 <= j <= |itemCategories|
        invariant TallyAll(categories, itemCategories[j..]) == TallyAll(before, itemCategories)
      {
        assert itemCategories[j..][1..] == itemCategories[j + 1..];
        var category := itemCategories[j];
        categories := Put<nat>(categories, category, CountOf(categories, category) + 1);
        j := j + 1;
      }
      assert itemCategories[j..] == [];
      i := i + 1;
    }
    assert items[i..] == [];
  }

  /** `Object.entries(categories).map(...)`: one label-count pair per entry. */
  function CountEntries(counts: Record<nat>): (r: seq<CategoryCount>)
    ensures |r| == |counts|
    ensures forall i :: 0 <= i < |counts| ==> r[i] == CategoryCount(counts[i].0, counts[i].1)
  {
    seq(|counts|, i requires 0 <= i < |counts| => CategoryCount(counts[i].0, counts[i].1))
  }

  function LabelOf(entry: CategoryCount): string
  {
    entry.category
  }

  /** The category list the dialog shows: the counts sorted by label. */
  function SortedCategories(items: seq<ArtefactItem>): seq<CategoryCount>
  {
    SortBy(CountEntries(CategoryCounts(items)), LabelOf)
  }

  /** Distinct labels survive any permutation. */
  lemma {:induction false} DistinctLabelsPermutation(s: seq<CategoryCount>, r: seq<CategoryCount>)
    requires multiset(r) == multiset(s)
    requires forall i, j :: 0 <= i < j < |s| ==> s[i].category != s[j].category
    ensures forall i, j :: 0 <= i < j < |r| ==> r[i].category != r[j].category
  {
    forall i, j | 0 <= i < j < |r| ensures r[i].category != r[j].category {
      if r[i].category == r[j].category {
        assert r[i] in multiset(s) && r[j] in multiset(s);
        var a :| 0 <= a < |s| && s[a] == r[i];
        var b :| 0 <= b < |s| && s[b] == r[j];
        assert a == b;
        assert r[i] == r[j];
        assert r == r[..i] + [r[i]] + r[i + 1..j] + [r[j]] + r[j + 1..];
        assert multiset(r)[r[i]] >= 2;
        SingleOccurrence(s, a);
        assert false;
      }
    }
  }

  /** An entry with a label no other entry has occurs once. */
  lemma {:induction false} SingleOccurrence(s: seq<CategoryCount>, a: nat)
    requires a < |s|
    requires forall i, j :: 0 <= i < j < |s| ==> s[i].category != s[j].category
    ensures multiset(s)[s[a]] == 1
  {
    var x := s[a];
    assert s == s[..a] + [x] + s[a + 1..];
    assert x !in s[..a] by {
      forall k | 0 <= k < a ensures s[..a][k] != x { assert s[k].category != s[a].category; }
    }
    assert x !in s[a + 1..] by {
      forall k | a + 1 <= k < |s| ensures s[k] != x { assert s[k].category != s[a].category; }
    }
    assert multiset(s) == multiset(s[..a]) + multiset{x} + multiset(s[a + 1..]);
  }

  /**
   * The category list: sorted ascending by label, no label twice, and an entry for a
   * category exactly when the counts record holds it, with that count.
   */
  lemma SortedCategoriesSpec(items: seq<ArtefactItem>, c: string, n: nat)
    ensures SortedBy(SortedCategories(items), LabelOf)
    ensures var r := SortedCategories(items);
      forall i, j :: 0 <= i < j < |r| ==> r[i].category != r[j].category
    ensures CategoryCount(c, n) in SortedCategories(items) <==> Get(CategoryCounts(items), c) == Some(n)
  {
    var counts := CategoryCounts(items);
    var entries := CountEntries(counts);
    CategoryCountsSpec(items, c);
    SortBySorted(entries, LabelOf);
    DistinctLabelsPermutation(entries, SortedCategories(items));
    assert CategoryCount(c, n) in SortedCategories(items) <==> CategoryCount(c, n) in entries by {
      assert CategoryCount(c, n) in multiset(SortedCategories(items)) <==> CategoryCount(c, n) in multiset(entries);
    }
    GetEntry(counts, c, n);
  }

  /** In a record with distinct keys, `Get` finds exactly the stored pair. */
  lemma {:induction false} GetEntry(counts: Record<nat>, c: string, n: nat)
    requires UniqueKeys(counts)
    ensures CategoryCount(c, n) in CountEntries(counts) <==> Get(counts, c) == Some(n)
  {
    if counts != [] {
      var rest := counts[1..];
      assert UniqueKeys(rest);
      GetEntry(rest, c, n);
      var entries := CountEntries(counts);
      assert entries == [CategoryCount(counts[0].0, counts[0].1)] + CountEntries(rest);
      if counts[0].0 == c {
        assert !HasKey(rest, c) by {
          forall k | 0 <= k < |rest| ensures rest[k].0 != c { assert counts[k + 1].0 != counts[0].0; }
        }
      }
    }
  }

  // ---------------------------------------------------------------------------------
  // The store and its reducers
  // ---------------------------------------------------------------------------------

  /** The result of matching the current pathname against one route. */
  datatype RouteParams = RouteParams(projectId: Option<string>, taskId: Option<string>)

  /** `x || null` for a route parameter: an empty or missing value is no value. */
  function NonEmptyOr(value: Option<string>): Option<string>
  {
    if value.Some? && value.value != [] then value else None
  }

  class CommonState {
    var locale: string
    var currentProjectId: Option<string>
    var currentTaskId: Option<string>
    var authenticated: bool
    var searchQuery: string
    var error: ErrorValue
    var availableDataTypes: Record<AvailableDataType>
    var initialSettings: InitFrontend
    var exportTypes: seq<ExportType>
    var artefactModal: ArtefactModal

    function Snapshot(): CommonSnapshot
      reads this
    {
      CommonSnapshot(locale, currentProjectId, currentTaskId, authenticated, searchQuery, error,
                     availableDataTypes, initialSettings, exportTypes, artefactModal)
    }

    /** `initialCommonState`: `locale` is the browser's language, read by the caller. */
    constructor (browserLocale: string)
      ensures Snapshot() == CommonSnapshot(browserLocale, None, None, true, "", NoError, [],
        InitFrontend(false, None), [],
        ArtefactModal(false, NoError, [], EmptyObject, [], "all", false, [], None))
    {
      locale := browserLocale;
      currentProjectId := None;
      currentTaskId := None;
      authenticated := true;
      searchQuery := "";
      error := NoError;
      availableDataTypes := [];
      initialSettings := InitFrontend(false, None);
      exportTypes := [];
      artefactModal := ArtefactModal(false, NoError, [], EmptyObject, [], "all", false, [], None);
    }

    method SetInitialSettings(payload: InitFrontend)
      modifies this
      ensures Snapshot() == old(Snapshot()).(initialSettings := payload)
    {
      initialSettings := payload;
    }

    method FetchAvailableDTypes()
      modifies this
      ensures Snapshot() == old(Snapshot()).(availableDataTypes := [])
    {
      availableDataTypes := [];
    }

    method SetExportTypes(payload: seq<ExportType>)
      modifies this
      ensures Snapshot() == old(Snapshot()).(exportTypes := payload)
    {
      exportTypes := payload;
    }

    /** Writes the one field's data type; every other field keeps its own. */
    method UpdateAvailableDTypes(fieldName: string, modifier: AvailableDataType)
      modifies this
      ensures Snapshot() == old(Snapshot()).(availableDataTypes := Put(old(availableDataTypes), fieldName, modifier))
      ensures Get(availableDataTypes, fieldName) == Some(modifier)
      ensures forall k :: k != fieldName ==> Get(availableDataTypes, k) == Get(old(availableDataTypes), k)
    {
      availableDataTypes := Put(availableDataTypes, fieldName, modifier);
      forall k ensures Get(availableDataTypes, k) == if k == fieldName then Some(modifier) else Get(old(availableDataTypes), k) {
        GetPut(old(availableDataTypes), fieldName, modifier, k);
      }
    }

    method SetProjectId(payload: string)
      modifies this
      ensures Snapshot() == old(Snapshot()).(currentProjectId := Some(payload))
    {
      currentProjectId := Some(payload);
    }

    method SetTaskId(payload: string)
      modifies this
      ensures Snapshot() == old(Snapshot()).(currentTaskId := Some(payload))
    {
      currentTaskId := Some(payload);
    }

    method SetError(payload: ErrorValue)
      modifies this
      ensures Snapshot() == old(Snapshot()).(error := payload)
    {
      error := payload;
    }

    method ChangeLanguage(payload: string)
      modifies this
      ensures Snapshot() == old(Snapshot()).(locale := payload)
    {
      locale := payload;
    }

    method LoginSuccess()
      modifies this
      ensures Snapshot() == old(Snapshot()).(authenticated := true)
    {
      authenticated := true;
    }

    method LogoutUser()
      modifies this
      ensures Snapshot() == old(Snapshot()).(authenticated := false)
    {
      authenticated := false;
    }

    /** Closes the dialog and forgets both the selection and the task being edited. */
    method CloseArtefactModal()
      modifies this
      ensures Snapshot() == old(Snapshot()).(artefactModal :=
        old(artefactModal).(isOpen := false, selectedArtefact := Undefined, updateExistingTask := None))
    {
      artefactModal := artefactModal.(isOpen := false, selectedArtefact := Undefined, updateExistingTask := None);
    }

    /** Opens the dialog on the given item type, or on `{}`, and leaves edit mode. */
    method SelectArtefact(payload: Option<ArtefactItem>)
      modifies this
      ensures Snapshot() == old(Snapshot()).(artefactModal :=
        old(artefactModal).(isOpen := true,
                            selectedArtefact := if payload.Some? then Artefact(payload.value) else EmptyObject,
                            updateExistingTask := None))
    {
      var selected := if payload.Some? then Artefact(payload.value) else EmptyObject;
      artefactModal := artefactModal.(isOpen := true, selectedArtefact := selected, updateExistingTask := None);
    }

    method FetchArtefactsList()
      modifies this
      ensures Snapshot() == old(Snapshot()).(artefactModal := old(artefactModal).(artefactsList := [], error := NoError))
    {
      artefactModal := artefactModal.(artefactsList := [], error := NoError);
    }

    /** Stores the catalogue as given, with its categories counted and sorted by label. */
    method SetArtefactsList(payload: seq<ArtefactItem>)
      modifies this
      ensures Snapshot() == old(Snapshot()).(artefactModal :=
        old(artefactModal).(artefactsList := payload, categories := SortedCategories(payload)))
    {
      var categories := CountCategories(payload);
      var sortedCategoryCounts := SortBy(CountEntries(categories), LabelOf);
      artefactModal := artefactModal.(artefactsList := payload, categories := sortedCategoryCounts);
    }

    /** Filters the dialog by a data type, "all" when none is given, and opens it. */
    method SetSelectedArtefactDType(payload: Option<string>)
      modifies this
      ensures Snapshot() == old(Snapshot()).(artefactModal :=
        old(artefactModal).(selectedDType := if payload.Some? && payload.value != [] then payload.value else "all",
                            isOpen := true))
    {
      var dType := if payload.Some? && payload.value != [] then payload.value else "all";
      artefactModal := artefactModal.(selectedDType := dType, isOpen := true);
    }

    /** Caches a plugin's description under its plugin id; other plugins keep theirs. */
    method SetCachedArtefactProperty(payload: DetailedArtefactItem)
      modifies this
      ensures Snapshot() == old(Snapshot()).(artefactModal := old(artefactModal).(
        cachedArtefactProperties := Put(old(artefactModal.cachedArtefactProperties), payload.pluginId, payload)))
      ensures Get(artefactModal.cachedArtefactProperties, payload.pluginId) == Some(payload)
      ensures forall k :: k != payload.pluginId ==>
        Get(artefactModal.cachedArtefactProperties, k) == Get(old(artefactModal.cachedArtefactProperties), k)
    {
      var key := payload.pluginId;
      artefactModal := artefactModal.(cachedArtefactProperties := Put(artefactModal.cachedArtefactProperties, key, payload));
      forall k ensures Get(artefactModal.cachedArtefactProperties, k)
                       == if k == key then Some(payload) else Get(old(artefactModal.cachedArtefactProperties), k) {
        GetPut(old(artefactModal.cachedArtefactProperties), key, payload, k);
      }
    }

    method SetArtefactLoading(payload: bool)
      modifies this
      ensures Snapshot() == old(Snapshot()).(artefactModal := old(artefactModal).(loading := payload))
    {
      artefactModal := artefactModal.(loading := payload);
    }

    /** Opens the dialog to edit an existing task. */
    method UpdateProjectTask(payload: ProjectTaskUpdate)
      modifies this
      ensures Snapshot() == old(Snapshot()).(artefactModal :=
        old(artefactModal).(updateExistingTask := Some(payload), isOpen := true))
    {
      artefactModal := artefactModal.(updateExistingTask := Some(payload), isOpen := true);
    }

    method SetModalError(payload: ErrorValue)
      modifies this
      ensures Snapshot() == old(Snapshot()).(artefactModal := old(artefactModal).(error := payload))
    {
      artefactModal := artefactModal.(error := payload);
    }

    /**
     * The router's location change: the first route whose pattern matches the pathname
     * gives the current project and task (an empty parameter counts as none); when no
     * route matches, both are cleared. `matchRoute` is the router's path matching.
     */
    method OnLocationChange(pathname: string, routes: seq<string>, matchRoute: (string, string) -> Option<RouteParams>)
      modifies this
      ensures var m := FirstMatch(pathname, routes, matchRoute);
        Snapshot() == old(Snapshot()).(
          currentProjectId := if m.Some? then NonEmptyOr(m.value.projectId) else None,
          currentTaskId := if m.Some? then NonEmptyOr(m.value.taskId) else None)
    {
      var i := 0;
      var found: Option<RouteParams> := None;
      while i < |routes|
        invariant 0 <= i <= |routes|
        invariant FirstMatch(pathname, routes, matchRoute) == FirstMatch(pathname, routes[i..], matchRoute)
      {
        assert routes[i..][1..] == routes[i + 1..];
        var m := matchRoute(pathname, routes[i]);
        if m.Some? {
          found := m;
          break;
        }
        i := i + 1;
      }
      if i == |routes| {
        assert routes[i..] == [];
      }
      if found.Some? {
        currentProjectId := NonEmptyOr(found.value.projectId);
        currentTaskId := NonEmptyOr(found.value.taskId);
      } else {
        currentTaskId := None;
        currentProjectId := None;
      }
    }
  }

  /** The parameters of the first route that matches, if any. */
  function FirstMatch(pathname: string, routes: seq<string>, matchRoute: (string, string) -> Option<RouteParams>)
    : (r: Option<RouteParams>)
    ensures r.Some? ==> exists i :: 0 <= i < |routes| && matchRoute(pathname, routes[i]) == r
    ensures r.None? <==> forall i :: 0 <= i < |routes| ==> matchRoute(pathname, routes[i]).None?
  {
    if routes == [] then None
    else if matchRoute(pathname, routes[0]).Some? then matchRoute(pathname, routes[0])
    else
      var rest := FirstMatch(pathname, routes[1..], matchRoute);
      assert forall i :: 1 <= i < |routes| ==> routes[i] == routes[1..][i - 1];
      rest
  }
}
