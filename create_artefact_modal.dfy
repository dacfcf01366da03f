// The dialog that creates a project or a task
// (views/shared/modals/CreateArtefactModal/CreateArtefactModal.tsx): the list of item types with
// the project entry shown for matching searches, each entry's icon names, the selection with
// its double-click rule, and what "Add" does.
module CreateArtefactModal {
  import opened Results
  import opened Records
  import opened JsStrings
  import opened JsArrays
  import ItemDepiction

  const Project := "project"
  const DoubleClickLimitMs := 500
  const TypeError := "TypeError"

  /** An entry of the item type list. */
  datatype ArtefactItem = ArtefactItem(key: string, title: string, description: string,
                                       taskType: Option<string>, categories: seq<string>)

  /** The plugin details cached per item type; only the task type is read here. */
  datatype DetailedArtefactItem = DetailedArtefactItem(taskType: string)

  const ProjectItem := ArtefactItem(Project, "Project",
    "Projects let you group related items. All items that depend on each other need to be in the same project.",
    None, [])

  /** The words of the search: trimmed, lower-cased and split at whitespace runs. */
  function SearchWords(searchValue: string): seq<string>
  {
    SplitWhitespace(ToLower(Trim(searchValue)))
  }

  /** `showProjectItem`: every search word occurs in "project". */
  predicate ShowProjectItem(searchValue: string)
  {
    forall w :: w in SearchWords(searchValue) ==> Includes(Project, w)
  }

  lemma TrimNoWhitespace(s: string)
    requires NoWhitespace(s)
    ensures Trim(s) == s
  {
    if s != [] {
      assert NonWhitespaceFrom(s, 0) == 0;
      assert TrailingWhitespaceStart(s, |s|) == |s|;
      assert s[0..|s|] == s;
    }
  }

  /** A blank search shows the project entry: it splits into the single empty word. */
  lemma BlankSearchShowsProject(searchValue: string)
    requires Trim(searchValue) == ""
    ensures ShowProjectItem(searchValue)
  {
    assert ToLower("") == "";
    assert SplitWhitespace("") == [""];
    assert OccursAt(Project, "", 0);
  }

  /** A single lower-case word shows the project entry exactly when it occurs in "project". */
  lemma OneWordSearch(word: string)
    requires NoWhitespace(word) && ToLower(word) == word
    ensures ShowProjectItem(word) <==> Includes(Project, word)
  {
    TrimNoWhitespace(word);
    assert NoWhitespace(ToLower(Trim(word)));
    SplitNoWhitespace(word);
  }

  /** The list shown: the project entry first when the search matches it, then the item types as loaded. */
  function ListWithProject(searchValue: string, artefactsList: seq<ArtefactItem>): (r: seq<ArtefactItem>)
    ensures ShowProjectItem(searchValue) ==> r == [ProjectItem] + artefactsList
    ensures !ShowProjectItem(searchValue) ==> r == artefactsList
  {
    if ShowProjectItem(searchValue) then [ProjectItem] + artefactsList else artefactsList
  }

  /** The names before mapping: "taskType-key" (or the key), the task type, then the categories. */
  function DepictionStack(artefact: ArtefactItem): seq<string>
  {
    [(if ItemDepiction.Truthy(artefact.taskType) then artefact.taskType.value + "-" else "") + artefact.key]
    + (if ItemDepiction.Truthy(artefact.taskType) then [artefact.taskType.value] else [])
    + artefact.categories
  }

  function IconNamesOf(names: seq<string>): (r: seq<string>)
    ensures |r| == |names|
    ensures forall i :: 0 <= i < |names| ==> r[i] == ItemDepiction.IconName(names[i])
  {
    seq(|names|, i requires 0 <= i < |names| => ItemDepiction.IconName(names[i]))
  }

  /** `renderDepiction`: the names mapped to lower-case icon names, first occurrences kept. */
  function Depiction(artefact: ArtefactItem): seq<string>
  {
    Dedup(IconNamesOf(DepictionStack(artefact)))
  }

  /** De-duplicating a longer list keeps the de-duplication of its front as its own front. */
  lemma {:induction false} DedupPrefix(a: seq<string>, b: seq<string>)
    ensures |Dedup(a)| <= |Dedup(a + b)|
    ensures Dedup(a + b)[..|Dedup(a)|] == Dedup(a)
    decreases |b|
  {
    if b == [] {
      assert a + b == a;
    } else {
      var front := b[..|b| - 1];
      var x := b[|b| - 1];
      DedupPrefix(a, front);
      assert a + b == (a + front) + [x];
      DedupSnoc(a + front, x);
    }
  }

  /**
   * The depiction names the item's own icon first and, for a task, its type second; then
   * whichever of the categories' icons are new, each icon once. Without categories it is the
   * icon stack of the item depiction for the same type and plugin.
   */
  lemma DepictionSpec(artefact: ArtefactItem)
    ensures var r := Depiction(artefact);
            && |r| >= (if ItemDepiction.Truthy(artefact.taskType) then 2 else 1)
            && r[..(if ItemDepiction.Truthy(artefact.taskType) then 2 else 1)]
               == ItemDepiction.IconNames(artefact.taskType, Some(artefact.key))
            && Distinct(r)
            && (forall c :: c in artefact.categories ==> ItemDepiction.IconName(c) in r)
            && (forall x :: x in r ==> exists n :: n in DepictionStack(artefact) && x == ItemDepiction.IconName(n))
    ensures artefact.categories == [] ==>
      Depiction(artefact) == ItemDepiction.IconNames(artefact.taskType, Some(artefact.key))
  {
    var own := ItemDepiction.NameStack(artefact.taskType, Some(artefact.key));
    var stack := DepictionStack(artefact);
    assert stack == own + artefact.categories;
    assert IconNamesOf(stack) == IconNamesOf(own) + IconNamesOf(artefact.categories);
    ItemDepiction.IconNamesSpec(artefact.taskType, Some(artefact.key));
    assert ItemDepiction.IconNames(artefact.taskType, Some(artefact.key)) == Dedup(IconNamesOf(own));
    DedupPrefix(IconNamesOf(own), IconNamesOf(artefact.categories));
    DedupSpec(IconNamesOf(stack));
    var r := Depiction(artefact);
    forall c | c in artefact.categories
      ensures ItemDepiction.IconName(c) in r
    {
      var i :| 0 <= i < |artefact.categories| && artefact.categories[i] == c;
      assert IconNamesOf(stack)[|own| + i] == ItemDepiction.IconName(c);
    }
    forall x | x in r
      ensures exists n :: n in stack && x == ItemDepiction.IconName(n)
    {
      var i :| 0 <= i < |IconNamesOf(stack)| && IconNamesOf(stack)[i] == x;
      assert stack[i] in stack;
    }
    if artefact.categories == [] {
      assert stack == own;
    }
  }

  /** `taskType`: "Project" for the project entry, else the cached details' task type (missing details throw). */
  function TaskType(artefactId: string, cachedArtefactProperties: Record<DetailedArtefactItem>): (r: Result<string, string>)
    ensures artefactId == Project ==> r == Ok("Project")
    ensures artefactId != Project ==>
      (r.Ok? <==> HasKey(cachedArtefactProperties, artefactId))
      && (r.Ok? ==> r.value == Get(cachedArtefactProperties, artefactId).value.taskType)
  {
    if artefactId == Project then Ok("Project")
    else match Get(cachedArtefactProperties, artefactId)
      case None => Err(TypeError)
      case Some(details) => Ok(details.taskType)
  }

  /** What "Add" dispatches: the project is selected for its form, any other type's properties are fetched. */
  datatype AddAction = SelectArtefact(item: Option<ArtefactItem>) | GetArtefactProperties(item: Option<ArtefactItem>)

  /** `handleAdd`, given the selection (None is the emptied selection `{}`). */
  function AddActionFor(selected: Option<ArtefactItem>): (r: AddAction)
    ensures r.item == selected
    ensures r.SelectArtefact? <==> selected.Some? && selected.value.key == Project
  {
    if selected.Some? && selected.value.key == Project then SelectArtefact(selected) else GetArtefactProperties(selected)
  }

  /**
   * The argument of a `useState` setter: a plain value, or an updater function that React
   * calls with the previous state and whose result it stores.
   */
  datatype StateAction = Value(v: int) | Updater(f: int -> int)

  /** The state a setter leaves behind for the previous state `prev`. */
  function SetState(prev: int, action: StateAction): int
  {
    match action
    case Value(v) => v
    case Updater(f) => f(prev)
  }

  /**
   * `Date.now` itself, passed to a setter at time `now`: a function, so React calls it as an
   * updater, and it ignores the previous state it is given.
   */
  function DateNow(now: int): StateAction
  {
    Updater(_ => now)
  }

  /** Handing the setter `Date.now` records the time of the click, whatever was recorded before. */
  lemma DateNowRecordsTime(prev: int, now: int)
    ensures SetState(prev, DateNow(now)) == now
    ensures SetState(prev, DateNow(now)) == SetState(prev, Value(now))
  {
  }

  /** The test for a double click: a second click on the selected entry within the limit of a recorded click. */
  predicate IsDoubleClick(selectedKey: Option<string>, artefactKey: string, last: int, now: int)
  {
    selectedKey == Some(artefactKey) && last != 0 && now - last < DoubleClickLimitMs
  }

  /**
   * With a click recorded, a click on the selected entry 499 ms later is a double click and
   * one 500 ms later is not; a click on another entry never is.
   */
  lemma DoubleClickFires(key: string, other: string, earlier: int)
    requires earlier != 0 && other != key
    ensures IsDoubleClick(Some(key), key, earlier, earlier + 499)
    ensures !IsDoubleClick(Some(key), key, earlier, earlier + DoubleClickLimitMs)
    ensures !IsDoubleClick(Some(key), other, earlier, earlier + 1)
    ensures !IsDoubleClick(Some(key), key, 0, earlier)
  {
  }

  /** The dialog's selection state. */
  class ArtefactSelection {
    var selected: Option<ArtefactItem>
    var lastSelectedClick: int
    var searchValue: string

    /** Starts with the store's selected type and no click. */
    constructor (selectedArtefact: Option<ArtefactItem>)
      ensures selected == selectedArtefact && lastSelectedClick == 0 && searchValue == ""
    {
      selected := selectedArtefact;
      lastSelectedClick := 0;
      searchValue := "";
    }

    function SelectedKey(): Option<string>
      reads this
    {
      if selected.Some? then Some(selected.value.key) else None
    }

    /** "Add" is disabled while the selection is the empty object. */
    predicate AddDisabled()
      reads this
    {
      selected.None?
    }

    /** Once item types are loaded, the first one is selected. */
    method DefaultArtefactSelected(artefactsList: seq<ArtefactItem>)
      modifies this
      ensures |artefactsList| > 0 ==> selected == Some(artefactsList[0])
      ensures |artefactsList| == 0 ==> selected == old(selected)
      ensures lastSelectedClick == old(lastSelectedClick) && searchValue == old(searchValue)
    {
      if |artefactsList| > 0 {
        selected := Some(artefactsList[0]);
      }
    }

    /**
     * `handleArtefactSelect` at time `now` (milliseconds, non-zero): a second click on the
     * selected entry within the limit adds it; any other click selects the entry. The setter
     * is handed `Date.now`, which React calls as an updater, so the click time is recorded.
     */
    method HandleArtefactSelect(artefact: ArtefactItem, now: int) returns (added: Option<AddAction>)
      requires now != 0
      modifies this
      ensures IsDoubleClick(old(SelectedKey()), artefact.key, old(lastSelectedClick), now) ==>
        added == Some(AddActionFor(old(selected))) && selected == old(selected)
      ensures !IsDoubleClick(old(SelectedKey()), artefact.key, old(lastSelectedClick), now) ==>
        added.None? && selected == Some(artefact)
      ensures lastSelectedClick == now && searchValue == old(searchValue)
      ensures !AddDisabled() || added.Some?
    {
      if IsDoubleClick(SelectedKey(), artefact.key, lastSelectedClick, now) {
        added := Some(AddActionFor(selected));
      } else {
        selected := Some(artefact);
        added := None;
      }
      lastSelectedClick := SetState(lastSelectedClick, DateNow(now));
    }

    /** `handleSearch`: the query is kept (the list is then reloaded for it). */
    method HandleSearch(textQuery: string)
      modifies this
      ensures searchValue == textQuery && selected == old(selected) && lastSelectedClick == old(lastSelectedClick)
    {
      searchValue := textQuery;
    }

    /** `resetModal`: the selection becomes the empty object, so "Add" is disabled. */
    method ResetModal()
      modifies this
      ensures selected.None? && AddDisabled()
      ensures lastSelectedClick == old(lastSelectedClick) && searchValue == old(searchValue)
    {
      selected := None;
    }
  }

  /** Two clicks on one entry within the limit: the first selects it, the second adds it. */
  method DoubleClickAdds(artefact: ArtefactItem, first: int, second: int) returns (added: Option<AddAction>)
    requires first != 0 && second != 0 && second - first < DoubleClickLimitMs
    ensures added == Some(AddActionFor(Some(artefact)))
  {
    var dialog := new ArtefactSelection(None);
    var none := dialog.HandleArtefactSelect(artefact, first);
    added := dialog.HandleArtefactSelect(artefact, second);
  }
}
