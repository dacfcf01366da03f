// The quick-search dialog over recently viewed items (views/shared/modals/RecentlyViewedModal.tsx):
// it loads the list (moving the page the user is already on out of first place), filters it
// by the words typed, labels and keys its entries, and navigates to the chosen item.
module RecentlyViewedModal {
  import opened Results
  import opened JsStrings
  import opened RouterOperations

  datatype ItemLink = ItemLink(linkLabel: string, path: string)

  /** A recently viewed project or task; the labels may be missing, and only tasks have a task id. */
  datatype RecentItem = RecentItem(
    projectId: string,
    projectLabel: Option<string>,
    taskId: Option<string>,
    taskLabel: Option<string>,
    itemLinks: seq<ItemLink>)

  /** An optional string that is set and not empty, i.e. truthy. */
  predicate Present(s: Option<string>)
  {
    s.Some? && s.value != ""
  }

  /** `itemLabel`: "task (project)" for a task, the project alone otherwise; a missing label falls back to the id. */
  function ItemLabel(item: RecentItem): string
  {
    var projectText := if Present(item.projectLabel) then item.projectLabel.value else item.projectId;
    var taskText := if Present(item.taskLabel) then item.taskLabel else item.taskId;
    if Present(taskText) then taskText.value + " (" + projectText + ")" else projectText
  }

  lemma ItemLabelSpec(item: RecentItem)
    ensures var projectText := if Present(item.projectLabel) then item.projectLabel.value else item.projectId;
            && (Present(item.taskLabel) ==> ItemLabel(item) == item.taskLabel.value + " (" + projectText + ")")
            && (!Present(item.taskLabel) && Present(item.taskId) ==> ItemLabel(item) == item.taskId.value + " (" + projectText + ")")
            && (!Present(item.taskLabel) && !Present(item.taskId) ==> ItemLabel(item) == projectText)
    ensures !Present(item.projectLabel) && !Present(item.taskLabel) && !Present(item.taskId) ==>
      ItemLabel(item) == item.projectId
  {
  }

  /** The item's key in the list: its task id when it has one, else its project id. */
  function ItemKey(item: RecentItem): string
  {
    if Present(item.taskId) then item.taskId.value else item.projectId
  }

  /** The item's lower-cased label contains every search word. */
  predicate MatchesAll(item: RecentItem, searchWords: seq<string>)
  {
    forall w :: w in searchWords ==> Includes(ToLower(ItemLabel(item)), w)
  }

  /**
   * `onSearch`: the loaded items whose lower-cased label contains every word, in their order;
   * the words come from `extractSearchWords`, which is passed in.
   */
  function OnSearch(recentItems: seq<RecentItem>, searchWords: seq<string>): (r: seq<RecentItem>)
    ensures |r| <= |recentItems|
  {
    if recentItems == [] then []
    else
      (if MatchesAll(recentItems[0], searchWords) then [recentItems[0]] else [])
      + OnSearch(recentItems[1..], searchWords)
  }

  /** The search keeps every occurrence of a matching item and drops every other item. */
  lemma {:induction false} OnSearchSpec(recentItems: seq<RecentItem>, searchWords: seq<string>)
    ensures forall x :: MatchesAll(x, searchWords) ==>
      multiset(OnSearch(recentItems, searchWords))[x] == multiset(recentItems)[x]
    ensures forall x :: !MatchesAll(x, searchWords) ==> x !in OnSearch(recentItems, searchWords)
    ensures searchWords == [] ==> OnSearch(recentItems, searchWords) == recentItems
    decreases |recentItems|
  {
    if recentItems != [] {
      OnSearchSpec(recentItems[1..], searchWords);
      assert recentItems == [recentItems[0]] + recentItems[1..];
      assert multiset(recentItems) == multiset([recentItems[0]]) + multiset(recentItems[1..]);
    }
  }

  /** Searching two lists one after the other gives the two results one after the other. */
  lemma {:induction false} OnSearchConcat(a: seq<RecentItem>, b: seq<RecentItem>, searchWords: seq<string>)
    ensures OnSearch(a + b, searchWords) == OnSearch(a, searchWords) + OnSearch(b, searchWords)
    decreases |a|
  {
    if a == [] {
      assert a + b == b;
    } else {
      var head := if MatchesAll(a[0], searchWords) then [a[0]] else [];
      assert (a + b)[0] == a[0];
      assert (a + b)[1..] == a[1..] + b;
      OnSearchConcat(a[1..], b, searchWords);
      calc {
        OnSearch(a + b, searchWords);
        head + OnSearch(a[1..] + b, searchWords);
        head + (OnSearch(a[1..], searchWords) + OnSearch(b, searchWords));
        (head + OnSearch(a[1..], searchWords)) + OnSearch(b, searchWords);
      }
    }
  }

  /**
   * The search keeps the order of the list: a single item is kept exactly when it matches,
   * and the result of a list is the results of its parts in the same order.
   */
  lemma OnSearchPreservesOrder(a: seq<RecentItem>, b: seq<RecentItem>, x: RecentItem, searchWords: seq<string>)
    ensures OnSearch([x], searchWords) == if MatchesAll(x, searchWords) then [x] else []
    ensures OnSearch(a + b, searchWords) == OnSearch(a, searchWords) + OnSearch(b, searchWords)
  {
    assert [x][1..] == [];
    OnSearchConcat(a, b, searchWords);
  }

  /** The first item is the page the user is on: its first link's path ends with the current path. */
  predicate FirstIsCurrentPage(items: seq<RecentItem>, pathname: string)
  {
    |items| > 1 && |items[0].itemLinks| > 0 && EndsWith(items[0].itemLinks[0].path, pathname)
  }

  /** The loaded list with the first two items swapped when the first one is the current page. */
  function SwapCurrentFirst(items: seq<RecentItem>, pathname: string): seq<RecentItem>
  {
    if FirstIsCurrentPage(items, pathname) then [items[1], items[0]] + items[2..] else items
  }

  /**
   * The swap only reorders: the same items, the first two exchanged exactly when the first is
   * the current page and the rest in place.
   */
  lemma SwapCurrentFirstSpec(items: seq<RecentItem>, pathname: string)
    ensures var r := SwapCurrentFirst(items, pathname);
            && multiset(r) == multiset(items)
            && |r| == |items|
            && (FirstIsCurrentPage(items, pathname) ==> r[0] == items[1] && r[1] == items[0] && r[2..] == items[2..])
            && (!FirstIsCurrentPage(items, pathname) ==> r == items)
  {
    if FirstIsCurrentPage(items, pathname) {
      assert items == [items[0], items[1]] + items[2..];
    }
  }

  /** How loading failed: a fetch error carries the server's error response, anything else is rethrown. */
  datatype LoadFailure = LoadFailure(isFetchError: bool, errorResponse: Option<string>)

  class RecentlyViewedModal {
    var isOpen: bool
    var recentItems: seq<RecentItem>
    var loading: bool
    var error: Option<string>

    constructor ()
      ensures !isOpen && recentItems == [] && !loading && error.None?
    {
      isOpen := false;
      recentItems := [];
      loading := false;
      error := None;
    }

    /** The quick-search hot key. */
    method Open()
      modifies this
      ensures isOpen && recentItems == old(recentItems) && loading == old(loading) && error == old(error)
    {
      isOpen := true;
    }

    method Close()
      modifies this
      ensures !isOpen && recentItems == old(recentItems) && loading == old(loading) && error == old(error)
    {
      isOpen := false;
    }

    /**
     * `loadRecentItems`, given what the request returned: the list is stored with the swap
     * applied in place; a fetch error with a response is shown; any other failure is
     * rethrown and leaves the list as it was. Loading is off afterwards either way.
     */
    method LoadRecentItems(response: Result<seq<RecentItem>, LoadFailure>, pathname: string)
      returns (rethrown: Option<LoadFailure>)
      modifies this
      ensures !loading && isOpen == old(isOpen)
      ensures response.Ok? ==> recentItems == SwapCurrentFirst(response.value, pathname) && error.None? && rethrown.None?
      ensures response.Err? && response.error.isFetchError && response.error.errorResponse.Some? ==>
        error == response.error.errorResponse && recentItems == old(recentItems) && rethrown.None?
      ensures response.Err? && !(response.error.isFetchError && response.error.errorResponse.Some?) ==>
        rethrown == Some(response.error) && error.None? && recentItems == old(recentItems)
    {
      error := None;
      rethrown := None;
      loading := true;
      if response.Ok? {
        var items := response.value;
        var a := new RecentItem[|items|](i requires 0 <= i < |items| => items[i]);
        if a.Length > 1 && |a[0].itemLinks| > 0 && EndsWith(a[0].itemLinks[0].path, pathname) {
          a[0], a[1] := a[1], a[0];
          assert a[..] == [items[1], items[0]] + items[2..];
        } else {
          assert a[..] == items;
        }
        recentItems := a[..];
      } else if response.error.isFetchError && response.error.errorResponse.Some? {
        error := response.error.errorResponse;
      } else {
        rethrown := Some(response.error);
      }
      loading := false;
    }

    /**
     * `onChange`: choosing an item closes the dialog and, when it has a link, navigates to its
     * first link.
     */
    method OnChange(itemLinks: seq<ItemLink>, servePath: string) returns (navigation: Option<Navigation>)
      modifies this
      ensures !isOpen && recentItems == old(recentItems) && loading == old(loading) && error == old(error)
      ensures navigation.Some? <==> itemLinks != []
      ensures itemLinks != [] ==> navigation == Some(GoToPage(itemLinks[0].path, NoLabels, servePath))
    {
      isOpen := false;
      navigation := None;
      if |itemLinks| > 0 {
        navigation := Some(GoToPage(itemLinks[0].path, NoLabels, servePath));
      }
    }
  }

  /**
   * `globalSearch`: the extra entry that searches the whole workspace for the query; the
   * absolute URL and the URI encoding are passed in.
   */
  function GlobalSearch(query: string, absolutePageUrl: string -> string, encodeUriComponent: string -> string): (r: RecentItem)
    ensures r.projectId == "" && r.itemLinks == [ItemLink("Search workspace", absolutePageUrl("?textQuery=" + encodeUriComponent(query)))]
    ensures ItemLabel(r) == "" && ItemKey(r) == ""
  {
    RecentItem("", Some(""), None, None, [ItemLink("Search workspace", absolutePageUrl("?textQuery=" + encodeUriComponent(query)))])
  }
}
