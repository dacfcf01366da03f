// The "Related Items" card of a project task (views/shared/RelatedItems/RelatedItems.tsx): the
// title's count suffix, the page of items shown, and when the search box and the pagination
// control appear.
module RelatedItems {
  import opened Results
  import opened JsStrings

  datatype RelatedItem = RelatedItem(id: string, itemType: string, itemLabel: string)

  /** A response of the related-items request; a response without `items` is ignored. */
  datatype RelatedItemsData = RelatedItemsData(total: int, items: Option<seq<RelatedItem>>)

  datatype Pagination = Pagination(total: int, current: int, limit: int)

  /** `relatedItemsSizeInfo(length, total)`: the count suffix of the card's title. */
  function SizeInfo(length: nat, total: int): string
  {
    if total > 0 then
      if length == total then " (" + IntToString(total) + ")"
      else " (" + NatToString(length) + " / " + IntToString(total) + ")"
    else ""
  }

  /**
   * Nothing is shown without related items at all; the total alone when every item is listed;
   * otherwise the number listed and the total.
   */
  lemma SizeInfoSpec(length: nat, total: int)
    ensures SizeInfo(length, total) == "" <==> total <= 0
    ensures total > 0 && length == total ==> SizeInfo(length, total) == " (" + NatToString(length) + ")"
    ensures total > 0 && length != total ==>
      SizeInfo(length, total) == " (" + NatToString(length) + " / " + NatToString(total) + ")"
  {
  }

  /** The items of page `current` (counted from 1) with `limit` items per page. */
  function PageItems(items: seq<RelatedItem>, current: int, limit: int): seq<RelatedItem>
  {
    Slice(items, (current - 1) * limit, current * limit)
  }

  function Min(a: int, b: int): int
  {
    if a <= b then a else b
  }

  /** The start of page `current` and of the two pages after it. */
  lemma PageStarts(current: int, limit: int)
    requires current >= 1 && limit >= 0
    ensures (current - 1) * limit >= 0
    ensures current * limit == (current - 1) * limit + limit
    ensures (current + 1 - 1) * limit == current * limit
    ensures (current + 1) * limit == (current - 1) * limit + 2 * limit
  {
  }

  /**
   * A page is the contiguous run of the items from position (current - 1) * limit, cut off at
   * the end of the list: never more than `limit` items.
   */
  lemma PageItemsSpec(items: seq<RelatedItem>, current: int, limit: int)
    requires current >= 1 && limit >= 0
    ensures var from := Min((current - 1) * limit, |items|);
            var to := Min(current * limit, |items|);
            && from <= to
            && PageItems(items, current, limit) == items[from..to]
            && |PageItems(items, current, limit)| <= limit
  {
    PageStarts(current, limit);
  }

  /** Consecutive pages follow one another without gap or overlap. */
  lemma PagesAdjoin(items: seq<RelatedItem>, current: int, limit: int)
    requires current >= 1 && limit >= 0
    ensures PageItems(items, current, limit) + PageItems(items, current + 1, limit)
            == items[Min((current - 1) * limit, |items|)..Min((current + 1) * limit, |items|)]
  {
    PageStarts(current, limit);
    PageItemsSpec(items, current, limit);
    PageItemsSpec(items, current + 1, limit);
    var a := Min((current - 1) * limit, |items|);
    var b := Min(current * limit, |items|);
    var c := Min((current + 1) * limit, |items|);
    assert items[a..b] + items[b..c] == items[a..c];
  }

  /** The pagination control is needed when more items are loaded than the first page (at most 5) holds. */
  predicate PaginationShown(itemsLength: nat, paginationTotal: int)
  {
    itemsLength > Min(paginationTotal, 5)
  }

  /** The search box: shown when there are related items or a search is active. */
  predicate SearchShown(total: int, textQuery: string)
  {
    total > 0 || textQuery != ""
  }

  class RelatedItemsWidget {
    var loading: bool
    var data: RelatedItemsData
    var textQuery: string
    var pagination: Pagination

    /** The items of the last response; the initial data holds none. */
    function Items(): seq<RelatedItem>
      reads this
    {
      data.items.GetOr([])
    }

    constructor ()
      ensures loading && data == RelatedItemsData(0, Some([])) && textQuery == ""
      ensures pagination == Pagination(0, 1, 5)
    {
      loading := true;
      data := RelatedItemsData(0, Some([]));
      textQuery := "";
      pagination := Pagination(0, 1, 5);
    }

    /**
     * `getRelatedItemsData`, given the response: a response with items replaces the data and
     * the pagination's total, keeping the page and page size; loading is off afterwards.
     */
    method GetRelatedItemsData(response: RelatedItemsData)
      modifies this
      ensures !loading && textQuery == old(textQuery)
      ensures response.items.Some? ==>
        data == response && pagination == old(pagination).(total := response.total)
      ensures response.items.None? ==> data == old(data) && pagination == old(pagination)
    {
      loading := true;
      if response.items.Some? {
        pagination := Pagination(response.total, pagination.current, pagination.limit);
        data := response;
      }
      loading := false;
    }

    /** `searchFired`: a new search query (the effect then reloads). */
    method SearchFired(searchInput: string)
      modifies this
      ensures textQuery == searchInput
      ensures loading == old(loading) && data == old(data) && pagination == old(pagination)
    {
      textQuery := searchInput;
    }

    /** `onChangeSelect`: a new page or page size; the total stays. */
    method OnChangeSelect(page: int, pageSize: int)
      modifies this
      ensures pagination == Pagination(old(pagination).total, page, pageSize)
      ensures loading == old(loading) && data == old(data) && textQuery == old(textQuery)
    {
      pagination := Pagination(pagination.total, page, pageSize);
    }

    /** What the card shows: the page of items. */
    function ShownItems(): seq<RelatedItem>
      reads this
    {
      PageItems(Items(), pagination.current, pagination.limit)
    }
  }

  /**
   * After a response with items, the pagination's total is the response's, so the control is
   * shown exactly when more items arrived than min(total, 5), and the search box exactly when
   * there are related items or a query.
   */
  lemma AfterLoad(w: RelatedItemsWidget, response: RelatedItemsData)
    requires response.items.Some? && w.data == response && w.pagination.total == response.total
    ensures PaginationShown(|w.Items()|, w.pagination.total) <==> |response.items.value| > Min(response.total, 5)
    ensures SearchShown(w.data.total, w.textQuery) <==> response.total > 0 || w.textQuery != ""
    ensures w.pagination.current >= 1 && w.pagination.limit >= 0 ==> |w.ShownItems()| <= w.pagination.limit
  {
    if w.pagination.current >= 1 && w.pagination.limit >= 0 {
      PageItemsSpec(w.Items(), w.pagination.current, w.pagination.limit);
    }
  }
}
