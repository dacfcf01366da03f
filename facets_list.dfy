// The facet filters of the workspace search (views/pages/Workspace/Filterbar/FacetsList.tsx):
// each facet previews its first values and can be expanded to all of them and collapsed again;
// a value is checked when the applied facets hold it.
module FacetsList {
  import opened Results
  import opened Records
  import opened JsArrays

  const PreviewLimit := 5

  datatype FacetValue = FacetValue(id: string, valueLabel: string, count: int)
  datatype Facet = Facet(id: string, facetLabel: string, description: string, values: seq<FacetValue>)
  datatype AppliedFacet = AppliedFacet(facetId: string, keywordIds: seq<string>)

  function Min(a: int, b: int): int
  {
    if a <= b then a else b
  }

  /** `values.slice(0, 5)`. */
  function Preview(values: seq<FacetValue>): (r: seq<FacetValue>)
    ensures |r| == Min(PreviewLimit, |values|)
    ensures r <= values
  {
    values[..Min(PreviewLimit, |values|)]
  }

  /** One entry per facet, in order: its id and its preview. */
  function PreviewEntries(facets: seq<Facet>): (r: Record<seq<FacetValue>>)
    ensures |r| == |facets|
    ensures forall i :: 0 <= i < |facets| ==> r[i] == (facets[i].id, Preview(facets[i].values))
  {
    seq(|facets|, i requires 0 <= i < |facets| => (facets[i].id, Preview(facets[i].values)))
  }

  predicate UniqueIds(facets: seq<Facet>)
  {
    forall i, j :: 0 <= i < j < |facets| ==> facets[i].id != facets[j].id
  }

  /**
   * The visible values after the facets load: a facet id maps to the preview of the last
   * facet with that id, and ids of no facet are absent. With distinct ids, every facet shows
   * its own preview, in the facets' order.
   */
  lemma VisibleAfterLoad(facets: seq<Facet>, id: string)
    ensures Get(FromEntries(PreviewEntries(facets)), id) == LastGet(PreviewEntries(facets), id)
    ensures HasKey(FromEntries(PreviewEntries(facets)), id) <==> exists i :: 0 <= i < |facets| && facets[i].id == id
    ensures UniqueIds(facets) ==> FromEntries(PreviewEntries(facets)) == PreviewEntries(facets)
  {
    GetPutAll([], PreviewEntries(facets), id);
    var es := PreviewEntries(facets);
    if exists i :: 0 <= i < |facets| && facets[i].id == id {
      var i :| 0 <= i < |facets| && facets[i].id == id;
      assert es[i].0 == id;
    }
    if UniqueIds(facets) {
      assert UniqueKeys(es) by {
        forall i, j | 0 <= i < j < |es| ensures es[i].0 != es[j].0 {
          assert es[i].0 == facets[i].id && es[j].0 == facets[j].id;
        }
      }
      FromEntriesUnique(es);
    }
  }

  /** `isChecked`: the first applied facet with that id holds the value; no such facet means unchecked. */
  function IsChecked(appliedFacets: seq<AppliedFacet>, facetId: string, value: string): bool
  {
    if appliedFacets == [] then false
    else if appliedFacets[0].facetId == facetId then value in appliedFacets[0].keywordIds
    else IsChecked(appliedFacets[1..], facetId, value)
  }

  /** A value is checked exactly when some applied facet with that id holds it and none before that one has the id. */
  lemma {:induction false} IsCheckedSpec(appliedFacets: seq<AppliedFacet>, facetId: string, value: string)
    ensures IsChecked(appliedFacets, facetId, value) <==>
      exists i :: 0 <= i < |appliedFacets| && appliedFacets[i].facetId == facetId
                  && value in appliedFacets[i].keywordIds
                  && forall j :: 0 <= j < i ==> appliedFacets[j].facetId != facetId
    decreases |appliedFacets|
  {
    if appliedFacets != [] {
      var rest := appliedFacets[1..];
      IsCheckedSpec(rest, facetId, value);
      if appliedFacets[0].facetId != facetId {
        if IsChecked(appliedFacets, facetId, value) {
          var i :| 0 <= i < |rest| && rest[i].facetId == facetId && value in rest[i].keywordIds
                   && forall j :: 0 <= j < i ==> rest[j].facetId != facetId;
          assert appliedFacets[i + 1] == rest[i];
          forall j | 0 <= j < i + 1 ensures appliedFacets[j].facetId != facetId {
            if j > 0 { assert appliedFacets[j] == rest[j - 1]; }
          }
        }
        if exists i :: 0 <= i < |appliedFacets| && appliedFacets[i].facetId == facetId
                       && value in appliedFacets[i].keywordIds
                       && forall j :: 0 <= j < i ==> appliedFacets[j].facetId != facetId {
          var i :| 0 <= i < |appliedFacets| && appliedFacets[i].facetId == facetId
                   && value in appliedFacets[i].keywordIds
                   && forall j :: 0 <= j < i ==> appliedFacets[j].facetId != facetId;
          assert i > 0 && rest[i - 1] == appliedFacets[i];
          forall j | 0 <= j < i - 1 ensures rest[j].facetId != facetId {
            assert rest[j] == appliedFacets[j + 1];
          }
        }
      }
    }
  }

  /** `toggledFacets` after `toggleShowMore`: a toggled id is spliced out, an untoggled one pushed. */
  function ToggledAfter(toggledFacets: seq<string>, id: string): (r: seq<string>)
  {
    var k := IndexOf(toggledFacets, id);
    if k > -1 then toggledFacets[..k] + toggledFacets[k + 1..] else toggledFacets + [id]
  }

  /** The visible values after `toggleShowMore`: the preview for a toggled facet, all values otherwise. */
  function VisibleAfter(visible: Record<seq<FacetValue>>, toggledFacets: seq<string>, facet: Facet): Record<seq<FacetValue>>
  {
    Put(visible, facet.id, if facet.id in toggledFacets then Preview(facet.values) else facet.values)
  }

  /** Toggling expands an untoggled facet, collapses a toggled one and touches no other facet. */
  lemma VisibleAfterSpec(visible: Record<seq<FacetValue>>, toggledFacets: seq<string>, facet: Facet, other: string)
    ensures facet.id in toggledFacets ==> Get(VisibleAfter(visible, toggledFacets, facet), facet.id) == Some(Preview(facet.values))
    ensures facet.id !in toggledFacets ==> Get(VisibleAfter(visible, toggledFacets, facet), facet.id) == Some(facet.values)
    ensures other != facet.id ==> Get(VisibleAfter(visible, toggledFacets, facet), other) == Get(visible, other)
  {
    GetPut(visible, facet.id, if facet.id in toggledFacets then Preview(facet.values) else facet.values, facet.id);
    GetPut(visible, facet.id, if facet.id in toggledFacets then Preview(facet.values) else facet.values, other);
  }

  /** Removing the element at position k of a list without repeats leaves the others and no repeats. */
  lemma RemoveAtSpec(t: seq<string>, k: nat)
    requires Distinct(t) && k < |t|
    ensures var r := t[..k] + t[k + 1..];
            && Distinct(r)
            && (forall x :: x in r <==> x in t && x != t[k])
  {
    var r := t[..k] + t[k + 1..];
    forall a, b | 0 <= a < b < |r| ensures r[a] != r[b] {
      var a' := if a < k then a else a + 1;
      var b' := if b < k then b else b + 1;
      assert r[a] == t[a'] && r[b] == t[b'];
    }
    forall x ensures x in r <==> x in t && x != t[k] {
      if x in r {
        var j :| 0 <= j < |r| && r[j] == x;
        var j' := if j < k then j else j + 1;
        assert t[j'] == x && j' != k;
      }
      if x in t && x != t[k] {
        var j :| 0 <= j < |t| && t[j] == x;
        assert j != k;
        if j < k { assert r[j] == x; } else { assert r[j - 1] == x; }
      }
    }
  }

  /** Toggling flips the facet's membership in the toggled list, keeps it free of repeats and keeps every other id. */
  lemma ToggledAfterSpec(toggledFacets: seq<string>, id: string, other: string)
    requires Distinct(toggledFacets)
    ensures Distinct(ToggledAfter(toggledFacets, id))
    ensures id in ToggledAfter(toggledFacets, id) <==> id !in toggledFacets
    ensures other != id ==> (other in ToggledAfter(toggledFacets, id) <==> other in toggledFacets)
  {
    var k := IndexOf(toggledFacets, id);
    if k > -1 {
      RemoveAtSpec(toggledFacets, k);
    } else {
      var r := ToggledAfter(toggledFacets, id);
      assert r == toggledFacets + [id];
      assert r[|toggledFacets|] == id;
    }
  }

  /** Toggling a facet twice restores the toggled list and leaves the facet showing its preview. */
  lemma ToggleTwice(visible: Record<seq<FacetValue>>, toggledFacets: seq<string>, facet: Facet)
    requires facet.id !in toggledFacets
    ensures ToggledAfter(ToggledAfter(toggledFacets, facet.id), facet.id) == toggledFacets
    ensures var once := VisibleAfter(visible, toggledFacets, facet);
            Get(VisibleAfter(once, ToggledAfter(toggledFacets, facet.id), facet), facet.id) == Some(Preview(facet.values))
  {
    var once := ToggledAfter(toggledFacets, facet.id);
    assert once == toggledFacets + [facet.id];
    assert once[|toggledFacets|] == facet.id;
    assert IndexOf(once, facet.id) == |toggledFacets| by {
      assert forall j :: 0 <= j < |toggledFacets| ==> once[j] == toggledFacets[j];
    }
    assert once[..|toggledFacets|] == toggledFacets;
    GetPut(VisibleAfter(visible, toggledFacets, facet), facet.id, Preview(facet.values), facet.id);
  }

  /** The link under a facet: none with at most 5 values, else "Show less..." when expanded and "Show more..." when not. */
  function ShowMoreText(toggledFacets: seq<string>, facet: Facet): (r: Option<string>)
    ensures r.None? <==> |facet.values| <= PreviewLimit
    ensures r.Some? ==> (r.value == "Show less..." <==> facet.id in toggledFacets)
  {
    if |facet.values| <= PreviewLimit then None
    else if facet.id in toggledFacets then Some("Show less...")
    else Some("Show more...")
  }

  /** The loop of the effect on new facets: each facet's preview, written in order into a fresh object. */
  method VisiblesOnly(facets: seq<Facet>) returns (visiblesOnly: Record<seq<FacetValue>>)
    ensures visiblesOnly == FromEntries(PreviewEntries(facets))
  {
    visiblesOnly := [];
    var i := 0;
    while i < |facets|
      invariant 0 <= i <= |facets|
      invariant visiblesOnly == PutAll([], PreviewEntries(facets[..i]))
    {
      assert PreviewEntries(facets[..i + 1]) == PreviewEntries(facets[..i]) + [(facets[i].id, Preview(facets[i].values))];
      PutAllConcat([], PreviewEntries(facets[..i]), [(facets[i].id, Preview(facets[i].values))]);
      visiblesOnly := Put(visiblesOnly, facets[i].id, Preview(facets[i].values));
      i := i + 1;
    }
    assert facets[..i] == facets;
  }

  /** The facet list's state. */
  class FacetsView {
    var facets: seq<Facet>
    var appliedFacets: seq<AppliedFacet>
    var visibleFacetsKeywords: Record<seq<FacetValue>>
    var toggledFacets: seq<string>

    predicate Valid()
      reads this
    {
      Distinct(toggledFacets)
    }

    constructor (facets: seq<Facet>, appliedFacets: seq<AppliedFacet>)
      ensures Valid()
      ensures this.facets == facets && this.appliedFacets == appliedFacets
      ensures visibleFacetsKeywords == [] && toggledFacets == []
    {
      this.facets := facets;
      this.appliedFacets := appliedFacets;
      visibleFacetsKeywords := [];
      toggledFacets := [];
    }

    /** The effect on new facets: each facet's preview, written in order into a fresh object. */
    method FacetsLoaded(newFacets: seq<Facet>)
      requires Valid()
      modifies this
      ensures Valid()
      ensures facets == newFacets
      ensures visibleFacetsKeywords == FromEntries(PreviewEntries(newFacets))
      ensures appliedFacets == old(appliedFacets) && toggledFacets == old(toggledFacets)
    {
      var visiblesOnly := VisiblesOnly(newFacets);
      facets := newFacets;
      visibleFacetsKeywords := visiblesOnly;
    }

    /** `toggleShowMore`. */
    method ToggleShowMore(facet: Facet)
      requires Valid()
      modifies this
      ensures Valid()
      ensures toggledFacets == ToggledAfter(old(toggledFacets), facet.id)
      ensures visibleFacetsKeywords == VisibleAfter(old(visibleFacetsKeywords), old(toggledFacets), facet)
      ensures facets == old(facets) && appliedFacets == old(appliedFacets)
    {
      ToggledAfterSpec(toggledFacets, facet.id, facet.id);
      var toggledIndex := IndexOf(toggledFacets, facet.id);
      var keywords := visibleFacetsKeywords;
      if toggledIndex > -1 {
        keywords := Put(keywords, facet.id, Preview(facet.values));
        toggledFacets := toggledFacets[..toggledIndex] + toggledFacets[toggledIndex + 1..];
      } else {
        keywords := Put(keywords, facet.id, facet.values);
        toggledFacets := toggledFacets + [facet.id];
      }
      visibleFacetsKeywords := keywords;
    }

    function Checked(facetId: string, value: string): bool
      reads this
    {
      IsChecked(appliedFacets, facetId, value)
    }
  }
}
