// The path editor with auto-completion (HierarchicalMapping/components/AutoSuggestion/AutoSuggestion.tsx):
// the back end answers with replacement results, each a list of replacements for one interval
// of the typed text; the box lists all of them and, when one is chosen, splices it into the
// text over its interval.
module AutoSuggestion {
  import opened Results
  import opened Records
  import opened JsStrings

  datatype Replacement = Replacement(value: string, description: Option<string>, replacementLabel: Option<string>)

  /** The part of the text a replacement stands for: `length` characters from `from`. */
  datatype Interval = Interval(from: int, length: int)

  datatype ReplacementResult = ReplacementResult(replacements: seq<Replacement>, replacementInterval: Interval)

  /** Every replacement of every result, results in order. */
  function AllSuggestions(results: seq<ReplacementResult>): seq<Replacement>
  {
    if results == [] then [] else AllSuggestions(results[..|results| - 1]) + results[|results| - 1].replacements
  }

  predicate Offers(result: ReplacementResult, v: string)
  {
    exists j :: 0 <= j < |result.replacements| && result.replacements[j].value == v
  }

  /** The suggestions are exactly the replacements of the results, none added or lost. */
  lemma {:induction false} AllSuggestionsSpec(results: seq<ReplacementResult>)
    ensures forall x :: x in AllSuggestions(results) <==>
      exists i :: 0 <= i < |results| && x in results[i].replacements
    decreases |results|
  {
    if results != [] {
      var n := |results| - 1;
      AllSuggestionsSpec(results[..n]);
      forall x ensures x in AllSuggestions(results) <==> exists i :: 0 <= i < |results| && x in results[i].replacements {
        if x in results[n].replacements {
        } else if exists i :: 0 <= i < |results| && x in results[i].replacements {
          var i :| 0 <= i < |results| && x in results[i].replacements;
          assert results[..n][i] == results[i];
        }
      }
    }
  }

  /** Concatenating the results concatenates their suggestions. */
  lemma {:induction false} AllSuggestionsConcat(a: seq<ReplacementResult>, b: seq<ReplacementResult>)
    ensures AllSuggestions(a + b) == AllSuggestions(a) + AllSuggestions(b)
    decreases |b|
  {
    if b == [] {
      assert a + b == a;
    } else {
      var n := |b| - 1;
      assert (a + b)[..|a + b| - 1] == a + b[..n];
      AllSuggestionsConcat(a, b[..n]);
    }
  }

  /** One result's entries for the index: each replacement's value with the result's interval. */
  function ResultEntries(result: ReplacementResult): (r: Record<Interval>)
    ensures |r| == |result.replacements|
    ensures forall j :: 0 <= j < |r| ==> r[j] == (result.replacements[j].value, result.replacementInterval)
  {
    seq(|result.replacements|, j requires 0 <= j < |result.replacements| =>
      (result.replacements[j].value, result.replacementInterval))
  }

  function IndexEntries(results: seq<ReplacementResult>): Record<Interval>
  {
    if results == [] then [] else IndexEntries(results[..|results| - 1]) + ResultEntries(results[|results| - 1])
  }

  /** `replacementIndexesDict`: each value mapped to the interval of its result, written in order. */
  function IndexesDict(results: seq<ReplacementResult>): Record<Interval>
  {
    FromEntries(IndexEntries(results))
  }

  /**
   * The dictionary holds the values that some result offers, and each maps to the interval of
   * the last result offering it.
   */
  lemma IndexEntriesSpec(results: seq<ReplacementResult>, v: string)
    ensures HasKey(IndexEntries(results), v) <==> exists i :: 0 <= i < |results| && Offers(results[i], v)
    ensures LastGet(IndexEntries(results), v).Some? ==>
      exists i :: 0 <= i < |results| && Offers(results[i], v)
                  && LastGet(IndexEntries(results), v).value == results[i].replacementInterval
                  && forall k :: i < k < |results| ==> !Offers(results[k], v)
  {
    IndexEntriesHasKey(results, v);
    IndexEntriesLastGet(results, v);
  }

  /** One result's entries hold exactly the values it offers, each with the result's interval. */
  lemma ResultEntriesHasKey(result: ReplacementResult, v: string)
    ensures HasKey(ResultEntries(result), v) <==> Offers(result, v)
    ensures HasKey(ResultEntries(result), v) ==> LastGet(ResultEntries(result), v) == Some(result.replacementInterval)
  {
    var es := ResultEntries(result);
    if HasKey(es, v) {
      var j :| 0 <= j < |es| && es[j].0 == v;
      assert result.replacements[j].value == v;
      LastGetIn(es, v);
    }
    if Offers(result, v) {
      var j :| 0 <= j < |result.replacements| && result.replacements[j].value == v;
      assert es[j].0 == v;
    }
  }

  lemma {:induction false} IndexEntriesHasKey(results: seq<ReplacementResult>, v: string)
    ensures HasKey(IndexEntries(results), v) <==> exists i :: 0 <= i < |results| && Offers(results[i], v)
    decreases |results|
  {
    if results != [] {
      var n := |results| - 1;
      var init := results[..n];
      assert IndexEntries(results) == IndexEntries(init) + ResultEntries(results[n]);
      IndexEntriesHasKey(init, v);
      ResultEntriesHasKey(results[n], v);
      HasKeyConcat(IndexEntries(init), ResultEntries(results[n]), v);
      assert forall i :: 0 <= i < n ==> init[i] == results[i];
    }
  }

  lemma {:induction false} IndexEntriesLastGet(results: seq<ReplacementResult>, v: string)
    ensures LastGet(IndexEntries(results), v).Some? ==>
      exists i :: 0 <= i < |results| && Offers(results[i], v)
                  && LastGet(IndexEntries(results), v).value == results[i].replacementInterval
                  && forall k :: i < k < |results| ==> !Offers(results[k], v)
    decreases |results|
  {
    if results != [] {
      var n := |results| - 1;
      var init := results[..n];
      var last := results[n];
      assert IndexEntries(results) == IndexEntries(init) + ResultEntries(last);
      LastGetConcat(IndexEntries(init), ResultEntries(last), v);
      ResultEntriesHasKey(last, v);
      if Offers(last, v) {
        assert LastGet(IndexEntries(results), v) == Some(last.replacementInterval);
        assert Offers(results[n], v);
      } else {
        IndexEntriesLastGet(init, v);
        if LastGet(IndexEntries(init), v).Some? {
          var i :| 0 <= i < |init| && Offers(init[i], v)
                   && LastGet(IndexEntries(init), v).value == init[i].replacementInterval
                   && forall k :: i < k < |init| ==> !Offers(init[k], v);
          assert results[i] == init[i];
          forall k | i < k < |results| ensures !Offers(results[k], v) {
            if k < n {
              assert results[k] == init[k];
            }
          }
        }
      }
    }
  }

  lemma HasKeyConcat<V>(a: Record<V>, b: Record<V>, k: string)
    ensures HasKey(a + b, k) <==> HasKey(a, k) || HasKey(b, k)
  {
    if HasKey(a + b, k) {
      var i :| 0 <= i < |a + b| && (a + b)[i].0 == k;
      if i >= |a| { assert b[i - |a|].0 == k; }
    }
    if HasKey(b, k) {
      var i :| 0 <= i < |b| && b[i].0 == k;
      assert (a + b)[|a| + i].0 == k;
    }
    if HasKey(a, k) {
      var i :| 0 <= i < |a| && a[i].0 == k;
      assert (a + b)[i].0 == k;
    }
  }

  /** Reading the dictionary: a value some result offers gives the last such result's interval; any other gives nothing. */
  lemma IndexesDictSpec(results: seq<ReplacementResult>, v: string)
    ensures Get(IndexesDict(results), v).Some? <==> exists i :: 0 <= i < |results| && Offers(results[i], v)
    ensures Get(IndexesDict(results), v).Some? ==>
      exists i :: 0 <= i < |results| && Offers(results[i], v)
                  && Get(IndexesDict(results), v).value == results[i].replacementInterval
                  && forall k :: i < k < |results| ==> !Offers(results[k], v)
  {
    GetPutAll([], IndexEntries(results), v);
    IndexEntriesSpec(results, v);
  }

  /**
   * The test at line 45 as written: `replacementResults` is an array, so its `replacements`
   * is undefined and the test holds for any single result.
   */
  predicate HidesDropdownAsWritten(data: Option<seq<ReplacementResult>>)
  {
    data.Some? && |data.value| == 1
  }

  /** The evidently intended test: a single result that offers no replacement. */
  predicate HidesDropdown(data: Option<seq<ReplacementResult>>)
  {
    data.Some? && |data.value| == 1 && data.value[0].replacements == []
  }

  /** As written, a single result with a replacement to offer still hides the dropdown. */
  lemma HidesDropdownWithSuggestions()
    ensures var data := Some([ReplacementResult([Replacement("name", None, None)], Interval(0, 4))]);
            HidesDropdownAsWritten(data) && AllSuggestions(data.value) != []
  {
    var data := Some([ReplacementResult([Replacement("name", None, None)], Interval(0, 4))]);
    assert data.value[..0] == [];
  }

  /** With the intended test, the dropdown is hidden only when there is nothing to suggest. */
  lemma HidesDropdownOnlyWithoutSuggestions(data: Option<seq<ReplacementResult>>)
    ensures HidesDropdown(data) ==> AllSuggestions(data.value) == []
    ensures HidesDropdown(data) ==> HidesDropdownAsWritten(data)
  {
    if HidesDropdown(data) {
      assert data.value[..0] == [];
    }
  }

  /**
   * `value.substring(0, from) + s + value.substring(from + length)`: JavaScript's substring
   * clamps its bounds to the text.
   */
  function Splice(value: string, s: string, interval: Interval): string
  {
    Substring(value, 0, interval.from) + s + Substring(value, interval.from + interval.length, |value|)
  }

  /**
   * Over an interval inside the text, the replacement takes exactly the interval's place: the
   * text before and after it is kept and the length changes by the difference.
   */
  lemma SpliceSpec(value: string, s: string, interval: Interval)
    requires 0 <= interval.from && 0 <= interval.length && interval.from + interval.length <= |value|
    ensures Splice(value, s, interval) == value[..interval.from] + s + value[interval.from + interval.length..]
    ensures |Splice(value, s, interval)| == |value| - interval.length + |s|
  {
  }

  /** Choosing the text that is already there changes nothing. */
  lemma SpliceSame(value: string, interval: Interval)
    requires 0 <= interval.from && 0 <= interval.length && interval.from + interval.length <= |value|
    ensures Splice(value, value[interval.from..interval.from + interval.length], interval) == value
  {
    var a := interval.from;
    var b := interval.from + interval.length;
    assert value[..a] + value[a..b] + value[b..] == value;
  }

  class AutoSuggestionBox {
    var value: string
    var inputString: string
    var cursorPosition: int
    var shouldShowDropdown: bool
    var replacementIndexesDict: Record<Interval>
    var suggestions: seq<Replacement>

    constructor ()
      ensures value == "" && inputString == "" && cursorPosition == 0 && !shouldShowDropdown
      ensures replacementIndexesDict == [] && suggestions == []
    {
      value, inputString, cursorPosition := "", "", 0;
      shouldShowDropdown := false;
      replacementIndexesDict, suggestions := [], [];
    }

    /**
     * The effect on new `data`, with the intended test: a single result without replacements
     * hides the dropdown; suggestions and dictionary are replaced only when there is at least
     * one result. The test as written (`HidesDropdownAsWritten`) hides it for any single result.
     */
    method OnData(data: Option<seq<ReplacementResult>>)
      modifies this
      ensures shouldShowDropdown == (if HidesDropdown(data) then false else old(shouldShowDropdown))
      ensures data.Some? && |data.value| > 0 ==>
        suggestions == AllSuggestions(data.value) && replacementIndexesDict == IndexesDict(data.value)
      ensures !(data.Some? && |data.value| > 0) ==>
        suggestions == old(suggestions) && replacementIndexesDict == old(replacementIndexesDict)
      ensures value == old(value) && inputString == old(inputString) && cursorPosition == old(cursorPosition)
    {
      if HidesDropdown(data) {
        shouldShowDropdown := false;
      }
      if data.Some? && |data.value| > 0 {
        suggestions := AllSuggestions(data.value);
        replacementIndexesDict := IndexesDict(data.value);
      }
    }

    /**
     * The effect on a change of text or cursor: the input string catches up with the text and
     * the dropdown opens; validity is checked, and the editor parameters reported, for the
     * input string the effect saw (the previous one).
     */
    method SyncInput() returns (checkedPath: string, editorParams: (string, int))
      modifies this
      ensures inputString == old(value) && shouldShowDropdown
      ensures checkedPath == old(inputString) && editorParams == (old(inputString), old(cursorPosition))
      ensures value == old(value) && cursorPosition == old(cursorPosition)
      ensures replacementIndexesDict == old(replacementIndexesDict) && suggestions == old(suggestions)
    {
      checkedPath := inputString;
      editorParams := (inputString, cursorPosition);
      inputString := value;
      shouldShowDropdown := true;
    }

    method HandleChange(val: string)
      modifies this
      ensures value == val
      ensures inputString == old(inputString) && cursorPosition == old(cursorPosition) && shouldShowDropdown == old(shouldShowDropdown)
      ensures replacementIndexesDict == old(replacementIndexesDict) && suggestions == old(suggestions)
    {
      value := val;
    }

    /** `handleCursorChange`: the cursor's column. */
    method HandleCursorChange(ch: int)
      modifies this
      ensures cursorPosition == ch
      ensures value == old(value) && inputString == old(inputString) && shouldShowDropdown == old(shouldShowDropdown)
      ensures replacementIndexesDict == old(replacementIndexesDict) && suggestions == old(suggestions)
    {
      cursorPosition := ch;
    }

    /**
     * `handleDropdownChange`: a suggestion in the dictionary is spliced in over its interval,
     * the dropdown closes and the editor cursor moves to the interval's end; any other choice
     * changes nothing.
     */
    method HandleDropdownChange(selectedSuggestion: string) returns (cursorTo: Option<int>)
      modifies this
      ensures var indexes := Get(old(replacementIndexesDict), selectedSuggestion);
              && (indexes.None? ==> cursorTo.None? && value == old(value) && shouldShowDropdown == old(shouldShowDropdown))
              && (indexes.Some? ==>
                    && value == Splice(old(value), selectedSuggestion, indexes.value)
                    && !shouldShowDropdown
                    && cursorTo == Some(indexes.value.from + indexes.value.length))
      ensures inputString == old(inputString) && cursorPosition == old(cursorPosition)
      ensures replacementIndexesDict == old(replacementIndexesDict) && suggestions == old(suggestions)
    {
      cursorTo := None;
      var indexes := Get(replacementIndexesDict, selectedSuggestion);
      if indexes.Some? {
        var from, length := indexes.value.from, indexes.value.length;
        var to := from + length;
        value := Substring(value, 0, from) + selectedSuggestion + Substring(value, to, |value|);
        shouldShowDropdown := false;
        cursorTo := Some(to);
      }
    }

    /** The clear icon empties the text only while the path is invalid. */
    method HandleInputEditorClear(pathIsValid: bool)
      modifies this
      ensures value == if pathIsValid then old(value) else ""
      ensures inputString == old(inputString) && cursorPosition == old(cursorPosition) && shouldShowDropdown == old(shouldShowDropdown)
      ensures replacementIndexesDict == old(replacementIndexesDict) && suggestions == old(suggestions)
    {
      if !pathIsValid {
        value := "";
      }
    }
  }
}
