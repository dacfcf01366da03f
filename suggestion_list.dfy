// The table of mapping suggestions (HierarchicalMapping/containers/SuggestionNew/SuggestionList.tsx):
// each source row offers target candidates of which one is selected; the user selects rows,
// filters and sorts columns, swaps the source and target columns, and adds the selected rows
// as mapping rules. Filtering, sorting and paging are helpers of their own and are passed in.
module SuggestionList {
  import opened Results
  import opened Records

  const TypeError := "TypeError"

  /** A target proposed for a source; `selected` and `autogenerated` are the table's own marks. */
  datatype Candidate = Candidate(
    uri: string,
    candidateLabel: string,
    description: string,
    candidateType: string,
    confidence: real,
    link: string,
    selected: bool,
    autogenerated: bool)

  /** A row: a source with its candidates. */
  datatype Suggestion = Suggestion(source: string, candidates: seq<Candidate>)

  datatype TableHeader = TableHeader(header: Option<string>, key: string)

  datatype Pagination = Pagination(page: int, pageSize: int)

  datatype SortDirection = SortDirection(column: string, modifier: string)

  /**
   * The imported helpers `filterRowsByColumnModifier`, `sortRows` and `paginate`, whose code
   * is not part of this model.
   */
  datatype TableOps = TableOps(
    filterRows: (Record<string>, seq<Option<string>>, seq<Suggestion>) -> seq<Suggestion>,
    sortRows: (seq<Suggestion>, SortDirection) -> seq<Suggestion>,
    paginate: (seq<Suggestion>, Pagination) -> seq<Suggestion>)

  /** The column headers the table starts with: source, swap button, target, mapping type. */
  const InitialHeaders: seq<TableHeader> := [
    TableHeader(Some("Source data"), "source"),
    TableHeader(None, "SWAP_BUTTON"),
    TableHeader(Some("Target data"), "target"),
    TableHeader(Some("Mapping type"), "type")]

  /** The candidate standing for a property generated from a dataset source. */
  function AutoCandidate(selected: bool): (c: Candidate)
    ensures c.uri == "" && c.candidateType == "value" && c.autogenerated && c.selected == selected
  {
    Candidate("", "Auto-generated property", "Property will generated after submit", "value", 1.0,
              "https://dummy.url", selected, true)
  }

  /** `find(t => t._selected)`. */
  function FirstSelected(candidates: seq<Candidate>): (r: Option<Candidate>)
    ensures r.Some? <==> exists i :: 0 <= i < |candidates| && candidates[i].selected
    ensures r.Some? ==> r.value in candidates && r.value.selected
  {
    if candidates == [] then None
    else if candidates[0].selected then Some(candidates[0])
    else FirstSelected(candidates[1..])
  }

  predicate SameTarget(a: Candidate, b: Candidate)
  {
    a.uri == b.uri && a.candidateLabel == b.candidateLabel && a.description == b.description
    && a.confidence == b.confidence && a.link == b.link
  }

  /** The type remembered for a target (`targetToTypeMap[uri] || type`). */
  function RememberedType(targetToType: Record<string>, c: Candidate): string
  {
    var t := Get(targetToType, c.uri);
    if t.Some? && t.value != "" then t.value else c.candidateType
  }

  /** A candidate of a selected source: its remembered type, selected iff it is the remembered target. */
  function Remembered(c: Candidate, source: string, sourceToTarget: Record<string>, targetToType: Record<string>): Candidate
  {
    Candidate(c.uri, c.candidateLabel, c.description, RememberedType(targetToType, c), c.confidence, c.link,
              Get(sourceToTarget, source) == Some(c.uri), false)
  }

  /**
   * The candidates with every mark cleared; for a selected source each one instead takes its
   * remembered type and is selected iff it is the remembered target.
   */
  function KeptCandidates(row: Suggestion, selectedSources: seq<Option<string>>, sourceToTarget: Record<string>,
                          targetToType: Record<string>): (r: seq<Candidate>)
    ensures |r| == |row.candidates|
    ensures Some(row.source) !in selectedSources ==>
      forall i :: 0 <= i < |r| ==> r[i] == row.candidates[i].(selected := false)
    ensures Some(row.source) in selectedSources ==>
      forall i :: 0 <= i < |r| ==> r[i] == Remembered(row.candidates[i], row.source, sourceToTarget, targetToType)
  {
    var base := seq(|row.candidates|, i requires 0 <= i < |row.candidates| => row.candidates[i].(selected := false));
    if Some(row.source) in selectedSources
    then seq(|base|, i requires 0 <= i < |base| => Remembered(base[i], row.source, sourceToTarget, targetToType))
    else base
  }

  /** A dataset source gets the generated candidate, preselected when it is the only one. */
  function WithGenerated(kept: seq<Candidate>, isFromDataset: bool): seq<Candidate>
  {
    if isFromDataset then kept + [AutoCandidate(|kept| == 0)] else kept
  }

  /**
   * `candidates[0]._selected = true` when nothing is selected; with no candidate at all that
   * dereferences a missing element.
   */
  function SelectFallback(all: seq<Candidate>): Result<seq<Candidate>, string>
  {
    if FirstSelected(all).Some? then Ok(all)
    else if all == [] then Err(TypeError)
    else Ok(all[0 := all[0].(selected := true)])
  }

  /** The candidates differ at most in their selection mark. */
  predicate SameButSelection(a: Candidate, b: Candidate)
  {
    SameTarget(a, b) && a.candidateType == b.candidateType && a.autogenerated == b.autogenerated
  }

  /**
   * The fallback fails only on an empty list; otherwise something is selected afterwards, an
   * existing selection is kept as it is, and without one exactly the first candidate is selected.
   */
  lemma SelectFallbackSpec(all: seq<Candidate>)
    ensures SelectFallback(all).Err? <==> all == []
    ensures SelectFallback(all).Ok? ==>
      var r := SelectFallback(all).value;
      && |r| == |all|
      && (exists i :: 0 <= i < |r| && r[i].selected)
      && (forall i :: 0 <= i < |r| ==> SameButSelection(r[i], all[i]))
      && (FirstSelected(all).Some? ==> r == all)
      && (FirstSelected(all).None? ==> forall i :: 0 <= i < |r| ==> (r[i].selected <==> i == 0))
  {
    if FirstSelected(all).None? && all != [] {
      var r := all[0 := all[0].(selected := true)];
      assert r[0].selected;
    }
  }

  /**
   * The row as the table shows it: every candidate unselected, the remembered choice
   * restored for a selected source, the generated candidate appended for a dataset source,
   * and the first candidate selected when nothing else is.
   */
  function InitRow(row: Suggestion, selectedSources: seq<Option<string>>, sourceToTarget: Record<string>,
                   targetToType: Record<string>, isFromDataset: bool): Result<Suggestion, string>
  {
    var all := WithGenerated(KeptCandidates(row, selectedSources, sourceToTarget, targetToType), isFromDataset);
    match SelectFallback(all)
    case Err(e) => Err(e)
    case Ok(candidates) => Ok(Suggestion(row.source, candidates))
  }

  predicate AnySelected(row: Suggestion)
  {
    exists i :: 0 <= i < |row.candidates| && row.candidates[i].selected
  }

  /**
   * Row initialisation fails only for a row without candidates outside a dataset; otherwise
   * the row keeps its source and targets, a dataset row gets one generated candidate (uri '',
   * type 'value'), preselected exactly when the row had no candidates, and at least one
   * candidate is selected.
   */
  lemma InitRowShape(row: Suggestion, selectedSources: seq<Option<string>>, sourceToTarget: Record<string>,
                     targetToType: Record<string>, isFromDataset: bool)
    ensures var r := InitRow(row, selectedSources, sourceToTarget, targetToType, isFromDataset);
            && (r.Err? <==> row.candidates == [] && !isFromDataset)
            && (r.Ok? ==> r.value.source == row.source && AnySelected(r.value))
            && (r.Ok? ==> |r.value.candidates| == |row.candidates| + (if isFromDataset then 1 else 0))
            && (r.Ok? ==> forall i :: 0 <= i < |row.candidates| ==> SameTarget(r.value.candidates[i], row.candidates[i]))
            && (r.Ok? && isFromDataset ==> r.value.candidates[|row.candidates|] == AutoCandidate(row.candidates == []))
  {
    var kept := KeptCandidates(row, selectedSources, sourceToTarget, targetToType);
    var all := WithGenerated(kept, isFromDataset);
    SelectFallbackSpec(all);
    if isFromDataset && row.candidates == [] {
      assert all[0].selected;
    }
  }

  /**
   * A source that is not selected starts with its first candidate selected and the others
   * not, each with its own type.
   */
  lemma InitRowUnselectedSource(row: Suggestion, selectedSources: seq<Option<string>>, sourceToTarget: Record<string>,
                                targetToType: Record<string>, isFromDataset: bool)
    requires Some(row.source) !in selectedSources
    ensures var r := InitRow(row, selectedSources, sourceToTarget, targetToType, isFromDataset);
            r.Ok? ==> forall i :: 0 <= i < |row.candidates| ==>
              && (r.value.candidates[i].selected <==> i == 0)
              && r.value.candidates[i].candidateType == row.candidates[i].candidateType
  {
    var kept := KeptCandidates(row, selectedSources, sourceToTarget, targetToType);
    var all := WithGenerated(kept, isFromDataset);
    SelectFallbackSpec(all);
    if row.candidates != [] {
      assert forall i :: 0 <= i < |all| ==> !all[i].selected;
    }
  }

  /**
   * A selected source takes the remembered type of each candidate, and when its remembered
   * target is still among the candidates, exactly that target is selected.
   */
  lemma InitRowSelectedSource(row: Suggestion, selectedSources: seq<Option<string>>, sourceToTarget: Record<string>,
                              targetToType: Record<string>, isFromDataset: bool)
    requires Some(row.source) in selectedSources
    ensures var r := InitRow(row, selectedSources, sourceToTarget, targetToType, isFromDataset);
            && (r.Ok? ==> forall i :: 0 <= i < |row.candidates| ==>
                  r.value.candidates[i].candidateType == RememberedType(targetToType, row.candidates[i]))
            && (r.Ok? && (exists j :: 0 <= j < |row.candidates| && Get(sourceToTarget, row.source) == Some(row.candidates[j].uri)) ==>
                  forall i :: 0 <= i < |row.candidates| ==>
                    (r.value.candidates[i].selected <==> Get(sourceToTarget, row.source) == Some(row.candidates[i].uri)))
  {
    var kept := KeptCandidates(row, selectedSources, sourceToTarget, targetToType);
    var all := WithGenerated(kept, isFromDataset);
    SelectFallbackSpec(all);
    if exists j :: 0 <= j < |row.candidates| && Get(sourceToTarget, row.source) == Some(row.candidates[j].uri) {
      var j :| 0 <= j < |row.candidates| && Get(sourceToTarget, row.source) == Some(row.candidates[j].uri);
      assert all[j].selected;
    }
  }

  /** The entries of a selection other than `source`, in order (`filter(selected => selected !== source)`). */
  function RemoveSource(selected: seq<Option<string>>, source: string): (r: seq<Option<string>>)
    ensures |r| <= |selected|
    ensures forall x :: x in r <==> x in selected && x != Some(source)
  {
    if selected == [] then []
    else (if selected[0] == Some(source) then [] else [selected[0]]) + RemoveSource(selected[1..], source)
  }

  /**
   * `updateRelations`: the source now maps to its selected candidate and that candidate's
   * uri to its type; without a selected candidate the destructuring fails.
   */
  function UpdateRelations(sourceToTarget: Record<string>, targetToType: Record<string>, source: string,
                           candidates: seq<Candidate>): (r: Result<(Record<string>, Record<string>), string>)
  {
    match FirstSelected(candidates)
    case None => Err(TypeError)
    case Some(c) => Ok((Put(sourceToTarget, source, c.uri), Put(targetToType, c.uri, c.candidateType)))
  }

  /**
   * Both maps gain exactly the selected candidate's pair and keep their other keys and their
   * unique keys; the update fails exactly when no candidate is selected.
   */
  lemma UpdateRelationsSpec(sourceToTarget: Record<string>, targetToType: Record<string>, source: string,
                            candidates: seq<Candidate>)
    requires UniqueKeys(sourceToTarget) && UniqueKeys(targetToType)
    ensures var r := UpdateRelations(sourceToTarget, targetToType, source, candidates);
            && (r.Err? <==> forall i :: 0 <= i < |candidates| ==> !candidates[i].selected)
            && (r.Ok? ==>
                  var c := FirstSelected(candidates).value;
                  && UniqueKeys(r.value.0) && UniqueKeys(r.value.1)
                  && Get(r.value.0, source) == Some(c.uri)
                  && Get(r.value.1, c.uri) == Some(c.candidateType)
                  && (forall k :: k != source ==> Get(r.value.0, k) == Get(sourceToTarget, k))
                  && (forall k :: k != c.uri ==> Get(r.value.1, k) == Get(targetToType, k)))
  {
    var f := FirstSelected(candidates);
    if f.Some? {
      var c := f.value;
      PutUnique(sourceToTarget, source, c.uri);
      PutUnique(targetToType, c.uri, c.candidateType);
      forall k ensures Get(Put(sourceToTarget, source, c.uri), k) == if k == source then Some(c.uri) else Get(sourceToTarget, k) {
        GetPut(sourceToTarget, source, c.uri, k);
      }
      forall k ensures Get(Put(targetToType, c.uri, c.candidateType), k) == if k == c.uri then Some(c.candidateType) else Get(targetToType, k) {
        GetPut(targetToType, c.uri, c.candidateType, k);
      }
    }
  }

  /** The relations after `updateRelations` on each row in turn, stopping at the first failure. */
  datatype Relating = Relating(sourceToTarget: Record<string>, targetToType: Record<string>, related: nat, faulted: bool)

  function RelateAll(sourceToTarget: Record<string>, targetToType: Record<string>, rows: seq<Suggestion>): (r: Relating)
    ensures r.related <= |rows|
    ensures !r.faulted ==> r.related == |rows|
    ensures r.faulted ==> r.related < |rows|
    decreases |rows|
  {
    if rows == [] then Relating(sourceToTarget, targetToType, 0, false)
    else match UpdateRelations(sourceToTarget, targetToType, rows[0].source, rows[0].candidates)
      case Err(_) => Relating(sourceToTarget, targetToType, 0, true)
      case Ok(maps) =>
        var rest := RelateAll(maps.0, maps.1, rows[1..]);
        rest.(related := rest.related + 1)
  }

  /**
   * Relating rows fails exactly when one of them has no selected candidate, at the first such
   * row; otherwise every row's source and its selected target are recorded, and keys stay unique.
   */
  lemma {:induction false} RelateAllSpec(sourceToTarget: Record<string>, targetToType: Record<string>, rows: seq<Suggestion>)
    requires UniqueKeys(sourceToTarget) && UniqueKeys(targetToType)
    ensures var r := RelateAll(sourceToTarget, targetToType, rows);
            && UniqueKeys(r.sourceToTarget) && UniqueKeys(r.targetToType)
            && (r.faulted <==> exists i :: 0 <= i < |rows| && !AnySelected(rows[i]))
            && (r.faulted ==> !AnySelected(rows[r.related]) && forall i :: 0 <= i < r.related ==> AnySelected(rows[i]))
            && (!r.faulted ==> forall i :: 0 <= i < |rows| ==>
                  HasKey(r.sourceToTarget, rows[i].source)
                  && HasKey(r.targetToType, FirstSelected(rows[i].candidates).value.uri))
    decreases |rows|
  {
    if rows != [] {
      UpdateRelationsSpec(sourceToTarget, targetToType, rows[0].source, rows[0].candidates);
      var u := UpdateRelations(sourceToTarget, targetToType, rows[0].source, rows[0].candidates);
      if u.Ok? {
        var a := u.value.0;
        var b := u.value.1;
        RelateAllSpec(a, b, rows[1..]);
        var rest := RelateAll(a, b, rows[1..]);
        assert forall i :: 1 <= i < |rows| ==> rows[i] == rows[1..][i - 1];
        if !rest.faulted {
          var c := FirstSelected(rows[0].candidates).value;
          RelationsKept(a, b, rows[1..], rows[0].source, c.uri);
        }
      }
    }
  }

  /** Relating more rows never loses a key. */
  lemma {:induction false} RelationsKept(sourceToTarget: Record<string>, targetToType: Record<string>, rows: seq<Suggestion>,
                                         source: string, target: string)
    requires HasKey(sourceToTarget, source) && HasKey(targetToType, target)
    requires !RelateAll(sourceToTarget, targetToType, rows).faulted
    ensures HasKey(RelateAll(sourceToTarget, targetToType, rows).sourceToTarget, source)
    ensures HasKey(RelateAll(sourceToTarget, targetToType, rows).targetToType, target)
    decreases |rows|
  {
    if rows != [] {
      var c := FirstSelected(rows[0].candidates).value;
      GetPut(sourceToTarget, rows[0].source, c.uri, source);
      GetPut(targetToType, c.uri, c.candidateType, target);
      RelationsKept(Put(sourceToTarget, rows[0].source, c.uri), Put(targetToType, c.uri, c.candidateType), rows[1..], source, target);
    }
  }

  /** The selection entries for the given rows' sources, in order. */
  function Sources(rows: seq<Suggestion>): (r: seq<Option<string>>)
    ensures |r| == |rows| && forall i :: 0 <= i < |rows| ==> r[i] == Some(rows[i].source)
  {
    seq(|rows|, i requires 0 <= i < |rows| => Some(rows[i].source))
  }

  /** The first row of a source (`allRows.find(row => row.source === source)`). */
  function FindRow(rows: seq<Suggestion>, source: string): (r: Option<Suggestion>)
    ensures r.Some? <==> exists i :: 0 <= i < |rows| && rows[i].source == source
    ensures r.Some? ==> r.value in rows && r.value.source == source
  {
    if rows == [] then None else if rows[0].source == source then Some(rows[0]) else FindRow(rows[1..], source)
  }

  /** The position of the first row of a source (`findIndex`). */
  function FindRowIndex(rows: seq<Suggestion>, source: string): (r: Option<nat>)
    ensures r.Some? ==> r.value < |rows| && rows[r.value].source == source
                        && forall i :: 0 <= i < r.value ==> rows[i].source != source
    ensures r.None? ==> forall i :: 0 <= i < |rows| ==> rows[i].source != source
  {
    if rows == [] then None
    else if rows[0].source == source then Some(0)
    else match FindRowIndex(rows[1..], source)
      case None => None
      case Some(i) => Some(i + 1)
  }

  /** One step of `RelateAll` from row `i` on. */
  lemma RelateAllUnfold(sourceToTarget: Record<string>, targetToType: Record<string>, rows: seq<Suggestion>, i: nat)
    requires i < |rows|
    ensures var u := UpdateRelations(sourceToTarget, targetToType, rows[i].source, rows[i].candidates);
            && (u.Err? ==> RelateAll(sourceToTarget, targetToType, rows[i..]) == Relating(sourceToTarget, targetToType, 0, true))
            && (u.Ok? ==> var r := RelateAll(u.value.0, u.value.1, rows[i + 1..]);
                          RelateAll(sourceToTarget, targetToType, rows[i..]) == r.(related := r.related + 1))
  {
    assert rows[i..][0] == rows[i] && rows[i..][1..] == rows[i + 1..];
  }

  lemma SourcesSnoc(rows: seq<Suggestion>, i: nat)
    requires i < |rows|
    ensures Sources(rows[..i + 1]) == Sources(rows[..i]) + [Some(rows[i].source)]
  {
    assert rows[..i + 1] == rows[..i] + [rows[i]];
  }

  /**
   * The non-clearing branches of `toggleSelectAll`, on the page's rows: each row's target is
   * recorded in turn, stopping at a row without a selected candidate. From an empty selection
   * each row is toggled, so its source is appended before its target is recorded; from any
   * other selection the page's sources replace it once every row has been recorded.
   */
  method SelectRows(rows: seq<Suggestion>, selected: seq<Option<string>>, sourceToTarget: Record<string>,
                    targetToType: Record<string>)
    returns (newSelected: seq<Option<string>>, newSourceToTarget: Record<string>, newTargetToType: Record<string>,
             fault: Option<string>)
    requires UniqueKeys(sourceToTarget) && UniqueKeys(targetToType)
    ensures var r := RelateAll(sourceToTarget, targetToType, rows);
            && (fault.Some? <==> r.faulted)
            && newSourceToTarget == r.sourceToTarget && newTargetToType == r.targetToType
            && (!r.faulted ==> newSelected == Sources(rows))
            && (r.faulted && selected == [] ==> newSelected == Sources(rows[..r.related + 1]))
            && (r.faulted && selected != [] ==> newSelected == selected)
    ensures UniqueKeys(newSourceToTarget) && UniqueKeys(newTargetToType)
  {
    var fromEmpty := |selected| == 0;
    newSelected, newSourceToTarget, newTargetToType := selected, sourceToTarget, targetToType;
    var i := 0;
    fault := None;
    while i < |rows| && fault.None?
      invariant 0 <= i <= |rows|
      invariant UniqueKeys(newSourceToTarget) && UniqueKeys(newTargetToType)
      invariant fault.None? ==> var r := RelateAll(newSourceToTarget, newTargetToType, rows[i..]);
                RelateAll(sourceToTarget, targetToType, rows) == r.(related := r.related + i)
      invariant fault.Some? ==> var r := RelateAll(sourceToTarget, targetToType, rows);
                r.faulted && r.related + 1 == i && r.sourceToTarget == newSourceToTarget && r.targetToType == newTargetToType
      invariant fromEmpty ==> newSelected == Sources(rows[..i])
      invariant !fromEmpty ==> newSelected == selected
    {
      if fromEmpty {
        SourcesSnoc(rows, i);
        newSelected := newSelected + [Some(rows[i].source)];
      }
      UpdateRelationsSpec(newSourceToTarget, newTargetToType, rows[i].source, rows[i].candidates);
      var u := UpdateRelations(newSourceToTarget, newTargetToType, rows[i].source, rows[i].candidates);
      RelateAllUnfold(newSourceToTarget, newTargetToType, rows, i);
      if u.Err? {
        fault := Some(u.error);
      } else {
        newSourceToTarget, newTargetToType := u.value.0, u.value.1;
      }
      i := i + 1;
    }
    if fault.None? {
      assert rows[..i] == rows;
      newSelected := Sources(rows);
    }
  }

  /** One rule to add: the source with its selected target's uri and type. */
  datatype Added = Added(source: string, targetUri: string, targetType: string)

  /**
   * The rows `handleAdd` builds: for each selected source its row's selected candidate, or
   * `undefined` (None) when the source has no row; a row without a selected candidate fails.
   */
  function AddedRows(selected: seq<Option<string>>, allRows: seq<Suggestion>): (r: Result<seq<Option<Added>>, string>)
    ensures r.Ok? ==> |r.value| == |selected|
  {
    if selected == [] then Ok([])
    else
      var head: Result<Option<Added>, string> :=
        if selected[0].None? then Ok(None)
        else match FindRow(allRows, selected[0].value)
          case None => Ok(None)
          case Some(row) =>
            match FirstSelected(row.candidates)
            case None => Err(TypeError)
            case Some(c) => Ok(Some(Added(selected[0].value, c.uri, c.candidateType)));
      if head.Err? then Err(head.error)
      else match AddedRows(selected[1..], allRows)
        case Err(e) => Err(e)
        case Ok(rest) => Ok([head.value] + rest)
  }

  /** Each added row is the selected candidate of its source's first row, or missing when the source has none. */
  lemma {:induction false} AddedRowsSpec(selected: seq<Option<string>>, allRows: seq<Suggestion>)
    ensures var r := AddedRows(selected, allRows);
            && (r.Err? <==> exists i :: 0 <= i < |selected| && selected[i].Some?
                              && FindRow(allRows, selected[i].value).Some?
                              && !AnySelected(FindRow(allRows, selected[i].value).value))
            && (r.Ok? ==> forall i :: 0 <= i < |selected| ==>
                  (r.value[i].Some? <==> selected[i].Some? && FindRow(allRows, selected[i].value).Some?)
                  && (r.value[i].Some? ==>
                        var c := FirstSelected(FindRow(allRows, selected[i].value).value.candidates).value;
                        r.value[i].value == Added(selected[i].value, c.uri, c.candidateType)))
    decreases |selected|
  {
    if selected != [] {
      AddedRowsSpec(selected[1..], allRows);
      assert forall i :: 1 <= i < |selected| ==> selected[i] == selected[1..][i - 1];
    }
  }

  /**
   * `addedRows.some(row => row.targetUri === '')`, scanning in order: a missing row fails
   * when it is reached before a generated target.
   */
  function AutogeneratedPresent(added: seq<Option<Added>>): Result<bool, string>
  {
    if added == [] then Ok(false)
    else if added[0].None? then Err(TypeError)
    else if added[0].value.targetUri == "" then Ok(true)
    else AutogeneratedPresent(added[1..])
  }

  /**
   * The scan finds a generated target exactly when one comes before any missing row, and
   * answers "none" only when every row is there with a real target.
   */
  lemma {:induction false} AutogeneratedPresentSpec(added: seq<Option<Added>>)
    ensures AutogeneratedPresent(added) == Ok(true) <==>
      exists i :: 0 <= i < |added| && added[i].Some? && added[i].value.targetUri == ""
                  && forall j :: 0 <= j < i ==> added[j].Some?
    ensures AutogeneratedPresent(added) == Ok(false) <==>
      forall i :: 0 <= i < |added| ==> added[i].Some? && added[i].value.targetUri != ""
    decreases |added|
  {
    if added != [] {
      AutogeneratedPresentSpec(added[1..]);
      assert forall i :: 1 <= i < |added| ==> added[i] == added[1..][i - 1];
      if AutogeneratedPresent(added) == Ok(true) && added[0].Some? && added[0].value.targetUri != "" {
        var i :| 0 <= i < |added[1..]| && added[1..][i].Some? && added[1..][i].value.targetUri == ""
                 && forall j :: 0 <= j < i ==> added[1..][j].Some?;
        assert added[i + 1] == added[1..][i];
      }
    }
  }

  /** What adding does: open the prefix dialog, or hand the rows and the prefix to `onAdd`. */
  datatype AddOutcome = PrefixDialog | AddCall(added: seq<Option<Added>>, prefix: Option<string>)

  predicate Given(prefix: Option<string>)
  {
    prefix.Some? && prefix.value != ""
  }

  /** `handleAdd`: a generated target needs a prefix first, so without one the dialog opens. */
  function AddOutcomeOf(selected: seq<Option<string>>, allRows: seq<Suggestion>, prefix: Option<string>): Result<AddOutcome, string>
  {
    match AddedRows(selected, allRows)
    case Err(e) => Err(e)
    case Ok(added) =>
      match AutogeneratedPresent(added)
      case Err(e) => Err(e)
      case Ok(generated) => if generated && !Given(prefix) then Ok(PrefixDialog) else Ok(AddCall(added, prefix))
  }

  /**
   * The prefix dialog opens instead of adding exactly when some selected source's target is
   * generated and no prefix was given; with a prefix, or without generated targets, `onAdd`
   * receives every selected row.
   */
  lemma HandleAddSpec(selected: seq<Option<string>>, allRows: seq<Suggestion>, prefix: Option<string>)
    ensures var o := AddOutcomeOf(selected, allRows, prefix);
            && (o == Ok(PrefixDialog) <==>
                  AddedRows(selected, allRows).Ok? && AutogeneratedPresent(AddedRows(selected, allRows).value) == Ok(true)
                  && !Given(prefix))
            && (o.Ok? && o.value.AddCall? ==>
                  o.value.added == AddedRows(selected, allRows).value && |o.value.added| == |selected|
                  && o.value.prefix == prefix
                  && (!Given(prefix) ==> forall i :: 0 <= i < |selected| ==>
                        o.value.added[i].Some? && o.value.added[i].value.targetUri != ""))
  {
    var a := AddedRows(selected, allRows);
    if a.Ok? {
      AutogeneratedPresentSpec(a.value);
    }
  }

  /**
   * `handleSwap`'s test, scanning the selection in order: a source whose row's selected
   * candidate is generated answers yes; a row without a selected candidate fails.
   */
  function AutogeneratedSelected(selected: seq<Option<string>>, allRows: seq<Suggestion>): Result<bool, string>
  {
    if selected == [] then Ok(false)
    else
      var head := SourceGenerated(selected[0], allRows);
      if head.Err? || head.value then head else AutogeneratedSelected(selected[1..], allRows)
  }

  /**
   * The test for one selected source: no for `undefined` or a source without a row; otherwise
   * whether the row's selected candidate is generated, failing when there is none.
   */
  function SourceGenerated(source: Option<string>, allRows: seq<Suggestion>): Result<bool, string>
  {
    if source.None? then Ok(false)
    else match FindRow(allRows, source.value)
      case None => Ok(false)
      case Some(row) =>
        match FirstSelected(row.candidates)
        case None => Err(TypeError)
        case Some(c) => Ok(c.autogenerated)
  }

  /**
   * The scan answers no exactly when every source answers no; otherwise it answers what the
   * first source that does not answer no answers (yes, or the failure).
   */
  lemma {:induction false} AutogeneratedSelectedSpec(selected: seq<Option<string>>, allRows: seq<Suggestion>)
    ensures var r := AutogeneratedSelected(selected, allRows);
            && (r == Ok(false) <==> forall i :: 0 <= i < |selected| ==> SourceGenerated(selected[i], allRows) == Ok(false))
            && (r != Ok(false) ==> exists i :: 0 <= i < |selected| && r == SourceGenerated(selected[i], allRows)
                                    && forall j :: 0 <= j < i ==> SourceGenerated(selected[j], allRows) == Ok(false))
    decreases |selected|
  {
    if selected != [] {
      var rest := selected[1..];
      AutogeneratedSelectedSpec(rest, allRows);
      assert forall i :: 1 <= i < |selected| ==> selected[i] == rest[i - 1];
      var r := AutogeneratedSelected(selected, allRows);
      if r != Ok(false) {
        var head := SourceGenerated(selected[0], allRows);
        if head.Err? || head.value {
          assert r == SourceGenerated(selected[0], allRows);
        } else {
          var k :| 0 <= k < |rest| && AutogeneratedSelected(rest, allRows) == SourceGenerated(rest[k], allRows)
                   && forall j :: 0 <= j < k ==> SourceGenerated(rest[j], allRows) == Ok(false);
          assert r == SourceGenerated(selected[k + 1], allRows);
          assert forall j :: 0 <= j < k + 1 ==> SourceGenerated(selected[j], allRows) == Ok(false) by {
            forall j | 0 <= j < k + 1 ensures SourceGenerated(selected[j], allRows) == Ok(false) {
              if j > 0 { assert selected[j] == rest[j - 1]; }
            }
          }
        }
      }
    }
  }

  /** The selection after a swap: each source replaced by its selected target, `undefined` without a row. */
  function TargetsAsSelected(selected: seq<Option<string>>, allRows: seq<Suggestion>): (r: Result<seq<Option<string>>, string>)
    ensures r.Ok? ==> |r.value| == |selected|
  {
    match AddedRows(selected, allRows)
    case Err(e) => Err(e)
    case Ok(added) => Ok(seq(|added|, i requires 0 <= i < |added| => if added[i].Some? then Some(added[i].value.targetUri) else None))
  }

  /** `_.invert(m)`: values become keys; a later key wins a shared value. */
  function Invert(m: Record<string>): Record<string>
  {
    FromEntries(Swapped(m))
  }

  function Swapped(m: Record<string>): (r: Record<string>)
    ensures |r| == |m| && forall i :: 0 <= i < |m| ==> r[i] == (m[i].1, m[i].0)
  {
    seq(|m|, i requires 0 <= i < |m| => (m[i].1, m[i].0))
  }

  /** The inverse maps every value of `m` to a key holding it, and maps nothing else. */
  lemma InvertSpec(m: Record<string>)
    requires UniqueKeys(m)
    ensures forall v, k :: Get(Invert(m), v) == Some(k) ==> Get(m, k) == Some(v)
    ensures forall i :: 0 <= i < |m| ==> HasKey(Invert(m), m[i].1)
  {
    forall v, k | Get(Invert(m), v) == Some(k) ensures Get(m, k) == Some(v) {
      GetPutAll([], Swapped(m), v);
      LastGetIn(Swapped(m), v);
      var i :| 0 <= i < |m| && Swapped(m)[i] == (v, k);
      GetAt(m, i);
    }
    forall i | 0 <= i < |m| ensures HasKey(Invert(m), m[i].1) {
      assert Swapped(m)[i].0 == m[i].1;
      HasKeyPutAll([], Swapped(m), m[i].1);
    }
  }

  predicate DistinctValues(m: Record<string>)
  {
    forall i, j :: 0 <= i < j < |m| ==> m[i].1 != m[j].1
  }

  /**
   * When every source has its own target, swapping twice gives the original map back: the
   * inverse of the inverse is the map itself, entries and order.
   */
  lemma InvertInvolution(m: Record<string>)
    requires UniqueKeys(m) && DistinctValues(m)
    ensures Invert(Invert(m)) == m
  {
    FromEntriesUnique(Swapped(m));
    assert Invert(m) == Swapped(m);
    FromEntriesUnique(Swapped(Swapped(m)));
    assert Swapped(Swapped(m)) == m;
  }

  /** `targetToSource[key]` used as a property name: a target without a source becomes "undefined". */
  function SourceKey(targetToSource: Record<string>, target: string): string
  {
    match Get(targetToSource, target)
    case Some(s) => s
    case None => "undefined"
  }

  /** The type map re-keyed by source: each target's type is filed under that target's source. */
  function ReKey(targetToType: Record<string>, targetToSource: Record<string>): Record<string>
  {
    FromEntries(seq(|targetToType|, i requires 0 <= i < |targetToType| =>
      (SourceKey(targetToSource, targetToType[i].0), targetToType[i].1)))
  }

  /**
   * Every target's type is found under its source afterwards, and every type under a source
   * is the type of a target of that source.
   */
  lemma ReKeySpec(targetToType: Record<string>, targetToSource: Record<string>)
    ensures forall i :: 0 <= i < |targetToType| ==>
      HasKey(ReKey(targetToType, targetToSource), SourceKey(targetToSource, targetToType[i].0))
    ensures forall s, ty :: Get(ReKey(targetToType, targetToSource), s) == Some(ty) ==>
      exists i :: 0 <= i < |targetToType| && targetToType[i].1 == ty && SourceKey(targetToSource, targetToType[i].0) == s
  {
    var es := seq(|targetToType|, i requires 0 <= i < |targetToType| =>
      (SourceKey(targetToSource, targetToType[i].0), targetToType[i].1));
    forall i | 0 <= i < |targetToType|
      ensures HasKey(ReKey(targetToType, targetToSource), SourceKey(targetToSource, targetToType[i].0))
    {
      assert es[i].0 == SourceKey(targetToSource, targetToType[i].0);
      HasKeyPutAll([], es, es[i].0);
    }
    forall s, ty | Get(ReKey(targetToType, targetToSource), s) == Some(ty)
      ensures exists i :: 0 <= i < |targetToType| && targetToType[i].1 == ty && SourceKey(targetToSource, targetToType[i].0) == s
    {
      GetPutAll([], es, s);
      LastGetIn(es, s);
      var i :| 0 <= i < |es| && es[i] == (s, ty);
      assert targetToType[i].1 == ty && SourceKey(targetToSource, targetToType[i].0) == s;
    }
  }

  /** Both swapped maps are plain objects again: each key once. */
  lemma SwapKeepsUnique(sourceToTarget: Record<string>, targetToType: Record<string>)
    ensures UniqueKeys(Invert(sourceToTarget))
    ensures UniqueKeys(ReKey(targetToType, Invert(sourceToTarget)))
  {
    var targetToSource := Invert(sourceToTarget);
    PutAllUnique([], Swapped(sourceToTarget));
    PutAllUnique([], seq(|targetToType|, i requires 0 <= i < |targetToType| =>
      (SourceKey(targetToSource, targetToType[i].0), targetToType[i].1)));
  }

  /** `handleFilterColumn`'s new filters: the same action again removes the column's filter. */
  function ToggledFilter(columnFilters: Record<string>, columnName: string, action: string): Record<string>
  {
    if Get(columnFilters, columnName) == Some(action) then Delete(columnFilters, columnName)
    else Put(columnFilters, columnName, action)
  }

  /** The column's filter is removed when it was this action and set to it otherwise; no other column changes. */
  lemma ToggledFilterSpec(columnFilters: Record<string>, columnName: string, action: string)
    requires UniqueKeys(columnFilters)
    ensures UniqueKeys(ToggledFilter(columnFilters, columnName, action))
    ensures Get(ToggledFilter(columnFilters, columnName, action), columnName)
            == if Get(columnFilters, columnName) == Some(action) then None else Some(action)
    ensures forall k :: k != columnName ==>
      Get(ToggledFilter(columnFilters, columnName, action), k) == Get(columnFilters, k)
  {
    if Get(columnFilters, columnName) == Some(action) {
      DeleteUnique(columnFilters, columnName);
      forall k ensures Get(Delete(columnFilters, columnName), k) == if k == columnName then None else Get(columnFilters, k) {
        GetDelete(columnFilters, columnName, k);
      }
    } else {
      PutUnique(columnFilters, columnName, action);
      forall k ensures Get(Put(columnFilters, columnName, action), k) == if k == columnName then Some(action) else Get(columnFilters, k) {
        GetPut(columnFilters, columnName, action, k);
      }
    }
  }

  /** Applying the same action twice to a column without a filter leaves every column's filter as it was. */
  lemma ToggledFilterTwice(columnFilters: Record<string>, columnName: string, action: string)
    requires UniqueKeys(columnFilters) && Get(columnFilters, columnName).None?
    ensures forall k :: Get(ToggledFilter(ToggledFilter(columnFilters, columnName, action), columnName, action), k)
                        == Get(columnFilters, k)
  {
    ToggledFilterSpec(columnFilters, columnName, action);
    ToggledFilterSpec(ToggledFilter(columnFilters, columnName, action), columnName, action);
  }

  /** `handleSort`: ascending becomes descending, anything else ascending, for the given column. */
  function NextSort(current: SortDirection, headerKey: string): (r: SortDirection)
    ensures r.column == headerKey
    ensures r.modifier == "desc" <==> current.modifier == "asc"
    ensures r.modifier == "asc" <==> current.modifier != "asc"
  {
    SortDirection(headerKey, if current.modifier == "asc" then "desc" else "asc")
  }

  /** Sorting the same column twice from an ascending order comes back to ascending. */
  lemma NextSortTwice(current: SortDirection, headerKey: string)
    ensures NextSort(NextSort(current, headerKey), headerKey).modifier == (if current.modifier == "asc" then "asc" else "desc")
  {
  }

  /** The headers with the source and the target column exchanged. */
  function SwappedHeaders(headers: seq<TableHeader>): (r: seq<TableHeader>)
    requires |headers| == 4
    ensures |r| == 4 && r[0] == headers[2] && r[1] == headers[1] && r[2] == headers[0] && r[3] == headers[3]
    ensures multiset(r) == multiset(headers)
  {
    assert headers == [headers[0], headers[1], headers[2], headers[3]];
    [headers[2], headers[1], headers[0], headers[3]]
  }

  /** Everything the table keeps besides its headers. */
  datatype ListState = ListState(
    allRows: seq<Suggestion>,
    pageRows: seq<Suggestion>,
    filteredRows: seq<Suggestion>,
    pagination: Pagination,
    selectedSources: seq<Option<string>>,
    sourceToTargetMap: Record<string>,
    targetToTypeMap: Record<string>,
    sortDirections: SortDirection,
    columnFilters: Record<string>,
    warningDialog: bool,
    prefixModal: bool)

  /** `handleConfirmSwap`'s new state, given the selection's targets. */
  function ConfirmedSwap(st: ListState, targets: seq<Option<string>>): ListState
  {
    var targetToSource := Invert(st.sourceToTargetMap);
    st.(selectedSources := targets, pageRows := [], sourceToTargetMap := targetToSource,
        targetToTypeMap := ReKey(st.targetToTypeMap, targetToSource), warningDialog := false)
  }

  class SuggestionTable {
    const isFromDataset: bool
    const ops: TableOps
    /** The column headers, exchanged in place by a swap. */
    const headers: array<TableHeader>
    var allRows: seq<Suggestion>
    var pageRows: seq<Suggestion>
    var filteredRows: seq<Suggestion>
    var pagination: Pagination
    /** The selected sources; an entry is None where a swap found no row (`undefined`). */
    var selectedSources: seq<Option<string>>
    var sourceToTargetMap: Record<string>
    var targetToTypeMap: Record<string>
    var sortDirections: SortDirection
    var columnFilters: Record<string>
    var warningDialog: bool
    var prefixModal: bool

    /** Four headers, and the three maps are plain objects: each key once. */
    predicate Valid()
      reads this
    {
      headers.Length == 4 && UniqueKeys(sourceToTargetMap) && UniqueKeys(targetToTypeMap) && UniqueKeys(columnFilters)
    }

    function State(): ListState
      reads this
    {
      ListState(allRows, pageRows, filteredRows, pagination, selectedSources, sourceToTargetMap, targetToTypeMap,
                sortDirections, columnFilters, warningDialog, prefixModal)
    }

    constructor (isFromDataset: bool, ops: TableOps)
      ensures Valid() && fresh(headers) && headers[..] == InitialHeaders
      ensures this.isFromDataset == isFromDataset && this.ops == ops
      ensures State() == ListState([], [], [], Pagination(1, 25), [], [], [], SortDirection("", ""), [], false, false)
    {
      this.isFromDataset := isFromDataset;
      this.ops := ops;
      headers := new TableHeader[4](i requires 0 <= i < 4 => InitialHeaders[i]);
      allRows, pageRows, filteredRows := [], [], [];
      pagination := Pagination(1, 25);
      selectedSources := [];
      sourceToTargetMap, targetToTypeMap := [], [];
      sortDirections := SortDirection("", "");
      columnFilters := [];
      warningDialog, prefixModal := false, false;
      new;
      assert headers[..] == InitialHeaders;
    }

    /**
     * The effect on new `rows`: every row initialised, then filtered, sorted and paged with
     * the current settings. A row that cannot be initialised aborts the effect with nothing
     * stored.
     */
    method InitRows(rows: seq<Suggestion>) returns (fault: Option<string>)
      modifies this
      ensures fault.None? <==> forall j :: 0 <= j < |rows| ==>
        InitRow(rows[j], old(selectedSources), old(sourceToTargetMap), old(targetToTypeMap), isFromDataset).Ok?
      ensures fault.None? ==>
        && |allRows| == |rows|
        && (forall j :: 0 <= j < |rows| ==>
              allRows[j] == InitRow(rows[j], selectedSources, sourceToTargetMap, targetToTypeMap, isFromDataset).value)
        && State() == old(State()).(allRows := allRows,
                                    filteredRows := ops.filterRows(columnFilters, selectedSources, allRows),
                                    pageRows := ops.paginate(ops.sortRows(ops.filterRows(columnFilters, selectedSources, allRows), sortDirections), pagination))
      ensures fault.Some? ==> State() == old(State())
    {
      var selected, toTarget, toType, fromDataset := selectedSources, sourceToTargetMap, targetToTypeMap, isFromDataset;
      var arr: seq<Suggestion> := [];
      var i := 0;
      while i < |rows|
        invariant 0 <= i <= |rows| && |arr| == i
        invariant forall j :: 0 <= j < i ==>
          InitRow(rows[j], selected, toTarget, toType, fromDataset).Ok?
          && arr[j] == InitRow(rows[j], selected, toTarget, toType, fromDataset).value
      {
        var r := InitRow(rows[i], selected, toTarget, toType, fromDataset);
        if r.Err? {
          return Some(r.error);
        }
        arr := arr + [r.value];
        i := i + 1;
      }
      allRows := arr;
      var filtered := ops.filterRows(columnFilters, selectedSources, arr);
      filteredRows := filtered;
      pageRows := ops.paginate(ops.sortRows(filtered, sortDirections), pagination);
      fault := None;
    }

    /**
     * `toggleRowSelect`: a selected source is deselected (every entry of it removed); any
     * other is appended and its selected target recorded. The lookup is `find`, so the empty
     * source counts as unselected. Without a selected candidate the recording fails after the
     * selection has changed.
     */
    method ToggleRowSelect(row: Suggestion) returns (fault: Option<string>)
      requires Valid()
      modifies this
      ensures Valid()
      ensures row.source != "" && Some(row.source) in old(selectedSources) ==>
        fault.None? && State() == old(State()).(selectedSources := RemoveSource(old(selectedSources), row.source))
      ensures !(row.source != "" && Some(row.source) in old(selectedSources)) ==>
        var u := UpdateRelations(old(sourceToTargetMap), old(targetToTypeMap), row.source, row.candidates);
        && selectedSources == old(selectedSources) + [Some(row.source)]
        && (u.Ok? ==> fault.None? && State() == old(State()).(selectedSources := selectedSources,
                                                             sourceToTargetMap := u.value.0, targetToTypeMap := u.value.1))
        && (u.Err? ==> fault.Some? && State() == old(State()).(selectedSources := selectedSources))
      ensures fault.None? && row.source != "" ==>
        (Some(row.source) in selectedSources <==> Some(row.source) !in old(selectedSources))
    {
      fault := None;
      if row.source != "" && Some(row.source) in selectedSources {
        selectedSources := RemoveSource(selectedSources, row.source);
      } else {
        selectedSources := selectedSources + [Some(row.source)];
        UpdateRelationsSpec(sourceToTargetMap, targetToTypeMap, row.source, row.candidates);
        var u := UpdateRelations(sourceToTargetMap, targetToTypeMap, row.source, row.candidates);
        if u.Err? {
          return Some(u.error);
        }
        sourceToTargetMap, targetToTypeMap := u.value.0, u.value.1;
      }
    }

    /** `isAllSelected`. */
    predicate AllSelected()
      reads this
    {
      |filteredRows| > 0 && |pageRows| == |selectedSources|
    }

    /**
     * `toggleSelectAll`: with everything selected the selection is cleared; otherwise each page
     * row's target is recorded in turn and the page's sources become the selection. From an
     * empty selection the rows are toggled one by one, so a failing row leaves the rows up to
     * it selected; otherwise the selection is replaced only once every row has been recorded.
     */
    method ToggleSelectAll() returns (fault: Option<string>)
      requires Valid()
      modifies this
      ensures Valid()
      ensures old(AllSelected()) ==> fault.None? && State() == old(State()).(selectedSources := [])
      ensures !old(AllSelected()) ==>
        var r := RelateAll(old(sourceToTargetMap), old(targetToTypeMap), old(pageRows));
        && (fault.Some? <==> r.faulted)
        && sourceToTargetMap == r.sourceToTarget && targetToTypeMap == r.targetToType
        && (!r.faulted ==> selectedSources == Sources(old(pageRows)))
        && (r.faulted && old(selectedSources) == [] ==> selectedSources == Sources(old(pageRows)[..r.related + 1]))
        && (r.faulted && old(selectedSources) != [] ==> selectedSources == old(selectedSources))
        && State() == old(State()).(selectedSources := selectedSources, sourceToTargetMap := sourceToTargetMap,
                                    targetToTypeMap := targetToTypeMap)
    {
      if AllSelected() {
        selectedSources := [];
        return None;
      }
      var sel, toTarget, toType;
      sel, toTarget, toType, fault := SelectRows(pageRows, selectedSources, sourceToTargetMap, targetToTypeMap);
      selectedSources, sourceToTargetMap, targetToTypeMap := sel, toTarget, toType;
    }

    /** `handlePageChange`: the new page of the filtered rows. */
    method HandlePageChange(newPagination: Pagination)
      modifies this
      ensures State() == old(State()).(pagination := newPagination, pageRows := ops.paginate(old(filteredRows), newPagination))
    {
      pagination := newPagination;
      pageRows := ops.paginate(filteredRows, newPagination);
    }

    /**
     * `handleAdd`: the prefix dialog opens when generated targets need a prefix; otherwise
     * the rows go to `onAdd` and nothing here changes.
     */
    method HandleAdd(prefix: Option<string>) returns (outcome: Result<AddOutcome, string>)
      modifies this
      ensures outcome == AddOutcomeOf(old(selectedSources), old(allRows), prefix)
      ensures State() == old(State()).(prefixModal := outcome == Ok(PrefixDialog) || old(prefixModal))
    {
      outcome := AddOutcomeOf(selectedSources, allRows, prefix);
      if outcome == Ok(PrefixDialog) {
        prefixModal := true;
      }
    }

    /** `handleSort`: the next direction for the column, and the page of the filtered rows sorted so. */
    method HandleSort(headerKey: string)
      modifies this
      ensures sortDirections == NextSort(old(sortDirections), headerKey)
      ensures State() == old(State()).(sortDirections := sortDirections,
                                       pageRows := ops.paginate(ops.sortRows(old(filteredRows), sortDirections), old(pagination)))
    {
      var direction := if sortDirections.modifier == "asc" then "desc" else "asc";
      var sortDirection := SortDirection(headerKey, direction);
      sortDirections := sortDirection;
      pageRows := ops.paginate(ops.sortRows(filteredRows, sortDirection), pagination);
    }

    /**
     * `handleFilterColumn`: the column's filter toggled, then all rows filtered again and the
     * first pages of them (unsorted) shown.
     */
    method HandleFilterColumn(columnName: string, action: string)
      requires Valid()
      modifies this
      ensures Valid()
      ensures columnFilters == ToggledFilter(old(columnFilters), columnName, action)
      ensures Get(columnFilters, columnName) == if Get(old(columnFilters), columnName) == Some(action) then None else Some(action)
      ensures forall k :: k != columnName ==> Get(columnFilters, k) == Get(old(columnFilters), k)
      ensures State() == old(State()).(columnFilters := columnFilters,
                                       filteredRows := ops.filterRows(columnFilters, old(selectedSources), old(allRows)),
                                       pageRows := ops.paginate(ops.filterRows(columnFilters, old(selectedSources), old(allRows)), old(pagination)))
    {
      ToggledFilterSpec(columnFilters, columnName, action);
      var colFilters := ToggledFilter(columnFilters, columnName, action);
      columnFilters := colFilters;
      var filtered := ops.filterRows(colFilters, selectedSources, allRows);
      pageRows := ops.paginate(filtered, pagination);
      filteredRows := filtered;
    }

    /**
     * `handleConfirmSwap`: the selection becomes the selected targets, the page is emptied,
     * source→target is inverted, target→type re-keyed by source, the source and target
     * headers exchanged in place, and the warning closed. A selected row without a selected
     * candidate aborts it with nothing changed.
     */
    method HandleConfirmSwap() returns (fault: Option<string>)
      requires Valid()
      modifies this, headers
      ensures Valid()
      ensures var targets := TargetsAsSelected(old(selectedSources), old(allRows));
              && (targets.Err? ==> fault.Some? && State() == old(State()) && headers[..] == old(headers[..]))
              && (targets.Ok? ==> fault.None? && State() == ConfirmedSwap(old(State()), targets.value)
                                  && headers[..] == SwappedHeaders(old(headers[..])))
    {
      var targets := TargetsAsSelected(selectedSources, allRows);
      if targets.Err? {
        return Some(targets.error);
      }
      SwapKeepsUnique(sourceToTargetMap, targetToTypeMap);
      var next := ConfirmedSwap(State(), targets.value);
      selectedSources, pageRows, warningDialog := next.selectedSources, next.pageRows, next.warningDialog;
      sourceToTargetMap, targetToTypeMap := next.sourceToTargetMap, next.targetToTypeMap;
      assert State() == next;
      SwapHeaders();
      fault := None;
    }

    /** Exchanges the source and the target header in place. */
    method SwapHeaders()
      requires headers.Length == 4
      modifies headers
      ensures headers[..] == SwappedHeaders(old(headers[..]))
    {
      headers[0], headers[2] := headers[2], headers[0];
    }

    /**
     * `handleSwap`: a selected generated target opens the warning instead; otherwise the swap
     * is confirmed at once.
     */
    method HandleSwap() returns (fault: Option<string>)
      requires Valid()
      modifies this, headers
      ensures Valid()
      ensures var generated := AutogeneratedSelected(old(selectedSources), old(allRows));
              var targets := TargetsAsSelected(old(selectedSources), old(allRows));
              && (generated.Err? ==> fault.Some? && State() == old(State()) && headers[..] == old(headers[..]))
              && (generated == Ok(true) ==> fault.None? && State() == old(State()).(warningDialog := true)
                                            && headers[..] == old(headers[..]))
              && (generated == Ok(false) && targets.Ok? ==>
                    fault.None? && State() == ConfirmedSwap(old(State()), targets.value)
                    && headers[..] == SwappedHeaders(old(headers[..])))
              && (generated == Ok(false) && targets.Err? ==> fault.Some? && State() == old(State()))
    {
      var generated := AutogeneratedSelected(selectedSources, allRows);
      if generated.Err? {
        return Some(generated.error);
      }
      if generated.value {
        warningDialog := true;
        return None;
      }
      fault := HandleConfirmSwap();
    }

    /**
     * `handleModifyTarget`: the source's row gets the new candidates and their selected target
     * is recorded; a source without a row changes nothing, and new candidates without a
     * selected one fail before anything changes.
     */
    method HandleModifyTarget(row: Suggestion, targets: seq<Candidate>) returns (fault: Option<string>)
      requires Valid()
      modifies this
      ensures Valid()
      ensures var ind := FindRowIndex(old(allRows), row.source);
              var u := UpdateRelations(old(sourceToTargetMap), old(targetToTypeMap), row.source, targets);
              && (ind.None? ==> fault.None? && State() == old(State()))
              && (ind.Some? && u.Err? ==> fault.Some? && State() == old(State()))
              && (ind.Some? && u.Ok? ==>
                    fault.None? && State() == old(State()).(
                      allRows := old(allRows)[ind.value := old(allRows)[ind.value].(candidates := targets)],
                      sourceToTargetMap := u.value.0, targetToTypeMap := u.value.1))
    {
      fault := None;
      var ind := FindRowIndex(allRows, row.source);
      if ind.Some? {
        UpdateRelationsSpec(sourceToTargetMap, targetToTypeMap, row.source, targets);
        var u := UpdateRelations(sourceToTargetMap, targetToTypeMap, row.source, targets);
        if u.Err? {
          return Some(u.error);
        }
        sourceToTargetMap, targetToTypeMap := u.value.0, u.value.1;
        allRows := allRows[ind.value := allRows[ind.value].(candidates := targets)];
      }
    }
  }
}
