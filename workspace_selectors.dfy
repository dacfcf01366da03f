// The workspace store's derived values (store/ducks/workspace/selectors.ts): file sizes
// printed with thousands separators, the rows of the file list, and the empty-page test.
module WorkspaceSelectors {
  import opened Results
  import opened Records
  import opened JsStrings

  // ---------------------------------------------------------------------------------
  // numberWithCommas
  // ---------------------------------------------------------------------------------

  /**
   * Where `/\B(?=(\d{3})+(?!\d))/g` matches in a string of `n` digits: strictly inside
   * the string (a word boundary holds at both ends) and followed by a whole number of
   * three-digit groups up to the end.
   */
  predicate CommaBefore(n: nat, p: nat)
  {
    0 < p < n && (n - p) % 3 == 0
  }

  /** The replacement from position `i` on: a comma before each matching position. */
  function InsertCommasFrom(digits: string, i: nat): string
    requires i <= |digits|
    decreases |digits| - i
  {
    if i == |digits| then []
    else (if CommaBefore(|digits|, i) then [','] else []) + [digits[i]] + InsertCommasFrom(digits, i + 1)
  }

  /** `numberWithCommas(x)` for a non-negative integer `x`. */
  function NumberWithCommas(x: nat): string
  {
    InsertCommasFrom(NatToString(x), 0)
  }

  /** The string with every comma removed. */
  function StripCommas(s: string): (r: string)
    ensures ',' !in r
  {
    if s == [] then [] else (if s[0] == ',' then [] else [s[0]]) + StripCommas(s[1..])
  }

  /**
   * The grouping the separator is meant to produce, as an independent definition: the
   * last three digits form a group, and the digits before them are grouped the same way.
   */
  function Grouped(digits: string): string
    decreases |digits|
  {
    if |digits| <= 3 then digits else Grouped(digits[..|digits| - 3]) + [','] + digits[|digits| - 3..]
  }

  /** A first group of one to three characters, then groups of exactly three, each after a comma. */
  predicate WellGrouped(s: string)
    decreases |s|
  {
    if ',' !in s then 1 <= |s| <= 3
    else |s| >= 4 && s[|s| - 4] == ',' && ',' !in s[|s| - 3..] && WellGrouped(s[..|s| - 4])
  }

  lemma {:induction false} StripInsertCommas(digits: string, i: nat)
    requires i <= |digits| && ',' !in digits
    ensures StripCommas(InsertCommasFrom(digits, i)) == digits[i..]
    decreases |digits| - i
  {
    if i < |digits| {
      StripInsertCommas(digits, i + 1);
      var rest := InsertCommasFrom(digits, i + 1);
      assert digits[i] != ',';
      assert StripCommas([digits[i]] + rest) == [digits[i]] + StripCommas(rest) by {
        assert ([digits[i]] + rest)[1..] == rest;
      }
      if CommaBefore(|digits|, i) {
        assert ([','] + [digits[i]] + rest)[1..] == [digits[i]] + rest;
      }
      assert digits[i..] == [digits[i]] + digits[i + 1..];
    }
  }

  /** Without a position for a comma, the digits are left as they are. */
  lemma {:induction false} ShortHasNoComma(digits: string, i: nat)
    requires i <= |digits| <= 3
    ensures InsertCommasFrom(digits, i) == digits[i..]
    decreases |digits| - i
  {
    if i < |digits| {
      ShortHasNoComma(digits, i + 1);
      assert digits[i..] == [digits[i]] + digits[i + 1..];
    }
  }

  /** The last three digits: a comma before them and none among them. */
  lemma LastGroup(digits: string)
    requires |digits| > 3
    ensures InsertCommasFrom(digits, |digits| - 3) == [','] + digits[|digits| - 3..]
  {
    var n := |digits|;
    assert InsertCommasFrom(digits, n) == [];
    assert !CommaBefore(n, n - 1) by { assert n - (n - 1) == 1; }
    assert !CommaBefore(n, n - 2) by { assert n - (n - 2) == 2; }
    assert CommaBefore(n, n - 3) by { assert n - (n - 3) == 3; }
    assert InsertCommasFrom(digits, n - 1) == [digits[n - 1]];
    assert InsertCommasFrom(digits, n - 2) == [digits[n - 2], digits[n - 1]];
    assert digits[n - 3..] == [digits[n - 3], digits[n - 2], digits[n - 1]];
  }

  /** Splitting off the last three digits: the comma before them, the rest grouped as before. */
  lemma {:induction false} InsertCommasSplit(digits: string, i: nat)
    requires |digits| > 3 && i <= |digits| - 3
    ensures InsertCommasFrom(digits, i)
            == InsertCommasFrom(digits[..|digits| - 3], i) + [','] + digits[|digits| - 3..]
    decreases |digits| - i
  {
    var n := |digits|;
    var front := digits[..n - 3];
    var last := digits[n - 3..];
    if i == n - 3 {
      LastGroup(digits);
      assert InsertCommasFrom(front, i) == [];
    } else {
      InsertCommasSplit(digits, i + 1);
      var comma: string := if CommaBefore(n, i) then [','] else [];
      assert CommaBefore(n, i) == CommaBefore(|front|, i) by {
        assert n - i == (|front| - i) + 3;
      }
      var tail := InsertCommasFrom(front, i + 1);
      assert InsertCommasFrom(digits, i) == comma + [digits[i]] + (tail + [','] + last);
      assert InsertCommasFrom(front, i) == comma + [front[i]] + tail;
      assert digits[i] == front[i];
    }
  }

  /** The regular expression inserts exactly the commas of the grouping. */
  lemma {:induction false} InsertCommasIsGrouped(digits: string)
    ensures InsertCommasFrom(digits, 0) == Grouped(digits)
    decreases |digits|
  {
    if |digits| <= 3 {
      ShortHasNoComma(digits, 0);
    } else {
      InsertCommasSplit(digits, 0);
      InsertCommasIsGrouped(digits[..|digits| - 3]);
    }
  }

  lemma {:induction false} GroupedIsWellGrouped(digits: string)
    requires 1 <= |digits| && ',' !in digits
    ensures WellGrouped(Grouped(digits))
    decreases |digits|
  {
    if |digits| > 3 {
      var front := digits[..|digits| - 3];
      var last := digits[|digits| - 3..];
      assert forall c :: c in front ==> c in digits;
      assert forall c :: c in last ==> c in digits;
      GroupedIsWellGrouped(front);
      var g := Grouped(digits);
      assert g == Grouped(front) + [','] + last;
      assert ',' in g by { assert g[|g| - 4] == ','; }
      assert g[..|g| - 4] == Grouped(front);
      assert g[|g| - 3..] == last;
    }
  }

  /** The decimal string of a number below 100 has at most two digits, and from 100 on at least three. */
  lemma NatToStringThreeDigits(x: nat)
    ensures x >= 100 <==> |NatToString(x)| >= 3
  {
    if x >= 10 {
      assert NatToString(x) == NatToString(x / 10) + [DigitChar(x % 10)];
    }
  }

  lemma NatToStringFourDigits(x: nat)
    ensures x >= 1000 <==> |NatToString(x)| >= 4
  {
    if x >= 10 {
      assert NatToString(x) == NatToString(x / 10) + [DigitChar(x % 10)];
      NatToStringThreeDigits(x / 10);
    }
  }

  /**
   * `numberWithCommas`: removing the commas gives the decimal string; the first group has
   * one to three digits and every later one three; there is a comma exactly from 1000 on.
   */
  lemma NumberWithCommasSpec(x: nat)
    ensures StripCommas(NumberWithCommas(x)) == NatToString(x)
    ensures WellGrouped(NumberWithCommas(x))
    ensures ',' in NumberWithCommas(x) <==> x >= 1000
    ensures x < 1000 ==> NumberWithCommas(x) == NatToString(x)
  {
    var digits := NatToString(x);
    assert ',' !in digits by {
      forall i | 0 <= i < |digits| ensures digits[i] != ',' {
      }
    }
    StripInsertCommas(digits, 0);
    InsertCommasIsGrouped(digits);
    GroupedIsWellGrouped(digits);
    NatToStringFourDigits(x);
    if |digits| <= 3 {
      ShortHasNoComma(digits, 0);
    } else {
      var g := Grouped(digits);
      assert g == Grouped(digits[..|digits| - 3]) + [','] + digits[|digits| - 3..];
      assert g[|g| - 4] == ',';
    }
  }

  // ---------------------------------------------------------------------------------
  // filesListSelector
  // ---------------------------------------------------------------------------------

  /** A field of a file-list row: text, or a number of bytes. */
  datatype FileField = Text(text: string) | Bytes(count: nat)

  /**
   * A file of the project's resources: its name, modification time and size, and any
   * further fields the server sends, in order.
   */
  datatype FileItem = FileItem(name: string, modified: string, size: nat, extra: Record<FileField>)

  /** The item as an object: its three known fields, then the others. */
  function ItemFields(item: FileItem): Record<FileField>
  {
    [("name", Text(item.name)), ("modified", Text(item.modified)), ("size", Bytes(item.size))] + item.extra
  }

  /**
   * One row of the file list: `id`, `formattedDate` and `formattedSize` first, then the
   * item's own fields spread over them. `formatDate` is the locale's date formatting.
   */
  function FileRow(item: FileItem, formatDate: string -> string): Record<FileField>
  {
    var computed := [("id", Text(item.name)),
                     ("formattedDate", Text(formatDate(item.modified))),
                     ("formattedSize", Text(NumberWithCommas(item.size)))];
    PutAll(computed, ItemFields(item))
  }

  /** `filesListSelector`: one row per file, in order. */
  function FilesList(files: seq<FileItem>, formatDate: string -> string): (rows: seq<Record<FileField>>)
    ensures |rows| == |files|
    ensures forall i :: 0 <= i < |files| ==> rows[i] == FileRow(files[i], formatDate)
  {
    seq(|files|, i requires 0 <= i < |files| => FileRow(files[i], formatDate))
  }

  /**
   * Every field of a row: the item's own value where the item has that field, otherwise
   * the computed one; the item's fields are spread last and win.
   */
  lemma FileRowFields(item: FileItem, formatDate: string -> string, k: string)
    ensures var own := ItemFields(item);
      Get(FileRow(item, formatDate), k)
      == (if HasKey(own, k) then LastGet(own, k)
          else if k == "id" then Some(Text(item.name))
          else if k == "formattedDate" then Some(Text(formatDate(item.modified)))
          else if k == "formattedSize" then Some(Text(NumberWithCommas(item.size)))
          else None)
  {
    var own := ItemFields(item);
    var computed := [("id", Text(item.name)),
                     ("formattedDate", Text(formatDate(item.modified))),
                     ("formattedSize", Text(NumberWithCommas(item.size)))];
    GetPutAll(computed, own, k);
    var c1: (string, FileField) := computed[1];
    var c2: (string, FileField) := computed[2];
    assert computed[1..] == [c1, c2];
    assert [c1, c2][1..] == [c2];
    assert Get([c2], k) == if k == "formattedSize" then Some(c2.1) else None;
    assert Get([c1, c2], k) == if k == "formattedDate" then Some(c1.1) else Get([c2], k);
  }

  /**
   * Unless the server sends fields of those names, a row's `id` is the file name and its
   * `formattedSize` the size with thousands separators.
   */
  lemma FileRowDefaults(item: FileItem, formatDate: string -> string)
    ensures !HasKey(item.extra, "id") ==> Get(FileRow(item, formatDate), "id") == Some(Text(item.name))
    ensures !HasKey(item.extra, "formattedSize") ==>
      Get(FileRow(item, formatDate), "formattedSize") == Some(Text(NumberWithCommas(item.size)))
  {
    var own := ItemFields(item);
    forall key | key == "id" || key == "formattedSize"
      ensures HasKey(own, key) ==> HasKey(item.extra, key)
    {
      if HasKey(own, key) {
        var j :| 0 <= j < |own| && own[j].0 == key;
        assert j >= 3;
        assert item.extra[j - 3] == own[j];
      }
    }
    FileRowFields(item, formatDate, "id");
    FileRowFields(item, formatDate, "formattedSize");
  }

  // ---------------------------------------------------------------------------------
  // isEmptyPageSelector and the projections
  // ---------------------------------------------------------------------------------

  /** The parts of the store the workspace page reads. */
  datatype Preview<R> = Preview(isLoading: bool, searchResults: seq<R>)

  datatype InitialSettings = InitialSettings(emptyWorkspace: bool)

  datatype WorkspaceStore<R> = WorkspaceStore(preview: Preview<R>, initialSettings: InitialSettings)

  /** `isEmptyPageSelector`. */
  function IsEmptyPage<R>(store: WorkspaceStore<R>): bool
  {
    !store.preview.isLoading && |store.preview.searchResults| == 0 && store.initialSettings.emptyWorkspace
  }

  /**
   * The empty-workspace page is shown exactly when no search is loading, the last one
   * found nothing and the server reported an empty workspace; a loading search or a
   * single result never shows it.
   */
  lemma IsEmptyPageSpec<R>(store: WorkspaceStore<R>, r: R)
    ensures IsEmptyPage(store) <==>
      !store.preview.isLoading && store.preview.searchResults == [] && store.initialSettings.emptyWorkspace
    ensures !IsEmptyPage(store.(preview := Preview(store.preview.isLoading, [r])))
    ensures !IsEmptyPage(store.(preview := store.preview.(isLoading := true)))
  {
  }
}
