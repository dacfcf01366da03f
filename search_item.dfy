// One entry of the workspace search list (pages/Workspace/SearchList/SearchItem.tsx): the
// icons of its links, the context-menu links, and the older highlighting of the label
// that renders marked matches as `<mark>` markup.
module SearchItem {
  import opened Results
  import opened JsStrings
  import opened Highlighter

  /** `getItemLinkIcons`: the icon of a link, for the three link labels that have one. */
  function ItemLinkIcon(linkLabel: string): (r: Option<string>)
  {
    match linkLabel
    case "Mapping editor" => Some("application-mapping")
    case "Transform evaluation" => Some("item-evaluation")
    case "Transform execution" => Some("item-execution")
    case _ => None
  }

  /** Only the mapping editor and the transform evaluation and execution links get an icon, and no two share one. */
  lemma ItemLinkIconSpec(linkLabel: string, other: string)
    ensures ItemLinkIcon(linkLabel).Some? <==>
      linkLabel == "Mapping editor" || linkLabel == "Transform evaluation" || linkLabel == "Transform execution"
    ensures ItemLinkIcon(linkLabel).Some? && ItemLinkIcon(linkLabel) == ItemLinkIcon(other) ==> linkLabel == other
  {
  }

  datatype ItemLink = ItemLink(linkLabel: string, path: string)

  datatype MenuEntry = MenuEntry(text: string, href: string, icon: Option<string>)

  /** The context-menu entries: every link but the first, which is the details page, in order. */
  function ContextMenuItems(itemLinks: seq<ItemLink>): (r: seq<MenuEntry>)
    ensures |r| == if itemLinks == [] then 0 else |itemLinks| - 1
    ensures forall i :: 0 <= i < |r| ==>
      r[i] == MenuEntry(itemLinks[i + 1].linkLabel, itemLinks[i + 1].path, ItemLinkIcon(itemLinks[i + 1].linkLabel))
  {
    var rest := Slice(itemLinks, 1, |itemLinks|);
    assert itemLinks != [] ==> rest == itemLinks[1..];
    seq(|rest|, i requires 0 <= i < |rest| => MenuEntry(rest[i].linkLabel, rest[i].path, ItemLinkIcon(rest[i].linkLabel)))
  }

  /** The "Show details" button and its target: the first link, when there is one. */
  function DetailsPath(itemLinks: seq<ItemLink>): Option<string>
  {
    if itemLinks == [] then None else Some(itemLinks[0].path)
  }

  /** The details button and the context menu together offer every link exactly once, in order. */
  lemma LinksOfferedOnce(itemLinks: seq<ItemLink>)
    ensures var menu := ContextMenuItems(itemLinks);
      && (DetailsPath(itemLinks).None? <==> itemLinks == [])
      && (itemLinks != [] ==>
            [DetailsPath(itemLinks).value] + seq(|menu|, i requires 0 <= i < |menu| => menu[i].href)
            == seq(|itemLinks|, i requires 0 <= i < |itemLinks| => itemLinks[i].path))
  {
  }

  // ---------------------------------------------------------------------------------
  // getSearchHighlight, markup variant
  // ---------------------------------------------------------------------------------

  /** How one part is rendered: unmatched text as it stands, a match lower-cased inside `<mark>`. */
  function RenderPart(segment: Segment): string
  {
    match segment
    case Plain(text) => text
    case Marked(text) => "<mark>" + ToLower(text) + "</mark>"
  }

  function RenderParts(segments: seq<Segment>): (r: seq<string>)
    ensures |r| == |segments|
    ensures forall i :: 0 <= i < |segments| ==> r[i] == RenderPart(segments[i])
  {
    seq(|segments|, i requires 0 <= i < |segments| => RenderPart(segments[i]))
  }

  /** `result.join('')`. */
  function Concat(parts: seq<string>): string
  {
    if parts == [] then "" else parts[0] + Concat(parts[1..])
  }

  /**
   * The words as the source splits them: `searchValue.split(/\s+/)` with no filter, so a
   * leading or trailing space leaves an empty word in the alternation.
   */
  function SplitWords(searchValue: string): seq<string>
  {
    SplitWhitespace(searchValue)
  }

  /** A query starting with whitespace splits into an empty first word. */
  lemma LeadingSpaceGivesEmptyWord(searchValue: string)
    requires searchValue != [] && IsWhitespace(searchValue[0])
    ensures SplitWords(searchValue)[0] == ""
  {
  }

  /**
   * As written, an empty alternative matches at every position, so `exec` never returns
   * null and the loop never leaves: from any offset the next match is found.
   */
  lemma EmptyWordNeverExhausts(lower: string, patterns: seq<string>, offset: nat)
    requires "" in patterns && offset <= |lower|
    ensures NextMatch(lower, patterns, offset).Some?
  {
    var k :| 0 <= k < |patterns| && patterns[k] == "";
    assert WordMatchesAt(lower, patterns[k], offset);
    FirstWordAtSpec(lower, patterns, offset);
  }

  /**
   * The query " a" as written: its first word is empty, so at every offset the match is
   * the empty one at that offset, `lastIndex` stays where it is and the same match is
   * found again.
   */
  lemma LeadingSpaceStalls(labelText: string, offset: nat)
    requires offset <= |labelText|
    ensures SplitWords(" a") == ["", "a"]
    ensures NextMatch(ToLower(labelText), Patterns(SplitWords(" a")), offset) == Some(Match(offset, 0))
  {
    assert WhitespaceFrom(" a", 0) == 0;
    assert NonWhitespaceFrom(" a", 0) == 1;
    assert " a"[1..] == "a";
    assert WhitespaceFrom("a", 0) == 1;
    assert SplitWhitespace("a") == ["a"];
    assert SplitWords(" a") == [" a"[..0]] + ["a"];
    var patterns := Patterns(["", "a"]);
    assert patterns[0] == "";
    assert WordMatchesAt(ToLower(labelText), patterns[0], offset);
  }

  /**
   * The strings the match loop pushes from `offset` on: for each match found in `lower`
   * the slice of the label before it and the matched text of `lower` inside `<mark>`,
   * then the rest of the label.
   */
  function MarkupParts(labelText: string, lower: string, patterns: seq<string>, offset: nat): seq<string>
    requires |lower| == |labelText| && offset <= |labelText| && AllNonEmpty(patterns)
    decreases |labelText| - offset
  {
    match NextMatch(lower, patterns, offset)
    case None => [labelText[offset..]]
    case Some(m) =>
      [labelText[offset..m.index], "<mark>" + lower[m.index..m.index + m.length] + "</mark>"]
      + MarkupParts(labelText, lower, patterns, m.index + m.length)
  }

  /** On the lower-cased label, the pushed strings are the highlighting parts rendered one by one. */
  lemma {:induction false} MarkupPartsRender(labelText: string, patterns: seq<string>, offset: nat)
    requires offset <= |labelText| && AllNonEmpty(patterns)
    ensures MarkupParts(labelText, ToLower(labelText), patterns, offset)
            == RenderParts(Segments(labelText, ToLower(labelText), patterns, offset))
    decreases |labelText| - offset
  {
    var lower := ToLower(labelText);
    match NextMatch(lower, patterns, offset)
    case None =>
    case Some(m) =>
      var next := m.index + m.length;
      MarkupPartsRender(labelText, patterns, next);
      var head := [Plain(labelText[offset..m.index]), Marked(labelText[m.index..next])];
      var rest := Segments(labelText, lower, patterns, next);
      assert Segments(labelText, lower, patterns, offset) == head + rest;
      assert RenderParts(head + rest) == RenderParts(head) + RenderParts(rest);
      ToLowerSlice(labelText, m.index, next);
  }

  /**
   * The markup `getSearchHighlight` returns once empty words are left out of the
   * alternation: the label itself for an empty query or one without words, otherwise
   * the pushed strings joined.
   */
  function Markup(labelText: string, searchValue: string): string
  {
    if searchValue == [] || SearchWords(searchValue) == [] then labelText
    else Concat(MarkupParts(labelText, ToLower(labelText), Patterns(SearchWords(searchValue)), 0))
  }

  /**
   * `getSearchHighlight` with the empty words dropped: the match loop runs on the
   * lower-cased label, pushes slices of the original label and lower-cased marked
   * matches, and joins them.
   */
  method GetSearchHighlight(labelText: string, searchValue: string) returns (r: string)
    ensures r == Markup(labelText, searchValue)
  {
    if searchValue == [] {
      return labelText;
    }
    var searchStringParts := SearchWords(searchValue);
    if searchStringParts == [] {
      return labelText;
    }
    var lowerCaseLabel := ToLower(labelText);
    var multiWordRegex := Patterns(searchStringParts);
    ghost var total := MarkupParts(labelText, lowerCaseLabel, multiWordRegex, 0);
    var result: seq<string> := [];
    var offset := 0;
    var matchArray := NextMatch(lowerCaseLabel, multiWordRegex, offset);
    while matchArray.Some?
      invariant offset <= |labelText|
      invariant matchArray == NextMatch(lowerCaseLabel, multiWordRegex, offset)
      invariant result + MarkupParts(labelText, lowerCaseLabel, multiWordRegex, offset) == total
      decreases |labelText| - offset
    {
      var m := matchArray.value;
      MarkupPushMatch(labelText, lowerCaseLabel, multiWordRegex, offset, m, result, total);
      result := result + [labelText[offset..m.index], "<mark>" + lowerCaseLabel[m.index..m.index + m.length] + "</mark>"];
      offset := m.index + m.length;
      matchArray := NextMatch(lowerCaseLabel, multiWordRegex, offset);
    }
    MarkupPushRest(labelText, lowerCaseLabel, multiWordRegex, offset, result, total);
    result := result + [labelText[offset..]];
    return Concat(result);
  }

  /** One turn of the match loop keeps the pushed strings a prefix of all of them. */
  lemma MarkupPushMatch(labelText: string, lower: string, patterns: seq<string>, offset: nat, m: Match,
                        result: seq<string>, total: seq<string>)
    requires |lower| == |labelText| && offset <= |labelText| && AllNonEmpty(patterns)
    requires NextMatch(lower, patterns, offset) == Some(m)
    requires result + MarkupParts(labelText, lower, patterns, offset) == total
    ensures result + [labelText[offset..m.index], "<mark>" + lower[m.index..m.index + m.length] + "</mark>"]
      + MarkupParts(labelText, lower, patterns, m.index + m.length) == total
  {
    var parts := [labelText[offset..m.index], "<mark>" + lower[m.index..m.index + m.length] + "</mark>"];
    var rest := MarkupParts(labelText, lower, patterns, m.index + m.length);
    assert MarkupParts(labelText, lower, patterns, offset) == parts + rest;
    assert result + (parts + rest) == (result + parts) + rest;
  }

  /** When no match is left, the rest of the label completes the pushed strings. */
  lemma MarkupPushRest(labelText: string, lower: string, patterns: seq<string>, offset: nat,
                       result: seq<string>, total: seq<string>)
    requires |lower| == |labelText| && offset <= |labelText| && AllNonEmpty(patterns)
    requires NextMatch(lower, patterns, offset).None?
    requires result + MarkupParts(labelText, lower, patterns, offset) == total
    ensures result + [labelText[offset..]] == total
  {
  }

  /**
   * Each pushed string renders one part of the highlighting: an unmatched part as the
   * slice of the label it is, a match lower-cased inside `<mark>`; the parts put back
   * together give the label.
   */
  lemma MarkupSpec(labelText: string, searchValue: string)
    ensures searchValue == [] || SearchWords(searchValue) == [] ==> Markup(labelText, searchValue) == labelText
    ensures SearchWords(searchValue) != [] ==>
      var segments := Segments(labelText, ToLower(labelText), Patterns(SearchWords(searchValue)), 0);
      && Markup(labelText, searchValue) == Concat(RenderParts(segments))
      && Texts(segments) == labelText
  {
    if searchValue == [] {
      assert SplitWhitespace(searchValue) == [searchValue];
    }
    if SearchWords(searchValue) != [] {
      MarkupPartsRender(labelText, Patterns(SearchWords(searchValue)), 0);
      SegmentsSpec(labelText, SearchWords(searchValue));
    }
  }

  /** Where no search word occurs in the label, ignoring case, the markup is the label itself. */
  lemma MarkupWithoutMatch(labelText: string, searchValue: string)
    requires NextMatch(ToLower(labelText), Patterns(SearchWords(searchValue)), 0).None?
    ensures Markup(labelText, searchValue) == labelText
  {
    if searchValue != [] && SearchWords(searchValue) != [] {
      var parts := MarkupParts(labelText, ToLower(labelText), Patterns(SearchWords(searchValue)), 0);
      assert parts == [labelText[0..]];
      assert Concat(parts) == labelText + Concat([]);
    }
  }
}
