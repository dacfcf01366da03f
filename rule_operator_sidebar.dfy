// One rule operator in the rule editor's sidebar (RuleOperator.tsx): the description
// snippet that starts at the word containing the first search match, and the tag colours.
module RuleOperatorSidebar {
  import opened Results
  import opened JsStrings

  /** The colours of the rule editor's node kinds. */
  datatype NodeColor = TransformationNode | ValueEdge | ComparatorNode | AggregatorNode

  /** `tagColor`: only the four operator kinds have a colour. */
  function TagColor(tag: string): (r: Option<NodeColor>)
  {
    match tag
    case "Transform" => Some(TransformationNode)
    case "Input" => Some(ValueEdge)
    case "Comparison" => Some(ComparatorNode)
    case "Aggregation" => Some(AggregatorNode)
    case _ => None
  }

  /** A tag has a colour exactly when it is one of the four kinds, and each kind has its own. */
  lemma TagColorSpec(tag: string, other: string)
    ensures TagColor(tag).Some? <==> tag == "Transform" || tag == "Input" || tag == "Comparison" || tag == "Aggregation"
    ensures TagColor(tag).Some? && TagColor(tag) == TagColor(other) ==> tag == other
  {
  }

  /**
   * Where the word containing position `i` starts: step back over non-whitespace until
   * the start of the text or a whitespace character.
   */
  function WordStart(text: string, i: nat): (s: nat)
    requires i <= |text|
    ensures s <= i
    ensures s == 0 || IsWhitespace(text[s - 1])
    ensures forall j :: s <= j < i ==> !IsWhitespace(text[j])
  {
    if i == 0 || IsWhitespace(text[i - 1]) then i else WordStart(text, i - 1)
  }

  /** The word start is the only position with these properties: it is the latest such start. */
  lemma WordStartLatest(text: string, i: nat, s: nat)
    requires s <= i <= |text|
    requires s == 0 || IsWhitespace(text[s - 1])
    requires forall j :: s <= j < i ==> !IsWhitespace(text[j])
    ensures WordStart(text, i) == s
  {
  }

  /**
   * `extractSearchSnippet`: nothing for an empty text or no match; otherwise the text from
   * the start of the word holding the match. `matchIndex` is where the search expression
   * first matches the text.
   */
  method ExtractSearchSnippet(text: string, matchIndex: Option<nat>) returns (snippet: Option<string>)
    requires matchIndex.Some? ==> matchIndex.value <= |text|
    ensures text == [] || matchIndex.None? ==> snippet.None?
    ensures text != [] && matchIndex.Some? ==> snippet == Some(text[WordStart(text, matchIndex.value)..])
  {
    if text == [] || matchIndex.None? {
      return None;
    }
    var index := matchIndex.value;
    var wordAlignedIdx := index;
    var i: int := index as int - 1;
    while i >= 0 && !IsWhitespace(text[i])
      invariant -1 <= i < index
      invariant wordAlignedIdx == i + 1
      invariant forall j :: wordAlignedIdx <= j < index ==> !IsWhitespace(text[j])
      decreases i
    {
      wordAlignedIdx := i;
      i := i - 1;
    }
    WordStartLatest(text, index, wordAlignedIdx);
    return Some(text[wordAlignedIdx..]);
  }

  /**
   * The description snippet of a sidebar operator: computed only when there are search
   * words and a non-empty description.
   */
  method DescriptionSearchSnippet(searchWords: seq<string>, description: Option<string>, matchIndex: Option<nat>)
    returns (snippet: Option<string>)
    requires description.Some? && matchIndex.Some? ==> matchIndex.value <= |description.value|
    ensures searchWords == [] || description.None? || description == Some("") ==> snippet.None?
    ensures searchWords != [] && description.Some? && description.value != [] && matchIndex.Some? ==>
      snippet == Some(description.value[WordStart(description.value, matchIndex.value)..])
    ensures matchIndex.None? ==> snippet.None?
  {
    if |searchWords| > 0 && description.Some? && description.value != [] {
      snippet := ExtractSearchSnippet(description.value, matchIndex);
    } else {
      snippet := None;
    }
  }
}
