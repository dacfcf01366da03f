// Multi-word search highlighting (Highlighter.tsx): the label is cut into unmatched
// parts and marked matches of the search words, found by a case-insensitive regular
// expression whose alternatives are the words taken literally.
module Highlighter {
  import opened Results
  import opened JsStrings

  // ---------------------------------------------------------------------------------
  // Escaping a word for the regular expression
  // ---------------------------------------------------------------------------------

  /** The characters `escapeRegexWord` puts a backslash in front of: `-[]{}()*+?.,\^$|#` and `\s`. */
  predicate IsRegexSpecial(c: char)
  {
    c in "-[]{}()*+?.,\\^$|#" || IsWhitespace(c)
  }

  function EscapeChars(s: string): (r: string)
    ensures |r| >= |s|
  {
    if s == [] then []
    else (if IsRegexSpecial(s[0]) then ['\\', s[0]] else [s[0]]) + EscapeChars(s[1..])
  }

  /** `escapeRegexWord`: the lower-cased word with every special character escaped. */
  function EscapeRegexWord(word: string): string
  {
    EscapeChars(ToLower(word))
  }

  /**
   * What a pattern made of escaped and plain characters matches literally: `\c` stands
   * for `c`, any other character for itself.
   */
  function LiteralOf(pattern: string): string
  {
    if pattern == [] then []
    else if pattern[0] == '\\' && |pattern| >= 2 then [pattern[1]] + LiteralOf(pattern[2..])
    else [pattern[0]] + LiteralOf(pattern[1..])
  }

  /** Outside an escape, a special character never occurs in the escaped pattern. */
  predicate NoBareSpecial(pattern: string)
  {
    if pattern == [] then true
    else if pattern[0] == '\\' && |pattern| >= 2 then NoBareSpecial(pattern[2..])
    else !IsRegexSpecial(pattern[0]) && NoBareSpecial(pattern[1..])
  }

  lemma {:induction false} EscapeCharsLiteral(s: string)
    ensures LiteralOf(EscapeChars(s)) == s
    ensures NoBareSpecial(EscapeChars(s))
  {
    if s != [] {
      EscapeCharsLiteral(s[1..]);
      var rest := EscapeChars(s[1..]);
      if IsRegexSpecial(s[0]) {
        assert EscapeChars(s) == ['\\', s[0]] + rest;
        assert (['\\', s[0]] + rest)[2..] == rest;
      } else {
        assert EscapeChars(s) == [s[0]] + rest;
        assert ([s[0]] + rest)[1..] == rest;
        assert s[0] != '\\';
      }
    }
  }

  /**
   * The escaped word matches exactly the lower-cased word, and no `|` or other special
   * character of it is left to split or change the alternation it is joined into.
   */
  lemma EscapeRegexWordSpec(word: string)
    ensures LiteralOf(EscapeRegexWord(word)) == ToLower(word)
    ensures NoBareSpecial(EscapeRegexWord(word))
  {
    EscapeCharsLiteral(ToLower(word));
  }

  // ---------------------------------------------------------------------------------
  // Matching: leftmost position first, the earlier word first at one position
  // ---------------------------------------------------------------------------------

  /** The search words: the pieces of `searchValue.split(/\s+/)` that are not empty, in order. */
  function NonEmptyWords(parts: seq<string>): (r: seq<string>)
    ensures forall w :: w in r <==> w in parts && w != []
    ensures |r| <= |parts|
  {
    if parts == [] then []
    else (if parts[0] == [] then [] else [parts[0]]) + NonEmptyWords(parts[1..])
  }

  predicate AllNonEmpty(words: seq<string>)
  {
    forall i :: 0 <= i < |words| ==> words[i] != []
  }

  /** One alternative, a lower-cased word taken literally, matches the lower-cased text at `p`. */
  predicate WordMatchesAt(text: string, pattern: string, p: nat)
  {
    p + |pattern| <= |text| && text[p..p + |pattern|] == pattern
  }

  /** The alternative the expression takes at `p`: the first pattern in the list that matches there. */
  function FirstWordAt(text: string, patterns: seq<string>, p: nat): (r: Option<nat>)
    ensures r.Some? ==> r.value < |patterns| && p + |patterns[r.value]| <= |text|
  {
    if patterns == [] then None
    else if WordMatchesAt(text, patterns[0], p) then Some(0)
    else
      match FirstWordAt(text, patterns[1..], p)
      case None => None
      case Some(j) => Some(j + 1)
  }

  /**
   * The alternative taken at `p` matches there and no earlier one does; when none is
   * taken, no pattern matches at `p`.
   */
  lemma {:induction false} FirstWordAtSpec(text: string, patterns: seq<string>, p: nat)
    ensures var r := FirstWordAt(text, patterns, p);
      && (r.Some? ==> r.value < |patterns| && WordMatchesAt(text, patterns[r.value], p)
                      && forall j :: 0 <= j < r.value ==> !WordMatchesAt(text, patterns[j], p))
      && (r.None? ==> forall j :: 0 <= j < |patterns| ==> !WordMatchesAt(text, patterns[j], p))
    decreases |patterns|
  {
    if patterns != [] && !WordMatchesAt(text, patterns[0], p) {
      var tail := patterns[1..];
      FirstWordAtSpec(text, tail, p);
      assert forall j :: 1 <= j < |patterns| ==> patterns[j] == tail[j - 1];
    }
  }

  datatype Match = Match(index: nat, length: nat)

  /** `exec` with `lastIndex` at `from`: the leftmost position from there at which some pattern matches. */
  function NextMatch(text: string, patterns: seq<string>, from: nat): (r: Option<Match>)
    requires from <= |text|
    ensures r.Some? ==> from <= r.value.index && r.value.index + r.value.length <= |text|
    ensures r.Some? && AllNonEmpty(patterns) ==> r.value.length > 0
    decreases |text| - from
  {
    match FirstWordAt(text, patterns, from)
    case Some(j) => Some(Match(from, |patterns[j]|))
    case None => if from == |text| then None else NextMatch(text, patterns, from + 1)
  }

  /**
   * The match found is the first pattern matching at the leftmost position from `from` at
   * which any pattern matches; there is none exactly when none matches anywhere from there.
   */
  lemma {:induction false} NextMatchSpec(text: string, patterns: seq<string>, from: nat)
    requires from <= |text|
    ensures var r := NextMatch(text, patterns, from);
      && (r.Some? ==> FirstWordAt(text, patterns, r.value.index).Some?
                      && r.value.length == |patterns[FirstWordAt(text, patterns, r.value.index).value]|)
      && forall q :: from <= q <= |text| && (r.Some? ==> q < r.value.index) ==> FirstWordAt(text, patterns, q).None?
    decreases |text| - from
  {
    if FirstWordAt(text, patterns, from).None? && from < |text| {
      NextMatchSpec(text, patterns, from + 1);
    }
  }

  // ---------------------------------------------------------------------------------
  // Segments
  // ---------------------------------------------------------------------------------

  datatype Segment = Plain(text: string) | Marked(text: string)

  /**
   * The parts the loop pushes from `offset` on: for every match found in `lower` (the
   * label as the expression compares it) the unmatched text of the label before it and
   * the marked match, then the unmatched rest.
   */
  function Segments(labelText: string, lower: string, patterns: seq<string>, offset: nat): seq<Segment>
    requires |lower| == |labelText| && offset <= |labelText| && AllNonEmpty(patterns)
    decreases |labelText| - offset
  {
    match NextMatch(lower, patterns, offset)
    case None => [Plain(labelText[offset..])]
    case Some(m) =>
      [Plain(labelText[offset..m.index]), Marked(labelText[m.index..m.index + m.length])]
      + Segments(labelText, lower, patterns, m.index + m.length)
  }

  /** The texts of the segments, one after the other. */
  function Texts(segments: seq<Segment>): string
  {
    if segments == [] then [] else segments[0].text + Texts(segments[1..])
  }

  lemma {:induction false} TextsAppend(a: seq<Segment>, b: seq<Segment>)
    ensures Texts(a + b) == Texts(a) + Texts(b)
  {
    if a == [] {
      assert a + b == b;
    } else {
      assert (a + b)[0] == a[0];
      assert (a + b)[1..] == a[1..] + b;
      TextsAppend(a[1..], b);
      assert a[0].text + (Texts(a[1..]) + Texts(b)) == (a[0].text + Texts(a[1..])) + Texts(b);
    }
  }

  lemma TextsOfOne(x: Segment)
    ensures Texts([x]) == x.text
  {
    assert Texts([x]) == x.text + Texts([]);
  }

  /** Putting the segments back together gives the label from `offset` on, case included. */
  lemma {:induction false} SegmentsReconstruct(labelText: string, lower: string, patterns: seq<string>, offset: nat)
    requires |lower| == |labelText| && offset <= |labelText| && AllNonEmpty(patterns)
    ensures Texts(Segments(labelText, lower, patterns, offset)) == labelText[offset..]
    decreases |labelText| - offset
  {
    match NextMatch(lower, patterns, offset)
    case None =>
      assert Texts([Plain(labelText[offset..])]) == labelText[offset..] + Texts([]);
    case Some(m) =>
      var next := m.index + m.length;
      var head := [Plain(labelText[offset..m.index]), Marked(labelText[m.index..next])];
      SegmentsReconstruct(labelText, lower, patterns, next);
      TextsAppend(head, Segments(labelText, lower, patterns, next));
      assert Texts(head) == labelText[offset..m.index] + (labelText[m.index..next] + Texts([]));
      assert labelText[offset..] == labelText[offset..m.index] + labelText[m.index..next] + labelText[next..];
  }

  /** Unmatched and marked parts alternate, starting and ending with an unmatched one: 2k+1 parts for k matches. */
  predicate Alternating(segments: seq<Segment>)
  {
    |segments| % 2 == 1 && forall i :: 0 <= i < |segments| ==> (segments[i].Plain? <==> i % 2 == 0)
  }

  lemma {:induction false} SegmentsAlternate(labelText: string, lower: string, patterns: seq<string>, offset: nat)
    requires |lower| == |labelText| && offset <= |labelText| && AllNonEmpty(patterns)
    ensures Alternating(Segments(labelText, lower, patterns, offset))
    decreases |labelText| - offset
  {
    match NextMatch(lower, patterns, offset)
    case None =>
    case Some(m) =>
      var rest := Segments(labelText, lower, patterns, m.index + m.length);
      SegmentsAlternate(labelText, lower, patterns, m.index + m.length);
      var s := Segments(labelText, lower, patterns, offset);
      forall i | 2 <= i < |s| ensures s[i] == rest[i - 2] {}
  }

  /**
   * What the segment starting at `p` says about the matches there: no pattern matches at
   * any position of an unmatched part, and a marked part is as long as the first pattern
   * in the list that matches at its start.
   */
  predicate SegmentAgrees(lower: string, patterns: seq<string>, p: nat, segment: Segment)
  {
    match segment
    case Plain(text) => forall q :: p <= q < p + |text| ==> FirstWordAt(lower, patterns, q).None?
    case Marked(text) =>
      var j := FirstWordAt(lower, patterns, p);
      j.Some? && |text| == |patterns[j.value]|
  }

  /** Each segment agrees with the matcher at its own start, the first one starting at `p`. */
  predicate AgreeFrom(lower: string, patterns: seq<string>, p: nat, segments: seq<Segment>)
    decreases |segments|
  {
    segments != [] ==>
      SegmentAgrees(lower, patterns, p, segments[0]) && AgreeFrom(lower, patterns, p + |segments[0].text|, segments[1..])
  }

  /** The two parts pushed for one match agree with the matcher. */
  lemma MatchPartsAgree(lower: string, patterns: seq<string>, offset: nat, m: Match, unmatched: string, marked: string)
    requires offset <= |lower| && NextMatch(lower, patterns, offset) == Some(m)
    requires |unmatched| == m.index - offset && |marked| == m.length
    ensures SegmentAgrees(lower, patterns, offset, Plain(unmatched))
    ensures SegmentAgrees(lower, patterns, m.index, Marked(marked))
  {
    NextMatchSpec(lower, patterns, offset);
  }

  /** Matches run left to right without overlap: every segment agrees with the matcher at its own start. */
  lemma {:induction false} SegmentsLeftmost(labelText: string, lower: string, patterns: seq<string>, offset: nat)
    requires |lower| == |labelText| && offset <= |labelText| && AllNonEmpty(patterns)
    ensures AgreeFrom(lower, patterns, offset, Segments(labelText, lower, patterns, offset))
    decreases |labelText| - offset
  {
    var s := Segments(labelText, lower, patterns, offset);
    match NextMatch(lower, patterns, offset)
    case None =>
      NextMatchSpec(lower, patterns, offset);
      assert s[1..] == [];
    case Some(m) =>
      var next := m.index + m.length;
      var rest := Segments(labelText, lower, patterns, next);
      SegmentsLeftmost(labelText, lower, patterns, next);
      MatchPartsAgree(lower, patterns, offset, m, labelText[offset..m.index], labelText[m.index..next]);
      assert s[1..][1..] == rest;
  }

  /** The marked text of one match is, lower-cased, the pattern that matched it. */
  lemma MatchIsPattern(labelText: string, patterns: seq<string>, offset: nat, m: Match)
    requires offset <= |labelText| && NextMatch(ToLower(labelText), patterns, offset) == Some(m)
    ensures ToLower(labelText[m.index..m.index + m.length]) in patterns
  {
    var lower := ToLower(labelText);
    NextMatchSpec(lower, patterns, offset);
    var j := FirstWordAt(lower, patterns, m.index).value;
    FirstWordAtSpec(lower, patterns, m.index);
    assert lower[m.index..m.index + m.length] == patterns[j];
    ToLowerSlice(labelText, m.index, m.index + m.length);
  }

  lemma ToLowerSlice(s: string, a: nat, b: nat)
    requires a <= b <= |s|
    ensures ToLower(s)[a..b] == ToLower(s[a..b])
  {
  }

  predicate MarkedIsPattern(patterns: seq<string>, segment: Segment)
  {
    segment.Marked? ==> ToLower(segment.text) in patterns
  }

  /** Every marked part equals, ignoring case, one of the patterns. */
  lemma {:induction false} MarkedArePatterns(labelText: string, patterns: seq<string>, offset: nat)
    requires offset <= |labelText| && AllNonEmpty(patterns)
    ensures var s := Segments(labelText, ToLower(labelText), patterns, offset);
      forall i :: 0 <= i < |s| ==> MarkedIsPattern(patterns, s[i])
    decreases |labelText| - offset
  {
    var s := Segments(labelText, ToLower(labelText), patterns, offset);
    match NextMatch(ToLower(labelText), patterns, offset)
    case None =>
    case Some(m) =>
      var next := m.index + m.length;
      var rest := Segments(labelText, ToLower(labelText), patterns, next);
      MarkedArePatterns(labelText, patterns, next);
      assert next <= |labelText|;
      assert rest == Segments(labelText, ToLower(labelText), patterns, next);
      assert forall k :: 0 <= k < |rest| ==> MarkedIsPattern(patterns, rest[k]);
      MatchIsPattern(labelText, patterns, offset, m);
      assert s == [Plain(labelText[offset..m.index]), Marked(labelText[m.index..next])] + rest;
      forall i | 0 <= i < |s| ensures MarkedIsPattern(patterns, s[i])
      {
        if i == 0 {
          assert s[0].Plain?;
        } else if i == 1 {
          assert s[1].text == labelText[m.index..next];
          assert MarkedIsPattern(patterns, s[1]);
        } else {
          assert MarkedIsPattern(patterns, rest[i - 2]);
          assert s[i] == rest[i - 2];
        }
      }
  }

  // ---------------------------------------------------------------------------------
  // getSearchHighlight
  // ---------------------------------------------------------------------------------

  /** The label itself, or the parts to render. */
  datatype Highlighted = Unchanged(labelText: string) | Parts(segments: seq<Segment>)

  function SearchWords(searchValue: string): (r: seq<string>)
    ensures AllNonEmpty(r)
  {
    var r := NonEmptyWords(SplitWhitespace(searchValue));
    assert forall i :: 0 <= i < |r| ==> r[i] in r;
    r
  }

  /**
   * What the alternatives of the case-insensitive expression match: each word escaped,
   * which is the lower-cased word taken literally.
   */
  function Patterns(words: seq<string>): (r: seq<string>)
    ensures |r| == |words|
    ensures forall i :: 0 <= i < |words| ==> r[i] == LiteralOf(EscapeRegexWord(words[i]))
    ensures AllNonEmpty(words) ==> AllNonEmpty(r)
  {
    if words == [] then []
    else
      EscapeRegexWordSpec(words[0]);
      [ToLower(words[0])] + Patterns(words[1..])
  }

  /** What `getSearchHighlight` returns; with the `i` flag the lower-cased words are compared with the lower-cased label. */
  function Highlight(labelText: string, searchValue: string): Highlighted
  {
    if searchValue == [] || SearchWords(searchValue) == [] then Unchanged(labelText)
    else Parts(Segments(labelText, ToLower(labelText), Patterns(SearchWords(searchValue)), 0))
  }

  /** `getSearchHighlight`: the label itself without search words, otherwise the parts the match loop pushes. */
  method GetSearchHighlight(labelText: string, searchValue: string) returns (r: Highlighted)
    ensures r == Highlight(labelText, searchValue)
  {
    if searchValue == [] {
      return Unchanged(labelText);
    }
    var searchStringParts := SearchWords(searchValue);
    if |searchStringParts| == 0 {
      return Unchanged(labelText);
    }
    var segments := PushSegments(labelText, ToLower(labelText), Patterns(searchStringParts));
    return Parts(segments);
  }

  /**
   * The match loop: while the expression finds a match from the offset, push the
   * unmatched text before it and the marked match, and move the offset past the match;
   * then push the unmatched rest.
   */
  method PushSegments(labelText: string, lower: string, patterns: seq<string>) returns (result: seq<Segment>)
    requires |lower| == |labelText| && AllNonEmpty(patterns)
    ensures result == Segments(labelText, lower, patterns, 0)
  {
    ghost var total := Segments(labelText, lower, patterns, 0);
    result := [];
    var offset := 0;
    var matchArray := NextMatch(lower, patterns, offset);
    while matchArray.Some?
      invariant offset <= |labelText|
      invariant matchArray == NextMatch(lower, patterns, offset)
      invariant result + Segments(labelText, lower, patterns, offset) == total
      decreases |labelText| - offset
    {
      var m := matchArray.value;
      var next := m.index + m.length;
      var pushed := result + [Plain(labelText[offset..m.index]), Marked(labelText[m.index..next])];
      PushMatch(labelText, lower, patterns, offset, m, result, total);
      assert pushed + Segments(labelText, lower, patterns, next) == total;
      result := pushed;
      offset := next;
      matchArray := NextMatch(lower, patterns, offset);
    }
    PushRest(labelText, lower, patterns, offset, result, total);
    result := result + [Plain(labelText[offset..])];
  }

  /** One turn of the match loop keeps the pushed parts a prefix of all the parts. */
  lemma PushMatch(labelText: string, lower: string, patterns: seq<string>, offset: nat, m: Match,
                  result: seq<Segment>, total: seq<Segment>)
    requires |lower| == |labelText| && offset <= |labelText| && AllNonEmpty(patterns)
    requires NextMatch(lower, patterns, offset) == Some(m)
    requires result + Segments(labelText, lower, patterns, offset) == total
    ensures result + [Plain(labelText[offset..m.index]), Marked(labelText[m.index..m.index + m.length])]
      + Segments(labelText, lower, patterns, m.index + m.length) == total
  {
    var parts := [Plain(labelText[offset..m.index]), Marked(labelText[m.index..m.index + m.length])];
    var rest := Segments(labelText, lower, patterns, m.index + m.length);
    assert Segments(labelText, lower, patterns, offset) == parts + rest;
    assert result + (parts + rest) == (result + parts) + rest;
  }

  /** When no match is left, the unmatched rest completes the parts. */
  lemma PushRest(labelText: string, lower: string, patterns: seq<string>, offset: nat, result: seq<Segment>, total: seq<Segment>)
    requires |lower| == |labelText| && offset <= |labelText| && AllNonEmpty(patterns)
    requires NextMatch(lower, patterns, offset).None?
    requires result + Segments(labelText, lower, patterns, offset) == total
    ensures result + [Plain(labelText[offset..])] == total
  {
  }

  /**
   * The parts for a list of search words alternate, put back together give the label
   * case included, agree with the leftmost-first matcher, and every marked part equals
   * one search word ignoring case.
   */
  lemma SegmentsSpec(labelText: string, words: seq<string>)
    requires AllNonEmpty(words)
    ensures var s := Segments(labelText, ToLower(labelText), Patterns(words), 0);
      && Alternating(s)
      && Texts(s) == labelText
      && AgreeFrom(ToLower(labelText), Patterns(words), 0, s)
      && forall i :: 0 <= i < |s| && s[i].Marked? ==>
           exists j :: 0 <= j < |words| && ToLower(s[i].text) == ToLower(words[j])
  {
    var patterns := Patterns(words);
    var lower := ToLower(labelText);
    var s := Segments(labelText, lower, patterns, 0);
    SegmentsAlternate(labelText, lower, patterns, 0);
    SegmentsReconstruct(labelText, lower, patterns, 0);
    SegmentsLeftmost(labelText, lower, patterns, 0);
    MarkedArePatterns(labelText, patterns, 0);
    forall i | 0 <= i < |s| && s[i].Marked?
      ensures exists j :: 0 <= j < |words| && ToLower(s[i].text) == ToLower(words[j])
    {
      assert MarkedIsPattern(patterns, s[i]);
      var j :| 0 <= j < |patterns| && patterns[j] == ToLower(s[i].text);
      EscapeRegexWordSpec(words[j]);
    }
  }

  /** Without a non-empty search word the label comes back unchanged; otherwise it is cut into parts. */
  lemma HighlightSpec(labelText: string, searchValue: string)
    ensures Highlight(labelText, searchValue).Unchanged? <==> SearchWords(searchValue) == []
    ensures Highlight(labelText, searchValue).Unchanged? ==> Highlight(labelText, searchValue).labelText == labelText
    ensures Highlight(labelText, searchValue).Parts? ==>
      Highlight(labelText, searchValue).segments == Segments(labelText, ToLower(labelText), Patterns(SearchWords(searchValue)), 0)
  {
    if searchValue == [] {
      assert SplitWhitespace(searchValue) == [searchValue];
    }
  }
}
