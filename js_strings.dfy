// The JavaScript string operations the front end relies on. A string is a sequence of
// `char`s, each standing for one code unit of the Basic Multilingual Plane; characters that
// JavaScript stores as surrogate pairs are not modelled.
module JsStrings {

  /** `\s` in a JavaScript regular expression: the characters `trim` also removes. */
  predicate IsWhitespace(c: char)
  {
    var n := c as int;
    n == 0x09 || n == 0x0A || n == 0x0B || n == 0x0C || n == 0x0D || n == 0x20 || n == 0xA0
    || n == 0x1680 || (0x2000 <= n <= 0x200A) || n == 0x2028 || n == 0x2029
    || n == 0x202F || n == 0x205F || n == 0x3000 || n == 0xFEFF
  }

  predicate NoWhitespace(s: string)
  {
    forall i :: 0 <= i < |s| ==> !IsWhitespace(s[i])
  }

  predicate IsUpperAscii(c: char) { 'A' <= c <= 'Z' }

  predicate IsLowerAscii(c: char) { 'a' <= c <= 'z' }

  /** `toLowerCase` of one code unit; only ASCII letters are mapped. */
  function ToLowerChar(c: char): (r: char)
    ensures !IsUpperAscii(r)
    ensures !IsUpperAscii(c) ==> r == c
    ensures IsUpperAscii(c) ==> IsLowerAscii(r) && r as int == c as int + 32
  {
    if IsUpperAscii(c) then (c as int + 32) as char else c
  }

  /** `toUpperCase` of one code unit; only ASCII letters are mapped. */
  function ToUpperChar(c: char): (r: char)
    ensures !IsLowerAscii(r)
    ensures !IsLowerAscii(c) ==> r == c
    ensures IsLowerAscii(c) ==> IsUpperAscii(r) && r as int == c as int - 32
  {
    if IsLowerAscii(c) then (c as int - 32) as char else c
  }

  function ToLower(s: string): (r: string)
    ensures |r| == |s|
    ensures forall i :: 0 <= i < |s| ==> r[i] == ToLowerChar(s[i])
  {
    seq(|s|, i requires 0 <= i < |s| => ToLowerChar(s[i]))
  }

  /** Lower-casing is idempotent. */
  lemma ToLowerIdempotent(s: string)
    ensures ToLower(ToLower(s)) == ToLower(s)
  {
  }

  /** Position argument of `slice`: a negative value counts from the end; the result is clamped to [0, len]. */
  function RelativeIndex(i: int, len: nat): (r: nat)
    ensures r <= len
  {
    if i < 0 then (if len + i < 0 then 0 else len + i) else if i > len then len else i
  }

  /** `s.slice(start, end)`. */
  function Slice<T>(s: seq<T>, start: int, end: int): seq<T>
  {
    var from := RelativeIndex(start, |s|);
    var to := RelativeIndex(end, |s|);
    if from < to then s[from..to] else []
  }

  /** Position argument of `substring`: clamped to [0, len]. */
  function Clamp(i: int, len: nat): (r: nat)
    ensures r <= len
  {
    if i < 0 then 0 else if i > len then len else i
  }

  /** `s.substring(start, end)`: both positions are clamped and swapped when out of order. */
  function Substring(s: string, start: int, end: int): string
  {
    var a := Clamp(start, |s|);
    var b := Clamp(end, |s|);
    if a <= b then s[a..b] else s[b..a]
  }

  predicate StartsWith(s: string, prefix: string)
  {
    |prefix| <= |s| && s[..|prefix|] == prefix
  }

  predicate EndsWith(s: string, suffix: string)
  {
    |suffix| <= |s| && s[|s| - |suffix|..] == suffix
  }

  predicate OccursAt(s: string, sub: string, i: int)
  {
    0 <= i <= |s| - |sub| && s[i..i + |sub|] == sub
  }

  /** `s.includes(sub)`. */
  predicate Includes(s: string, sub: string)
  {
    exists i :: 0 <= i <= |s| - |sub| && OccursAt(s, sub, i)
  }

  /** `parts.join(sep)`. */
  function Join(parts: seq<string>, sep: string): string
  {
    if |parts| == 0 then "" else if |parts| == 1 then parts[0] else parts[0] + sep + Join(parts[1..], sep)
  }

  /** Index of the first whitespace at or after `i`, or `|s|`. */
  function WhitespaceFrom(s: string, i: nat): (k: nat)
    requires i <= |s|
    ensures i <= k <= |s|
    ensures k < |s| ==> IsWhitespace(s[k])
    ensures forall j :: i <= j < k ==> !IsWhitespace(s[j])
    decreases |s| - i
  {
    if i == |s| || IsWhitespace(s[i]) then i else WhitespaceFrom(s, i + 1)
  }

  /** Index of the first non-whitespace at or after `i`, or `|s|`. */
  function NonWhitespaceFrom(s: string, i: nat): (k: nat)
    requires i <= |s|
    ensures i <= k <= |s|
    ensures k < |s| ==> !IsWhitespace(s[k])
    ensures forall j :: i <= j < k ==> IsWhitespace(s[j])
    decreases |s| - i
  {
    if i == |s| || !IsWhitespace(s[i]) then i else NonWhitespaceFrom(s, i + 1)
  }

  /**
   * `s.split(/\s+/)`: the pieces between maximal whitespace runs. A leading or trailing
   * run yields an empty first or last piece, and "" splits into [""].
   */
  function SplitWhitespace(s: string): (r: seq<string>)
    ensures |r| >= 1
    ensures forall i :: 0 <= i < |r| ==> NoWhitespace(r[i])
    decreases |s|
  {
    var k := WhitespaceFrom(s, 0);
    if k == |s| then [s] else [s[..k]] + SplitWhitespace(s[NonWhitespaceFrom(s, k)..])
  }

  /** Index one past the last non-whitespace before `i`, or 0. */
  function TrailingWhitespaceStart(s: string, i: nat): (k: nat)
    requires i <= |s|
    ensures k <= i
    ensures k > 0 ==> !IsWhitespace(s[k - 1])
    ensures forall j :: k <= j < i ==> IsWhitespace(s[j])
  {
    if i == 0 || !IsWhitespace(s[i - 1]) then i else TrailingWhitespaceStart(s, i - 1)
  }

  /** `s.trim()`. */
  function Trim(s: string): string
  {
    var from := NonWhitespaceFrom(s, 0);
    var to := TrailingWhitespaceStart(s, |s|);
    if from < to then s[from..to] else ""
  }

  /** A trimmed string is empty, or starts and ends with a non-whitespace character. */
  lemma TrimEnds(s: string)
    ensures var t := Trim(s); t == [] || (!IsWhitespace(t[0]) && !IsWhitespace(t[|t| - 1]))
  {
  }

  /** Splitting a string without whitespace at either end yields no empty piece. */
  lemma {:induction false} SplitWithoutOuterWhitespace(s: string)
    requires s != [] && !IsWhitespace(s[0]) && !IsWhitespace(s[|s| - 1])
    ensures forall i :: 0 <= i < |SplitWhitespace(s)| ==> SplitWhitespace(s)[i] != []
  {
    var k := WhitespaceFrom(s, 0);
    if k < |s| {
      var j := NonWhitespaceFrom(s, k);
      assert k <= |s| - 1 && !IsWhitespace(s[|s| - 1]);
      assert j < |s|;
      SplitWithoutOuterWhitespace(s[j..]);
    }
  }

  /** A string without whitespace splits into itself alone. */
  lemma SplitNoWhitespace(s: string)
    requires NoWhitespace(s)
    ensures SplitWhitespace(s) == [s]
  {
  }

  function DigitChar(d: nat): (c: char)
    requires d < 10
    ensures '0' <= c <= '9'
  {
    ('0' as int + d) as char
  }

  /** `String(n)` for an integer: its decimal representation. */
  function NatToString(n: nat): (r: string)
    ensures |r| >= 1
    ensures forall i :: 0 <= i < |r| ==> '0' <= r[i] <= '9'
    ensures n >= 10 <==> |r| > 1
  {
    if n < 10 then [DigitChar(n)] else NatToString(n / 10) + [DigitChar(n % 10)]
  }

  function IntToString(n: int): string
  {
    if n < 0 then "-" + NatToString(-n) else NatToString(n)
  }
}

// The JavaScript array operations the front end relies on.
module JsArrays {

  /** `s.indexOf(x)`: the first position of `x`, or -1. */
  function IndexOf<T(==)>(s: seq<T>, x: T): (r: int)
    ensures -1 <= r < |s|
    ensures r == -1 <==> x !in s
    ensures r >= 0 ==> s[r] == x && forall j :: 0 <= j < r ==> s[j] != x
  {
    if s == [] then -1
    else if s[0] == x then 0
    else var k := IndexOf(s[1..], x); if k == -1 then -1 else k + 1
  }

  /** The elements of `s` from position `i` on whose first occurrence is where they stand. */
  function KeepFirst<T(==)>(s: seq<T>, i: nat): seq<T>
    requires i <= |s|
    decreases |s| - i
  {
    if i == |s| then []
    else (if IndexOf(s, s[i]) == i then [s[i]] else []) + KeepFirst(s, i + 1)
  }

  /** `s.filter((x, i) => s.indexOf(x) === i)`: de-duplication keeping first occurrences. */
  function Dedup<T(==)>(s: seq<T>): seq<T>
  {
    KeepFirst(s, 0)
  }

  lemma {:induction false} KeepFirstMembers<T>(s: seq<T>, i: nat)
    requires i <= |s|
    ensures forall x :: x in KeepFirst(s, i) <==> x in s[i..] && IndexOf(s, x) >= i
    decreases |s| - i
  {
    if i < |s| {
      KeepFirstMembers(s, i + 1);
      assert s[i..] == [s[i]] + s[i + 1..];
      assert IndexOf(s, s[i]) <= i;
    }
  }

  lemma {:induction false} KeepFirstDistinct<T>(s: seq<T>, i: nat)
    requires i <= |s|
    ensures Distinct(KeepFirst(s, i))
    decreases |s| - i
  {
    if i < |s| {
      var rest := KeepFirst(s, i + 1);
      KeepFirstDistinct(s, i + 1);
      KeepFirstMembers(s, i + 1);
      if IndexOf(s, s[i]) == i {
        assert s[i] !in rest;
        var r := [s[i]] + rest;
        assert KeepFirst(s, i) == r;
        forall a, b | 0 <= a < b < |r|
          ensures r[a] != r[b]
        {
          assert r[b] == rest[b - 1] && rest[b - 1] in rest;
          if a == 0 { assert r[a] == s[i]; }
          if a > 0 { assert r[a] == rest[a - 1]; }
        }
      } else {
        assert KeepFirst(s, i) == rest;
      }
    }
  }

  /**
   * De-duplication keeps exactly the elements of the input, each once, with the input's
   * first element in front; it is never longer than the input.
   */
  lemma DedupSpec<T>(s: seq<T>)
    ensures forall x :: x in Dedup(s) <==> x in s
    ensures Distinct(Dedup(s))
    ensures |Dedup(s)| <= |s|
    ensures s != [] ==> Dedup(s) != [] && Dedup(s)[0] == s[0]
  {
    KeepFirstMembers(s, 0);
    KeepFirstDistinct(s, 0);
    KeepFirstLength(s, 0);
    assert s[0..] == s;
  }

  lemma {:induction false} KeepFirstLength<T>(s: seq<T>, i: nat)
    requires i <= |s|
    ensures |KeepFirst(s, i)| <= |s| - i
    decreases |s| - i
  {
    if i < |s| { KeepFirstLength(s, i + 1); }
  }

  lemma IndexOfSnoc<T>(s: seq<T>, x: T, y: T)
    ensures y in s ==> IndexOf(s + [x], y) == IndexOf(s, y)
    ensures y !in s && y == x ==> IndexOf(s + [x], y) == |s|
  {
    var t := s + [x];
    if y in s {
      var j := IndexOf(s, y);
      assert t[j] == y;
      var j' := IndexOf(t, y);
      assert j' <= j;
      assert j' < |s| ==> s[j'] == y;
    } else if y == x {
      assert t[|s|] == y;
      assert forall j :: 0 <= j < |s| ==> t[j] == s[j];
    }
  }

  lemma {:induction false} KeepFirstSnoc<T>(s: seq<T>, x: T, i: nat)
    requires i <= |s|
    ensures KeepFirst(s + [x], i) == KeepFirst(s, i) + (if x in s then [] else [x])
    decreases |s| - i
  {
    var t := s + [x];
    if i == |s| {
      IndexOfSnoc(s, x, x);
      assert t[i] == x;
      if x in s {
        assert IndexOf(t, x) < |s|;
      }
    } else {
      KeepFirstSnoc(s, x, i + 1);
      assert t[i] == s[i];
      IndexOfSnoc(s, x, s[i]);
    }
  }

  /** Appending an element de-duplicates to the old result, plus the element if it is new. */
  lemma DedupSnoc<T>(s: seq<T>, x: T)
    ensures Dedup(s + [x]) == Dedup(s) + (if x in s then [] else [x])
  {
    KeepFirstSnoc(s, x, 0);
  }

  /** Sequence without repeated elements. */
  predicate Distinct<T(==)>(s: seq<T>)
  {
    forall a, b :: 0 <= a < b < |s| ==> s[a] != s[b]
  }
}
