/**
  Locating the JSON object in a model reply (main.py, `generate_samples`).

  The program trims the reply with `str.strip()` and then searches it with the
  regular expression `\{.*\}` under DOTALL. This module gives the regular
  expression's meaning as a reference (`SpanMatches`, `IsSearchResult`) and an
  implementation without a regex engine (`SearchJson`: first '{' up to the last
  '}'), and proves the two agree.
*/
module JsonSpan {
  import opened Wrappers

  /** Index of the first occurrence of `c` in `s`. */
  function IndexOf(s: string, c: char): (r: Option<nat>)
    ensures r.Some? ==> r.value < |s| && s[r.value] == c
    ensures r.Some? ==> forall k :: 0 <= k < r.value ==> s[k] != c
    ensures r.None? ==> forall k :: 0 <= k < |s| ==> s[k] != c
  {
    if |s| == 0 then None
    else if s[0] == c then Some(0)
    else match IndexOf(s[1..], c)
      case None => None
      case Some(k) => Some(k + 1)
  }

  /** Index of the last occurrence of `c` in `s`. */
  function LastIndexOf(s: string, c: char): (r: Option<nat>)
    ensures r.Some? ==> r.value < |s| && s[r.value] == c
    ensures r.Some? ==> forall k :: r.value < k < |s| ==> s[k] != c
    ensures r.None? ==> forall k :: 0 <= k < |s| ==> s[k] != c
  {
    if |s| == 0 then None
    else if s[|s| - 1] == c then Some(|s| - 1)
    else LastIndexOf(s[..|s| - 1], c)
  }

  /** `text[i..j]` is a match of `\{.*\}` when `.` also matches newlines. */
  predicate SpanMatches(text: string, i: int, j: int) {
    0 <= i && i + 2 <= j <= |text| && text[i] == '{' && text[j - 1] == '}'
  }

  /**
    What `re.search` returns for that pattern: the match that starts leftmost,
    and, because `.*` is greedy, the longest one from that start.
  */
  ghost predicate IsSearchResult(text: string, i: int, j: int) {
    && SpanMatches(text, i, j)
    && (forall i', j' :: SpanMatches(text, i', j') ==> i <= i')
    && (forall j' :: SpanMatches(text, i, j') ==> j' <= j)
  }

  /** The span `[start, end)` of the first '{' through the last '}', if the '}' comes later. */
  function SearchJson(text: string): (r: Option<(nat, nat)>)
    ensures r.Some? ==> IsSearchResult(text, r.value.0, r.value.1)
    ensures r.None? ==> forall i, j :: !SpanMatches(text, i, j)
  {
    match IndexOf(text, '{')
    case None => None
    case Some(i) =>
      match LastIndexOf(text, '}')
      case None => None
      case Some(j) => if i < j then Some((i, j + 1)) else None
  }

  /** `match.group(0)`: the matched text, or None when `re.search` finds nothing. */
  function ExtractJson(text: string): (r: Option<string>)
    ensures r.Some? ==> 2 <= |r.value| && r.value[0] == '{' && r.value[|r.value| - 1] == '}'
  {
    match SearchJson(text)
    case None => None
    case Some((i, j)) => Some(text[i..j])
  }

  /** The search succeeds exactly when some '{' is followed, later in the text, by a '}'. */
  lemma SearchJsonSucceedsIff(text: string)
    ensures SearchJson(text).Some? <==>
      exists i, j :: 0 <= i < j < |text| && text[i] == '{' && text[j] == '}'
  {
    if exists i, j :: 0 <= i < j < |text| && text[i] == '{' && text[j] == '}' {
      var i, j :| 0 <= i < j < |text| && text[i] == '{' && text[j] == '}';
      assert SpanMatches(text, i, j + 1);
    }
  }

  /** The search result is the unique leftmost-longest match. */
  lemma SearchResultUnique(text: string, i: int, j: int)
    requires IsSearchResult(text, i, j)
    ensures SearchJson(text) == Some((i, j))
  {
    var r := SearchJson(text);
    assert r.Some?;
    var (i0, j0) := r.value;
    assert i <= i0 && i0 <= i;
    assert j <= j0 && j0 <= j;
  }

  /**
    The extracted text runs from the first '{' of the reply to its last '}':
    no '{' comes before its start and no '}' after its end.
  */
  lemma ExtractJsonIsFirstToLast(text: string)
    requires ExtractJson(text).Some?
    ensures exists i, j :: && 0 <= i < j < |text| && text[i] == '{' && text[j] == '}'
                           && (forall k :: 0 <= k < i ==> text[k] != '{')
                           && (forall k :: j < k < |text| ==> text[k] != '}')
                           && ExtractJson(text).value == text[i..j + 1]
  {
    var i := IndexOf(text, '{').value;
    var j := LastIndexOf(text, '}').value;
    assert ExtractJson(text).value == text[i..j + 1];
  }

  /** Python's `str.isspace` on the characters a reply can plausibly hold. */
  predicate IsSpace(c: char) {
    c == ' ' || c == '\t' || c == '\n' || c == '\r' || c == '\U{B}' || c == '\U{C}'
    || ('\U{1C}' <= c <= '\U{1F}') || c == '\U{85}' || c == '\U{A0}'
  }

  /** The index of the first non-whitespace character of `s` at or after `i`, or `|s|`. */
  function SkipSpaces(s: string, i: nat): (a: nat)
    requires i <= |s|
    ensures i <= a <= |s|
    ensures forall k :: i <= k < a ==> IsSpace(s[k])
    ensures a == |s| || !IsSpace(s[a])
    decreases |s| - i
  {
    if i < |s| && IsSpace(s[i]) then SkipSpaces(s, i + 1) else i
  }

  /** The end of `s[lo..j]` once its trailing whitespace is dropped. */
  function SkipSpacesBack(s: string, lo: nat, j: nat): (b: nat)
    requires lo <= j <= |s|
    ensures lo <= b <= j
    ensures forall k :: b <= k < j ==> IsSpace(s[k])
    ensures b == lo || !IsSpace(s[b - 1])
  {
    if lo < j && IsSpace(s[j - 1]) then SkipSpacesBack(s, lo, j - 1) else j
  }

  /** `str.strip()`: drop whitespace from both ends. */
  function Strip(s: string): string {
    var a := SkipSpaces(s, 0);
    s[a..SkipSpacesBack(s, a, |s|)]
  }

  /**
    `strip()` keeps a slice of its argument that is empty or starts and ends
    with a non-whitespace character, and removes only whitespace around it.
  */
  lemma StripSpec(s: string)
    ensures exists a, b :: && 0 <= a <= b <= |s| && Strip(s) == s[a..b]
                           && (forall k :: 0 <= k < a ==> IsSpace(s[k]))
                           && (forall k :: b <= k < |s| ==> IsSpace(s[k]))
    ensures Strip(s) == [] || (!IsSpace(Strip(s)[0]) && !IsSpace(Strip(s)[|Strip(s)| - 1]))
  {
    var a := SkipSpaces(s, 0);
    var b := SkipSpacesBack(s, a, |s|);
    assert Strip(s) == s[a..b];
  }

  /** Whitespace padding around a text cannot hold a brace, so it never changes what is extracted. */
  lemma {:induction false} ExtractIgnoresPadding(t: string, a: int, b: int)
    requires 0 <= a <= b <= |t|
    requires forall k :: 0 <= k < a ==> IsSpace(t[k])
    requires forall k :: b <= k < |t| ==> IsSpace(t[k])
    ensures ExtractJson(t[a..b]) == ExtractJson(t)
  {
    var m := t[a..b];
    forall i, j | SpanMatches(t, i, j)
      ensures a <= i && j <= b && SpanMatches(m, i - a, j - a)
    {
      assert !IsSpace(t[i]) && !IsSpace(t[j - 1]);
    }
    match SearchJson(m)
    case None =>
    case Some((i, j)) =>
      var (ti, tj) := (i + a, j + a);
      assert SpanMatches(t, ti, tj);
      forall j' | SpanMatches(t, ti, j') ensures j' <= tj {
        assert SpanMatches(m, i, j' - a);
      }
      SearchResultUnique(t, ti, tj);
      assert SpanMatches(m, i, j);
      assert ExtractJson(m) == Some(m[i..j]);
      assert ExtractJson(t) == Some(t[ti..tj]);
      assert m[i..j] == t[ti..tj] by {
        forall k | 0 <= k < j - i ensures m[i..j][k] == t[ti..tj][k] {
          assert m[i + k] == t[ti + k];
        }
      }
  }

  /** Trimming the reply with `strip()` before the search does not change the extracted text. */
  lemma ExtractIgnoresStrip(t: string)
    ensures ExtractJson(Strip(t)) == ExtractJson(t)
  {
    var a := SkipSpaces(t, 0);
    ExtractIgnoresPadding(t, a, SkipSpacesBack(t, a, |t|));
  }
}
