/** StringHelper (src/lib/helpers/StringHelper.ts): capitalising a word and replacing
    the last case-insensitive occurrence of a substring. Case mapping is ASCII-only. */
module StringHelperModel {
  import opened Ascii

  /** `text.charAt(i)`: the one-character string at `i`, or '' past the end. */
  function CharAt(text: string, i: nat): (r: string)
    ensures i < |text| ==> r == [text[i]]
    ensures i >= |text| ==> r == ""
  {
    if i < |text| then [text[i]] else ""
  }

  /** `text.slice(i)`: the rest from `i`, or '' past the end. */
  function Slice(text: string, i: nat): (r: string)
    ensures i <= |text| ==> r == text[i..]
    ensures i >= |text| ==> r == ""
  {
    if i <= |text| then text[i..] else ""
  }

  /** capitalize: the first character upper-cased, the rest as it was. */
  function Capitalize(text: string): (r: string)
    ensures |r| == |text|
    ensures text == "" ==> r == ""
    ensures text != "" ==> r[0] == UpperChar(text[0]) && r[1..] == text[1..]
  {
    Upper(CharAt(text, 0)) + Slice(text, 1)
  }

  /** Capitalising twice is capitalising once. */
  lemma CapitalizeIdempotent(text: string)
    ensures Capitalize(Capitalize(text)) == Capitalize(text)
  {
    if text != "" {
      var r := Capitalize(text);
      assert Capitalize(r) == [UpperChar(r[0])] + r[1..];
      assert r == [r[0]] + r[1..];
    }
  }

  /** `pattern` occurs in `s` at `k`. */
  predicate OccursAt(s: string, pattern: string, k: int) {
    0 <= k && k + |pattern| <= |s| && s[k..k + |pattern|] == pattern
  }

  /** The last position at or before `from` where `pattern` occurs, or -1. */
  function LastIndexFrom(s: string, pattern: string, from: int): (r: int)
    requires -1 <= from <= |s| - |pattern|
    ensures -1 <= r <= from
    ensures r >= 0 ==> OccursAt(s, pattern, r)
    ensures forall k :: r < k <= from ==> !OccursAt(s, pattern, k)
    decreases from + 1
  {
    if from < 0 then -1
    else if s[from..from + |pattern|] == pattern then from
    else LastIndexFrom(s, pattern, from - 1)
  }

  /** `s.lastIndexOf(pattern)`: the last position where `pattern` occurs, or -1. An
      empty pattern occurs last at the end of the string. */
  function LastIndexOf(s: string, pattern: string): (r: int)
    ensures r == -1 <==> forall k :: !OccursAt(s, pattern, k)
    ensures r >= 0 ==> OccursAt(s, pattern, r) && forall k :: r < k ==> !OccursAt(s, pattern, k)
    ensures pattern == "" ==> r == |s|
  {
    if |pattern| > |s| then -1
    else
      var r := LastIndexFrom(s, pattern, |s| - |pattern|);
      assert pattern == "" ==> s[|s|..|s|] == pattern;
      r
  }

  /** replaceSubString: the text around the last case-insensitive occurrence of
      `toReplace`, with `newValue` in its place; the text unchanged when there is
      none. */
  function ReplaceSubString(original: string, toReplace: string, newValue: string): (r: string)
    ensures LastIndexOf(Lower(original), Lower(toReplace)) == -1 ==> r == original
  {
    var lastIndex := LastIndexOf(Lower(original), Lower(toReplace));
    if lastIndex > -1 then
      original[..lastIndex] + newValue + original[lastIndex + |toReplace|..]
    else original
  }

  /** On a hit at position `i` (the last one ignoring case), the result keeps the text
      before and after it in its own casing, puts `newValue` in between, and has the
      length `|original| - |toReplace| + |newValue|`. */
  lemma ReplaceSubStringHit(original: string, toReplace: string, newValue: string)
    requires LastIndexOf(Lower(original), Lower(toReplace)) >= 0
    ensures var i := LastIndexOf(Lower(original), Lower(toReplace));
      OccursAt(Lower(original), Lower(toReplace), i) &&
      (forall k :: i < k ==> !OccursAt(Lower(original), Lower(toReplace), k)) &&
      ReplaceSubString(original, toReplace, newValue) == original[..i] + newValue + original[i + |toReplace|..] &&
      |ReplaceSubString(original, toReplace, newValue)| == |original| - |toReplace| + |newValue|
  {
  }

  /** Replacing the empty string appends `newValue`: the empty string is found at the
      very end. */
  lemma ReplaceEmptyAppends(original: string, newValue: string)
    ensures ReplaceSubString(original, "", newValue) == original + newValue
  {
    assert Lower("") == "";
    assert original[|original|..] == "";
  }

  /** The match ignores case on both sides: changing the casing of the search text
      does not change the result. */
  lemma ReplaceIgnoresCase(original: string, a: string, b: string, newValue: string)
    requires Lower(a) == Lower(b)
    ensures ReplaceSubString(original, a, newValue) == ReplaceSubString(original, b, newValue)
  {
  }
}
